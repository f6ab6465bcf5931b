/** network_server.c: the server that cuts the client's byte stream at NULs and sends
    every command back as a frame. */
module Server {
  import opened Bytes
  import opened Frames
  import Memory

  class Reframer {
    const receiveBuffer: array<byte>
    var used: nat
    var bytesReceived: nat

    ghost predicate Valid()
      reads this
    {
      receiveBuffer.Length == RECEIVE_MAX && used <= RECEIVE_MAX
    }

    /** The bytes received and not yet processed. */
    ghost function Pending(): Bytes
      reads this, receiveBuffer
      requires Valid()
    {
      receiveBuffer[..used]
    }

    constructor ()
      ensures Valid() && fresh(receiveBuffer) && Pending() == [] && bytesReceived == 0
    {
      receiveBuffer := new byte[RECEIVE_MAX](_ => 0);
      used, bytesReceived := 0, 0;
    }

    /** server_message: three writes, which together are one frame. */
    static method Message(message: Bytes) returns (written: Bytes)
      ensures written == FrameBytes(Frame(0, message))
      ensures written[4..8] == [48, 48, 48, 0] && written[8..] == message + [0]
    {
      var n := |message| + 1;
      written := LE32(n);
      written := written + [48, 48, 48, NUL];
      written := written + message + [NUL];
    }

    /** server_process */
    method Process(n: nat) returns (msgStart: nat, written: Bytes)
      requires Valid() && n <= RECEIVE_MAX
      ensures msgStart <= n && receiveBuffer[msgStart..n] == Rest(NUL, receiveBuffer[..n])
      ensures written == LocalStream(Lines(NUL, receiveBuffer[..n]))
    {
      hide Lines, Rest, LocalStream;
      NoLines(NUL, receiveBuffer[..0]);
      LocalStreamEmpty();
      msgStart, written := 0, [];
      for i := 0 to n
        invariant msgStart <= i
        invariant receiveBuffer[msgStart..i] == Rest(NUL, receiveBuffer[..i])
        invariant written == LocalStream(Lines(NUL, receiveBuffer[..i]))
      {
        TakeSnoc(receiveBuffer[..], i);
        LinesSnoc(NUL, receiveBuffer[..i], receiveBuffer[i]);
        assert receiveBuffer[..][..i + 1] == receiveBuffer[..i + 1] && receiveBuffer[..][..i] == receiveBuffer[..i];
        if receiveBuffer[i] == NUL {
          var w := Message(receiveBuffer[msgStart..i]);
          ghost var done, c := Lines(NUL, receiveBuffer[..i]), Rest(NUL, receiveBuffer[..i]);
          assert c == receiveBuffer[msgStart..i];
          LocalStreamAppend(done, [c]);
          LocalStreamOne(c);
          msgStart, written := i + 1, written + w;
        }
      }
    }

    method Fill(bytes: Bytes)
      requires Valid() && |bytes| <= RECEIVE_MAX - used
      modifies this, receiveBuffer
      ensures Valid() && bytesReceived == old(bytesReceived) + |bytes|
      ensures Pending() == old(Pending()) + bytes
    {
      Memory.Copy(receiveBuffer, used, bytes);
      bytesReceived, used := bytesReceived + |bytes|, used + |bytes|;
    }

    method Drain() returns (written: Bytes)
      requires Valid()
      modifies this`used, receiveBuffer
      ensures Valid()
      ensures Pending() == Rest(NUL, old(Pending()))
      ensures written == LocalStream(Lines(NUL, old(Pending())))
    {
      var processed;
      processed, written := Process(used);
      if processed != 0 {
        Memory.MoveDown(receiveBuffer, processed, used - processed);
        used := used - processed;
      }
    }

    /** One pass of server_routine that found bytes to read. */
    method Receive(bytes: Bytes) returns (written: Bytes)
      requires Valid() && |bytes| <= RECEIVE_MAX - used
      modifies this, receiveBuffer
      ensures Valid() && bytesReceived == old(bytesReceived) + |bytes|
      ensures Pending() == Rest(NUL, old(Pending()) + bytes)
      ensures written == LocalStream(Lines(NUL, old(Pending()) + bytes))
    {
      Fill(bytes);
      written := Drain();
    }

    /** server_routine: poll after poll, each read taking what has arrived up to the free
        space. However the reads fall, what has been written is the framing of every command
        in the bytes taken so far, and what is kept is their unterminated tail. */
    method Routine(incoming: Bytes, arrivals: seq<nat>) returns (taken: nat, written: Bytes)
      requires Valid() && Pending() == []
      modifies this, receiveBuffer
      ensures Valid() && taken <= |incoming|
      ensures Pending() == Rest(NUL, incoming[..taken])
      ensures written == LocalStream(Lines(NUL, incoming[..taken]))
    {
      taken, written := 0, [];
      NoLines(NUL, []);
      LocalStreamEmpty();
      hide Lines, Rest, LocalStream;
      assert incoming[..0] == [];
      for p := 0 to |arrivals|
        invariant Valid() && taken <= |incoming|
        invariant Pending() == Rest(NUL, incoming[..taken])
        invariant written == LocalStream(Lines(NUL, incoming[..taken]))
      {
        var k := Min(arrivals[p], Min(|incoming| - taken, RECEIVE_MAX - used));
        var w := Take(incoming, taken, k, incoming[taken..taken + k]);
        taken, written := taken + k, written + w;
      }
    }

    /** One poll of server_routine: the next k bytes of all that is coming. */
    method Take(ghost incoming: Bytes, taken: nat, k: nat, bytes: Bytes) returns (written: Bytes)
      requires Valid() && taken + k <= |incoming| && k <= RECEIVE_MAX - used && bytes == incoming[taken..taken + k]
      requires Pending() == Rest(NUL, incoming[..taken])
      modifies this, receiveBuffer
      ensures Valid() && Pending() == Rest(NUL, incoming[..taken + k])
      ensures LocalStream(Lines(NUL, incoming[..taken])) + written == LocalStream(Lines(NUL, incoming[..taken + k]))
    {
      hide Lines, Rest, LocalStream;
      RoutineStep(incoming, taken, k);
      written := Receive(bytes);
    }
  }

  lemma RoutineStep(s: Bytes, taken: nat, k: nat)
    requires taken + k <= |s|
    ensures var (before, after, now) := (s[..taken], s[..taken + k], Rest(NUL, s[..taken]) + s[taken..taken + k]);
            && LocalStream(Lines(NUL, after)) == LocalStream(Lines(NUL, before)) + LocalStream(Lines(NUL, now))
            && Rest(NUL, after) == Rest(NUL, now)
  {
    var before, chunk := s[..taken], s[taken..taken + k];
    assert s[..taken + k] == before + chunk;
    LinesAppend(NUL, before, chunk);
    LocalStreamAppend(Lines(NUL, before), Lines(NUL, Rest(NUL, before) + chunk));
  }
}
