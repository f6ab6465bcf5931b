/** connection.c: the client's end of the wire, over its receive buffer and the players' logs.
    Every method is proved to compute the function of Lockstep.dfy that models it. */
module Connection {
  import opened Bytes
  import opened Frames
  import opened Records
  import opened Lockstep
  import opened Players
  import Memory

  /** What the client relies on from its server: commands without NUL. */
  ghost predicate NulFree(b: Bytes) {
    HasFrame(b) ==> Free(NUL, HeadFrame(b).cmd) && NulFree(b[FrameLen(b)..])
  }

  function Total(n: seq<nat>): nat
    requires |n| == MAX_PLAYER
  {
    n[0] + n[1] + n[2] + n[3]
  }

  lemma TotalUpdate(n: seq<nat>, id: nat, k: nat)
    requires |n| == MAX_PLAYER && id < MAX_PLAYER
    ensures Total(n[id := n[id] + k]) == Total(n) + k
  {
  }

  lemma MovedDown(was: Bytes, used: nat, length: nat)
    requires length <= used <= |was|
    ensures var now := Memory.Moved(was, length, |was| - length);
            |now| == |was| && now[..used - length] == was[..used][length..]
  {
  }

  lemma ProcessStops(b: Bytes, logs: Logs)
    ensures Waits(b) ==> Process(b, logs) == Inbox(b, logs, Drained)
    ensures |b| >= 8 && 8 + BlockLen(b) > INT_MAX ==> Process(b, logs) == Inbox(b, logs, Undefined)
  {
  }

  /** How many messages of each player are not in the player's log. */
  function Uncounted(messages: seq<nat>, logs: Logs): seq<int> {
    if |messages| != MAX_PLAYER then [] else
      [messages[0] - |Log(logs, 0)|, messages[1] - |Log(logs, 1)|,
       messages[2] - |Log(logs, 2)|, messages[3] - |Log(logs, 3)|]
  }

  lemma CountedAppend(messages: seq<nat>, logs: Logs, f: Frame)
    requires |messages| == MAX_PLAYER && f.id < MAX_PLAYER && logs[f.id].Some?
    ensures Uncounted(messages[f.id := messages[f.id] + 1], Appended(logs, f)) == Uncounted(messages, logs)
  {
  }

  lemma CountedNew(messages: seq<nat>, logs: Logs, id: nat)
    requires id < MAX_PLAYER && logs[id].None?
    ensures Uncounted(messages, logs[id := Some([])]) == Uncounted(messages, logs)
  {
  }

  class Connection {
    const receiveBuffer: array<byte>
    var used: nat
    var bytesReceived: nat
    var bytesProcessed: seq<nat>
    var messagesProcessed: seq<nat>

    ghost var inbox: Bytes  // the bytes received and not yet processed

    /** Every byte received has been processed for some player or is still in the buffer. */
    ghost predicate Valid()
      reads this, receiveBuffer
    {
      && receiveBuffer.Length == RECEIVE_MAX && used <= RECEIVE_MAX
      && |bytesProcessed| == |messagesProcessed| == MAX_PLAYER
      && bytesReceived == used + Total(bytesProcessed)
      && inbox == receiveBuffer[..used]
    }

    constructor ()
      ensures Valid() && fresh(receiveBuffer) && inbox == []
    {
      receiveBuffer := new byte[RECEIVE_MAX](_ => 0);
      used, bytesReceived := 0, 0;
      bytesProcessed, messagesProcessed := [0, 0, 0, 0], [0, 0, 0, 0];
      inbox := [];
    }

    /** connection_io: false on any network failure, else the read took some bytes or none. */
    method Io(io: IO) returns (ok: bool)
      requires Valid() && (io.Received? ==> |inbox| + |io.bytes| <= RECEIVE_MAX)
      modifies this, receiveBuffer
      ensures Valid() && ok == io.Received?
      ensures inbox == old(inbox) + if io.Received? then io.bytes else []
    {
      if io.Failure? { return false; }
      Memory.Copy(receiveBuffer, used, io.bytes);
      bytesReceived, used := bytesReceived + |io.bytes|, used + |io.bytes|;
      inbox := inbox + io.bytes;
      ok := true;
    }

    /** The accounting and the memmove after a frame. */
    method DropFrame(id: nat, length: nat)
      requires Valid() && id < MAX_PLAYER && length <= |inbox|
      modifies this, receiveBuffer
      ensures Valid() && inbox == old(inbox)[length..] && bytesReceived == old(bytesReceived)
      ensures bytesProcessed == old(bytesProcessed)[id := old(bytesProcessed)[id] + length]
      ensures messagesProcessed == old(messagesProcessed)[id := old(messagesProcessed)[id] + 1]
    {
      messagesProcessed := messagesProcessed[id := messagesProcessed[id] + 1];
      TotalUpdate(bytesProcessed, id, length);
      bytesProcessed := bytesProcessed[id := bytesProcessed[id] + length];
      hide Total;
      ShiftBuffer(length);
    }

    method ShiftBuffer(length: nat)
      requires receiveBuffer.Length == RECEIVE_MAX && length <= used <= RECEIVE_MAX && inbox == receiveBuffer[..used]
      modifies this`used, this`inbox, receiveBuffer
      ensures used == old(used) - length && inbox == old(inbox)[length..] && inbox == receiveBuffer[..used]
    {
      ghost var was := receiveBuffer[..];
      hide Memory.Moved;
      assert inbox == was[..used];
      MovedDown(was, used, length);
      Memory.MoveDown(receiveBuffer, length, RECEIVE_MAX - length);
      ghost var now := receiveBuffer[..];
      used, inbox := used - length, inbox[length..];
      assert receiveBuffer[..used] == now[..used];
    }

    /** The decoder may run: the buffer's commands are NUL-free and the logs have room. */
    ghost predicate Ready(game: GameRecord)
      reads this, receiveBuffer, game, game.Repr
    {
      && Valid() && game.Valid() && NulFree(inbox) && game.RoomFor(|inbox|)
      && this !in game.Repr && receiveBuffer !in game.Repr
    }

    /** What decoding changes, and what it leaves alone. */
    twostate predicate Decoding(game: GameRecord)
      reads this, receiveBuffer, game, game.Repr
    {
      Ready(game) && fresh(game.Repr - old(game.Repr)) && game.cursors == old(game.cursors)
    }

    method DeliverFrame(game: GameRecord, id: nat, length: nat)
      requires Ready(game) && HasFrame(inbox) && id == PlayerId(inbox) < MAX_PLAYER && game.logs[id].Some?
      requires length == FrameLen(inbox)
      modifies this, receiveBuffer, game.Repr
      ensures Decoding(game) && inbox == old(inbox)[length..]
      ensures game.logs == Appended(old(game.logs), old(HeadFrame(inbox)))
      ensures messagesProcessed == old(messagesProcessed)[id := old(messagesProcessed)[id] + 1]
    {
      game.CursorCount();
      var received := receiveBuffer[..used];
      var cmd := received[8..length - 1];
      assert cmd == HeadFrame(inbox).cmd;
      hide GameRecord.Valid, BlockLen, Total, PlayerId;
      game.Append(id, cmd);
      DropFrame(id, length);
    }

    /** The body of the decoding loop, once all bytes that the header counts are there. An id
        below zero or a count below one ends it where C no longer defines what happens. */
    method TakeFrame(game: GameRecord, id: int, length: int) returns (stop: Option<Verdict>)
      requires Ready(game) && !Waits(inbox) && id == PlayerId(inbox) && length == 8 + BlockLen(inbox) <= INT_MAX
      modifies this, receiveBuffer, game.Repr
      ensures Decoding(game) && (stop.None? ==> |inbox| < |old(inbox)|)
      ensures old(Process(inbox, game.logs)) ==
              if stop.Some? then Inbox(inbox, game.logs, stop.value) else Process(inbox, game.logs)
      ensures Uncounted(messagesProcessed, game.logs) == old(Uncounted(messagesProcessed, game.logs))
    {
      hide GameRecord.Valid, BlockLen, NulFree, Uncounted;
      if id >= MAX_PLAYER { return Some(Crash); }
      if id < 0 { return Some(Undefined); }
      var missing := game.Missing(id);
      if missing {
        CountedNew(messagesProcessed, game.logs, id);
        game.Allocate(id);
        return Some(NewPlayer);
      }
      if length < 9 { return Some(Undefined); }
      CountedAppend(messagesProcessed, game.logs, HeadFrame(inbox));
      DeliverFrame(game, id, length);
      stop := None;
    }

    /** connection_processing: as Process says, and every player's message counter moves with
        the commands in the player's log. */
    method Processing(game: GameRecord) returns (verdict: Verdict)
      requires Ready(game)
      modifies this, receiveBuffer, game.Repr
      ensures Decoding(game)
      ensures Inbox(inbox, game.logs, verdict) == old(Process(inbox, game.logs))
      ensures Uncounted(messagesProcessed, game.logs) == old(Uncounted(messagesProcessed, game.logs))
    {
      hide GameRecord.Valid, BlockLen, NulFree, Process, PlayerId, Total, GameRecord.RoomFor, Uncounted;
      while used >= 8
        invariant Decoding(game)
        invariant Process(inbox, game.logs) == old(Process(inbox, game.logs))
        invariant Uncounted(messagesProcessed, game.logs) == old(Uncounted(messagesProcessed, game.logs))
        decreases |inbox|
      {
        var received := receiveBuffer[..used];
        var length := 8 + BlockLen(received);
        ProcessStops(inbox, game.logs);
        if length > INT_MAX { return Undefined; }
        if used < length { break; }
        var stop := TakeFrame(game, PlayerId(received), length);
        if stop.Some? { return stop.value; }
      }
      ProcessStops(inbox, game.logs);
      verdict := Drained;
    }

    /** The sending loop of connection_sync: one write for each command up to the target. */
    method Send(target: nat, input: RecordRW) returns (ok: bool, written: Bytes)
      requires input.Valid() && input.rec != null
      modifies input`read
      ensures input.Valid()
      ensures input.read.commandCount == Max(old(input.read.commandCount), Min(target, |input.cmds|))
      ensures written == Join(NUL, input.cmds[old(input.read.commandCount)..input.read.commandCount])
      ensures ok <==> target <= Max(old(input.read.commandCount), |input.cmds|)
    {
      ghost var from := input.read.commandCount;
      written := [];
      while target > input.read.commandCount
        invariant input.Valid() && from <= input.read.commandCount <= Max(from, Min(target, |input.cmds|))
        invariant written == Join(NUL, input.cmds[from..input.read.commandCount])
        decreases target - input.read.commandCount
      {
        ghost var k := input.read.commandCount;
        var cmd := input.Next();
        if cmd == None { return false, written; }
        JoinSnoc(input.cmds[from..k], cmd.value);
        assert input.cmds[from..k + 1] == input.cmds[from..k] + [cmd.value];
        written := written + (cmd.value + [NUL]);
      }
      ok := true;
    }

    /** The two calls that connection_sync begins with; None when connection_io fails. */
    method Receive(game: GameRecord, io: IO) returns (verdict: Option<Verdict>)
      requires Valid() && game.Valid() && this !in game.Repr && receiveBuffer !in game.Repr && Fits(game, io)
      modifies this, receiveBuffer, game.Repr
      ensures Valid() && game.Valid() && fresh(game.Repr - old(game.Repr)) && game.cursors == old(game.cursors)
      ensures io.Failure? ==> verdict == None && inbox == old(inbox) && game.logs == old(game.logs)
      ensures io.Received? ==>
                && verdict.Some?
                && Inbox(inbox, game.logs, verdict.value) == Process(old(inbox) + io.bytes, old(game.logs))
    {
      hide Process, NulFree, GameRecord.Valid, GameRecord.RoomFor, Total, Uncounted;
      var up := Io(io);
      if !up { return None; }
      var result := Processing(game);
      verdict := Some(result);
    }

    /** connection_sync */
    method Sync(target: nat, input: RecordRW, game: GameRecord, io: IO) returns (status: Status, written: Bytes)
      requires Valid() && game.Valid() && this !in game.Repr && receiveBuffer !in game.Repr && Fits(game, io)
      requires input.Valid() && input.rec != null && input.Repr !! game.Repr
      requires this !in input.Repr && receiveBuffer !in input.Repr
      modifies this, receiveBuffer, game.Repr, input`read
      ensures Valid() && game.Valid() && fresh(game.Repr - old(game.Repr)) && game.cursors == old(game.cursors)
      ensures input.Valid()
      ensures io.Failure? ==> status == Term && inbox == old(inbox) && game.logs == old(game.logs)
      ensures io.Received? ==>
                var p := Process(old(inbox) + io.bytes, old(game.logs));
                && inbox == p.buf && game.logs == p.logs
                && (p.verdict == Crash || p.verdict == Undefined ==> status == Crashed)
                && (p.verdict == NewPlayer ==> status == Change)
                && (p.verdict == Drained ==>
                      status == if target > Max(old(input.read.commandCount), |input.cmds|) then Corrupt else Ok)
      ensures input.read.commandCount ==
              if status == Ok || status == Corrupt then Max(old(input.read.commandCount), Min(target, |input.cmds|))
              else old(input.read.commandCount)
      ensures written == Join(NUL, input.cmds[old(input.read.commandCount)..input.read.commandCount])
    {
      written := [];
      assert input.cmds[input.read.commandCount..input.read.commandCount] == [];
      hide Process, NulFree, Join, GameRecord.Valid, GameRecord.RoomFor, Total, RecordRW.Valid;
      JoinNone();
      var verdict := Receive(game, io);
      if verdict == None { return Term, written; }
      if verdict.value == Crash || verdict.value == Undefined { return Crashed, written; }
      if verdict.value == NewPlayer { return Change, written; }
      var ok;
      ok, written := Send(target, input);
      status := if ok then Ok else Corrupt;
    }

    /** Bytes that fit the receive buffer, hold NUL-free commands, and keep the players' logs
        within the byte limit. */
    ghost predicate Fits(game: GameRecord, io: IO)
      reads this, game
    {
      io.Received? ==>
        |inbox| + |io.bytes| <= RECEIVE_MAX && NulFree(inbox + io.bytes) && game.RoomFor(|inbox| + |io.bytes|)
    }
  }
}
