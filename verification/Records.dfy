/** record.c: the growable, NUL-delimited command log and its cursors. */
module Records {
  import opened Bytes
  import Memory

  const ALLOC_MIN := 4 * 1024
  /** The program keeps its byte counts in the range of a 32-bit int. */
  const BYTE_LIMIT := 0x8000_0000

  /** RecordOffset_t, held by value inside RecordRW_t. */
  datatype Offset = Offset(byteCount: nat, commandCount: nat)

  const ORIGIN := Offset(0, 0)

  /** A size_t value converted to C's int. */
  function ToInt(x: int): int { (x + 0x8000_0000) % 0x1_0000_0000 - 0x8000_0000 }

  /** The conversion is exact within the byte limit. */
  lemma AsInt(x: int)
    requires -BYTE_LIMIT <= x < BYTE_LIMIT
    ensures ToInt(x) == x
  {
  }

  /** The sizes a buffer goes through when it starts at ALLOC_MIN and is only ever doubled. */
  predicate Doubled(n: nat) {
    n == ALLOC_MIN || (n > ALLOC_MIN && n % 2 == 0 && Doubled(n / 2))
  }

  lemma {:induction false} DoubledGap(n: nat, limit: nat)
    requires Doubled(n) && Doubled(limit) && n < limit
    ensures 2 * n <= limit
  {
    if n == ALLOC_MIN {
      DoubledAtLeast(limit / 2);
    } else {
      DoubledAtLeast(n);
      DoubledGap(n / 2, limit / 2);
    }
  }

  lemma {:induction false} DoubledAtLeast(n: nat)
    requires Doubled(n)
    ensures ALLOC_MIN <= n
  {
  }

  /** s with w written over it from position at, growing when w reaches past the end. */
  function Overwritten(s: Bytes, at: nat, w: Bytes): Bytes
    requires at <= |s|
  {
    s[..at] + w + if at + |w| <= |s| then s[at + |w|..] else []
  }

  /** Byte by byte: w from position at on, and everything else as it was. */
  lemma OverwrittenIs(s: Bytes, at: nat, w: Bytes)
    requires at <= |s|
    ensures var r := Overwritten(s, at, w);
            && |r| == (if at + |w| > |s| then at + |w| else |s|)
            && (forall i :: 0 <= i < |w| ==> r[at + i] == w[i])
            && (forall i :: 0 <= i < |s| && (i < at || at + |w| <= i) ==> r[i] == s[i])
  {
  }

  lemma CopiedThenNul(s: Bytes, at: nat, input: Bytes)
    requires at + |input| < |s|
    ensures (s[..at] + input + s[at + |input|..])[at + |input| := NUL] == Overwritten(s, at, input + [NUL])
  {
  }

  lemma SameBytes(s: Bytes, i: nat, w: Bytes, t: Bytes)
    requires i <= |s| && s[i..] == w + t
    ensures Overwritten(s, i, w) == s
  {
    assert s[i..][|w|..] == s[i + |w|..];
  }

  /** Overwriting commutes with keeping only the used part of a buffer. */
  lemma OverwrittenPrefix(whole: Bytes, used: nat, at: nat, w: Bytes)
    requires at <= used <= |whole| && at + |w| <= |whole| && w != [] && w[|w| - 1] == NUL
    requires used > 0 ==> whole[used - 1] == NUL
    ensures var s := Overwritten(whole, at, w)[..Max(used, at + |w|)];
            s == Overwritten(whole[..used], at, w) && s[|s| - 1] == NUL
  {
  }

  predicate Terminated(s: Bytes) { s == [] || s[|s| - 1] == NUL }

  /** What record_read returns at an offset, and the offset it leaves. */
  function ReadAt(s: Bytes, off: Offset): (Option<Bytes>, Offset)
    requires Terminated(s)
  {
    if off.byteCount >= |s| then (None, off) else
      var here := s[off.byteCount..];
      assert here[|here| - 1] == NUL;
      var len := Find(NUL, here);
      (Some(here[..len]), Offset(off.byteCount + len + 1, off.commandCount + 1))
  }

  /** The cursor that stands in front of command k of a log. */
  function At(cmds: seq<Bytes>, k: nat): Offset
    requires k <= |cmds|
  {
    Offset(|Join(NUL, cmds[..k])|, k)
  }

  lemma JoinSplit(cmds: seq<Bytes>, k: nat)
    requires k < |cmds|
    ensures Join(NUL, cmds) == Join(NUL, cmds[..k]) + cmds[k] + [NUL] + Join(NUL, cmds[k + 1..])
    ensures At(cmds, k + 1) == Offset(At(cmds, k).byteCount + |cmds[k]| + 1, k + 1)
  {
    hide Join;
    assert cmds == cmds[..k] + cmds[k..] && cmds[k..] == [cmds[k]] + cmds[k + 1..];
    JoinAppend(NUL, cmds[..k], cmds[k..]);
    JoinCons(NUL, cmds[k], cmds[k + 1..]);
    TakeSnoc(cmds, k);
    JoinAppend(NUL, cmds[..k], [cmds[k]]);
    JoinOne(NUL, cmds[k]);
  }

  lemma JoinSnoc(cmds: seq<Bytes>, c: Bytes)
    ensures Join(NUL, cmds + [c]) == Join(NUL, cmds) + (c + [NUL])
    ensures forall k :: 0 <= k <= |cmds| ==> At(cmds + [c], k) == At(cmds, k)
  {
    hide Join;
    JoinAppend(NUL, cmds, [c]);
    JoinOne(NUL, c);
    assert forall k :: 0 <= k <= |cmds| ==> (cmds + [c])[..k] == cmds[..k];
  }

  lemma JoinEndsInNul(cmds: seq<Bytes>)
    ensures Terminated(Join(NUL, cmds))
    ensures cmds != [] ==> Join(NUL, cmds) != []
  {
    if cmds != [] {
      JoinSplit(cmds, |cmds| - 1);
    }
  }

  lemma ReadHere(s: Bytes, off: Offset, cmd: Bytes, t: Bytes)
    requires Terminated(s) && off.byteCount <= |s|
    requires Free(NUL, cmd) && s[off.byteCount..] == cmd + [NUL] + t
    ensures ReadAt(s, off) == (Some(cmd), Offset(off.byteCount + |cmd| + 1, off.commandCount + 1))
  {
    hide Find;
    FindAt(NUL, cmd, t);
    assert (cmd + [NUL] + t)[..|cmd|] == cmd;
  }

  lemma JoinTail(cmds: seq<Bytes>, k: nat)
    requires k < |cmds|
    ensures At(cmds, k).byteCount <= |Join(NUL, cmds)|
    ensures Join(NUL, cmds)[At(cmds, k).byteCount..] == cmds[k] + [NUL] + Join(NUL, cmds[k + 1..])
  {
    hide Join;
    JoinSplit(cmds, k);
    var p, t := Join(NUL, cmds[..k]), Join(NUL, cmds[k + 1..]);
    Assoc(p, cmds[k], [NUL]);
    Assoc(p, cmds[k] + [NUL], t);
    Behind(p, cmds[k] + [NUL] + t);
  }

  lemma Behind(p: Bytes, q: Bytes)
    ensures (p + q)[|p|..] == q
  {
  }

  /** Reading a log returns the recorded commands one by one and then nothing. */
  lemma ReadLog(cmds: seq<Bytes>, k: nat)
    requires AllFree(NUL, cmds) && k <= |cmds|
    ensures Terminated(Join(NUL, cmds))
    ensures k < |cmds| ==> ReadAt(Join(NUL, cmds), At(cmds, k)) == (Some(cmds[k]), At(cmds, k + 1))
    ensures k == |cmds| ==> ReadAt(Join(NUL, cmds), At(cmds, k)) == (None, At(cmds, k))
  {
    hide Join, Find;
    JoinEndsInNul(cmds);
    if k < |cmds| {
      JoinTail(cmds, k);
      ReadHere(Join(NUL, cmds), At(cmds, k), cmds[k], Join(NUL, cmds[k + 1..]));
      JoinSplit(cmds, k);
    } else {
      assert cmds[..k] == cmds;
    }
  }

  lemma Slice(s: Bytes, i: nat, w: Bytes, t: Bytes)
    requires i <= |s| && s[i..] == w + t
    ensures i + |w| <= |s| && s[i..i + |w|] == w
  {
    assert s[i..i + |w|] == s[i..][..|w|];
  }

  lemma LastByte(a: Bytes, r: Bytes)
    ensures r != [] ==> (a + r)[|a + r| - 1] == r[|r| - 1]
  {
  }

  /** A log that ends in NUL is its own commands joined. */
  lemma LogLines(log: Bytes) returns (cmds: seq<Bytes>)
    requires Terminated(log)
    ensures cmds == Lines(NUL, log) && log == Join(NUL, cmds) && AllFree(NUL, cmds)
  {
    hide Lines, Rest, Join, Find;
    cmds := Lines(NUL, log);
    LinesJoin(NUL, log);
    var r := Rest(NUL, log);
    LastByte(Join(NUL, cmds), r);
  }

  lemma AtStart(cmds: seq<Bytes>)
    ensures At(cmds, 0) == ORIGIN
  {
    assert cmds[..0] == [];
  }

  /** The cursor runs off the end of the log exactly after the last command. */
  lemma AtEnd(cmds: seq<Bytes>, k: nat)
    requires k <= |cmds|
    ensures At(cmds, k).byteCount <= |Join(NUL, cmds)|
    ensures At(cmds, k).byteCount == |Join(NUL, cmds)| <==> k == |cmds|
  {
    hide Join;
    if k < |cmds| {
      JoinTail(cmds, k);
    } else {
      assert cmds[..k] == cmds;
    }
  }

  /** record_read_bytes gives back a payload of any bytes when asked for its length,
      and refuses every length once the log is exhausted. */
  lemma ReadBytesLog(payloads: seq<Bytes>, k: nat)
    requires k <= |payloads|
    ensures var s, at := Join(NUL, payloads), At(payloads, k).byteCount;
            && (k < |payloads| ==> at + |payloads[k]| < |s| && s[at..at + |payloads[k]|] == payloads[k])
            && (k == |payloads| ==> at == |s|)
  {
    hide Join;
    if k < |payloads| {
      JoinSplit(payloads, k);
    } else {
      assert payloads[..k] == payloads;
    }
  }

  /** One step of a walk over a log's bytes, command by command. */
  lemma WalkStep(cmds: seq<Bytes>, k: nat)
    requires AllFree(NUL, cmds) && k <= |cmds| && At(cmds, k).byteCount < |Join(NUL, cmds)|
    ensures k < |cmds| && cmds[..k + 1] == cmds[..k] + [cmds[k]]
    ensures var s, i := Join(NUL, cmds), At(cmds, k).byteCount;
            && Find(NUL, s[i..]) == |cmds[k]| && i + |cmds[k]| < |s| && s[i..i + |cmds[k]|] == cmds[k]
            && i + |cmds[k]| + 1 == At(cmds, k + 1).byteCount
  {
    hide Join, Find;
    AtEnd(cmds, k);
    JoinTail(cmds, k);
    JoinSplit(cmds, k);
    var t := Join(NUL, cmds[k + 1..]);
    FindAt(NUL, cmds[k], t);
    Slice(Join(NUL, cmds), At(cmds, k).byteCount, cmds[k], [NUL] + t);
    TakeSnoc(cmds, k);
  }

  class Record {
    var buf: array<byte>  // alloc_bytes is buf.Length
    var usedBytes: nat

    ghost predicate Valid()
      reads this, buf
    {
      && Doubled(buf.Length) && buf.Length <= BYTE_LIMIT
      && usedBytes <= buf.Length
      && (usedBytes > 0 ==> buf[usedBytes - 1] == NUL)
    }

    ghost function Contents(): Bytes
      reads this, buf
      requires Valid()
    {
      buf[..usedBytes]
    }

    /** record_alloc */
    constructor ()
      ensures Valid() && fresh(buf) && Contents() == [] && buf.Length == 4096
    {
      usedBytes := 0;
      buf := new byte[ALLOC_MIN](_ => 0);
    }

    /** record_clone */
    constructor Clone(rec: Record)
      requires rec.Valid()
      ensures Valid() && fresh(buf) && Contents() == rec.Contents() && buf.Length == rec.buf.Length
    {
      var from, used := rec.buf, rec.usedBytes;
      buf := new byte[from.Length](i reads from => if 0 <= i < from.Length && i < used then from[i] else 0);
      usedBytes := used;
      new;
      assert buf[..usedBytes] == rec.buf[..usedBytes];
    }

    /** record_realloc */
    method Realloc(bytesNeeded: int)
      requires Valid() && (bytesNeeded > 0 ==> buf.Length < BYTE_LIMIT)
      modifies this`buf
      ensures Valid() && Contents() == old(Contents())
      ensures bytesNeeded <= 0 ==> buf == old(buf)
      ensures bytesNeeded > 0 ==> fresh(buf) && buf.Length == 2 * old(buf.Length)
    {
      if bytesNeeded <= 0 { return; }
      RoomToDouble(buf.Length);
      var from := buf;
      var newBuf := new byte[from.Length * 2](i reads from => if 0 <= i < from.Length then from[i] else 0);
      assert newBuf[..usedBytes] == from[..usedBytes];
      buf := newBuf;
    }

    /** record_append's use of record_realloc: one doubling is enough. */
    method Reserve(needed: nat)
      requires Valid() && needed < BYTE_LIMIT && needed <= 2 * buf.Length
      modifies this`buf
      ensures Valid() && Contents() == old(Contents()) && needed <= buf.Length
      ensures if needed <= old(buf.Length) then buf == old(buf) else fresh(buf)
    {
      AsInt(needed - buf.Length);
      Realloc(ToInt(needed - buf.Length));
    }

    /** record_append: one doubling is always enough for a command that fits a
        receive buffer, and no byte outside the written range changes. */
    method Append(input: Bytes, off: Offset) returns (next: Offset)
      requires Valid() && off.byteCount <= usedBytes
      requires off.byteCount + |input| + 1 < BYTE_LIMIT
      requires off.byteCount + |input| + 1 <= 2 * buf.Length
      modifies this, buf
      ensures Valid() && (if off.byteCount + |input| + 1 <= old(buf.Length) then buf == old(buf) else fresh(buf))
      ensures Contents() == Overwritten(old(Contents()), off.byteCount, input + [NUL])
      ensures next == Offset(off.byteCount + |input| + 1, off.commandCount + 1)
    {
      var needed := off.byteCount + |input| + 1;
      Reserve(needed);
      Put(off.byteCount, input);
      next := Offset(needed, off.commandCount + 1);
    }

    /** The loop in game_simulation that stores the library's objects, whatever their bytes:
        the log becomes one of all payloads, and its offset stands behind the last. */
    method StoreObjects(objects: seq<Bytes>, off: Offset, ghost before: seq<Bytes>) returns (next: Offset)
      requires Valid() && Contents() == Join(NUL, before) && off == At(before, |before|)
      requires forall i :: 0 <= i < |objects| ==> |objects[i]| + 1 <= ALLOC_MIN
      requires |Join(NUL, before + objects)| < BYTE_LIMIT
      modifies this, buf
      ensures Valid() && Contents() == Join(NUL, before + objects)
      ensures next == At(before + objects, |before| + |objects|)
      ensures buf == old(buf) || fresh(buf)
    {
      next := off;
      assert before + objects[..0] == before;
      for i := 0 to |objects|
        invariant Valid() && Contents() == Join(NUL, before + objects[..i])
        invariant next == At(before + objects[..i], |before| + i)
        invariant buf == old(buf) || fresh(buf)
      {
        StoreStep(before, objects, i);
        DoubledAtLeast(buf.Length);
        hide Join, Doubled, Overwritten;
        next := Append(objects[i], next);
      }
      assert objects[..|objects|] == objects;
    }

    method Put(at: nat, input: Bytes)
      requires Valid() && at <= usedBytes && at + |input| < buf.Length
      modifies this`usedBytes, buf
      ensures Valid() && Contents() == Overwritten(old(Contents()), at, input + [NUL])
    {
      ghost var whole, used := buf[..], usedBytes;
      OverwrittenPrefix(whole, used, at, input + [NUL]);
      assert whole[..used] == Contents();
      WriteAt(at, input);
      usedBytes := Max(usedBytes, at + |input| + 1);
      assert buf[..usedBytes] == buf[..][..usedBytes];
    }

    method WriteAt(at: nat, input: Bytes)
      requires at + |input| < buf.Length
      modifies buf
      ensures buf[..] == Overwritten(old(buf[..]), at, input + [NUL])
    {
      ghost var was := buf[..];
      Memory.Copy(buf, at, input);
      ghost var copied := buf[..];
      assert copied == was[..at] + input + was[at + |input|..];
      buf[at + |input|] := NUL;
      assert buf[..] == copied[at + |input| := NUL];
      hide *;
      CopiedThenNul(was, at, input);
    }

    /** The C string that starts at byte i of the log. */
    method TextAt(i: nat) returns (text: Bytes)
      requires Valid() && i < usedBytes
      ensures text == Contents()[i..][..Find(NUL, Contents()[i..])]
      ensures i + |text| < usedBytes && text == Contents()[i..i + |text|]
    {
      ghost var here := Contents()[i..];
      assert here[|here| - 1] == NUL;
      var rest := buf[i..usedBytes];
      assert rest == here;
      var length := Find(NUL, rest);
      text := rest[..length];
      hide Find;
      assert Contents()[i..i + length] == here[..length];
    }

    /** record_read, record_peek and record_playback differ only in who gets the command. */
    method Read(off: Offset) returns (cmd: Option<Bytes>, next: Offset)
      requires Valid()
      ensures (cmd, next) == ReadAt(Contents(), off)
    {
      if off.byteCount >= usedBytes {
        return None, off;
      }
      var text := TextAt(off.byteCount);
      cmd := Some(text);
      next := Offset(off.byteCount + |text| + 1, off.commandCount + 1);
    }

    /** record_read_bytes */
    method ReadBytes(len: nat, off: Offset) returns (data: Option<Bytes>, next: Offset)
      requires Valid()
      ensures off.byteCount + len >= |Contents()| ==> data == None && next == off
      ensures off.byteCount + len < |Contents()| ==>
                data == Some(Contents()[off.byteCount..off.byteCount + len])
                && next == Offset(off.byteCount + len + 1, off.commandCount + 1)
    {
      if off.byteCount + len >= usedBytes {
        return None, off;
      }
      assert buf[off.byteCount..off.byteCount + len] == Contents()[off.byteCount..off.byteCount + len];
      data := Some(buf[off.byteCount..off.byteCount + len]);
      next := Offset(off.byteCount + len + 1, off.commandCount + 1);
    }

    /** record_playback_all: the handler is called with exactly the log's commands. */
    method PlaybackAll() returns (visited: seq<Bytes>)
      requires Valid()
      ensures visited == Lines(NUL, Contents())
    {
      hide Lines, Join, Find, Doubled;
      ghost var log := Contents();
      ghost var cmds := LogLines(log);
      AtStart(cmds);
      visited := [];
      var i := 0;
      while i < usedBytes
        invariant |visited| <= |cmds| && visited == cmds[..|visited|]
        invariant i == At(cmds, |visited|).byteCount <= usedBytes
      {
        ghost var k := |visited|;
        WalkStep(cmds, k);
        var cmd := TextAt(i);
        assert cmd == cmds[k];
        visited := visited + [cmd];
        i := i + |cmd| + 1;
      }
      AtEnd(cmds, |visited|);
    }

    /** record_playback called until it fails: the same visit as PlaybackAll. */
    method Playback() returns (visited: seq<Bytes>, off: Offset)
      requires Valid()
      ensures visited == Lines(NUL, Contents())
      ensures off == Offset(usedBytes, |visited|)
    {
      hide Lines, Join, Find, Doubled, ReadAt;
      ghost var cmds := LogLines(Contents());
      AtStart(cmds);
      visited, off := [], ORIGIN;
      while true
        invariant |visited| <= |cmds| && visited == cmds[..|visited|] && off == At(cmds, |visited|)
        decreases |cmds| - |visited|
      {
        ghost var k := |visited|;
        AtEnd(cmds, k);
        ReadLog(cmds, k);
        var cmd, next := Read(off);
        if cmd == None { return; }
        TakeSnoc(cmds, k);
        visited, off := visited + [cmd.value], next;
      }
    }

    /** Playing a clone of this log back into it from offset 0 changes nothing. */
    method Rerecord(copy: Record) returns (off: Offset)
      requires Valid() && copy.Valid() && copy != this && copy.buf != buf
      requires copy.Contents() == Contents() && usedBytes < BYTE_LIMIT
      modifies this, buf
      ensures Valid() && Contents() == old(Contents()) && buf == old(buf)
      ensures off == Offset(usedBytes, |Lines(NUL, Contents())|)
    {
      hide Lines, Join, Find, Doubled, ReadAt, Overwritten;
      ghost var log := Contents();
      ghost var cmds := LogLines(log);
      AtStart(cmds);
      off := ORIGIN;
      while true
        invariant Valid() && buf == old(buf) && Contents() == log
        invariant copy.Valid() && copy.Contents() == log
        invariant off.commandCount <= |cmds| && off == At(cmds, off.commandCount)
        decreases |cmds| - off.commandCount
      {
        AtEnd(cmds, off.commandCount);
        ReadLog(cmds, off.commandCount);
        var cmd, next := copy.Read(off);
        if cmd == None { return; }
        RerecordStep(cmds, off.commandCount);
        off := Append(cmd.value, off);
      }
    }
  }

  /** One more payload behind all others. */
  lemma StoreStep(before: seq<Bytes>, objects: seq<Bytes>, i: nat)
    requires i < |objects|
    ensures var log, more, k := before + objects[..i], before + objects[..i + 1], |before| + i;
            && At(log, k).byteCount == |Join(NUL, log)|
            && Overwritten(Join(NUL, log), At(log, k).byteCount, objects[i] + [NUL]) == Join(NUL, more)
            && At(more, k + 1) == Offset(At(log, k).byteCount + |objects[i]| + 1, k + 1)
            && |Join(NUL, more)| <= |Join(NUL, before + objects)|
  {
    hide Join;
    var log, more := before + objects[..i], before + objects[..i + 1];
    assert more == log + [objects[i]] && before + objects == more + objects[i + 1..];
    assert log[..|log|] == log && more[..|more|] == more;
    JoinSnoc(log, objects[i]);
    JoinAppend(NUL, more, objects[i + 1..]);
  }

  /** Writing a command over itself. */
  lemma RerecordStep(cmds: seq<Bytes>, k: nat)
    requires k < |cmds|
    ensures var log, at := Join(NUL, cmds), At(cmds, k).byteCount;
            && at + |cmds[k]| + 1 <= |log|
            && Overwritten(log, at, cmds[k] + [NUL]) == log
    ensures At(cmds, k + 1) == Offset(At(cmds, k).byteCount + |cmds[k]| + 1, k + 1)
  {
    hide Join;
    JoinTail(cmds, k);
    JoinSplit(cmds, k);
    SameBytes(Join(NUL, cmds), At(cmds, k).byteCount, cmds[k] + [NUL], Join(NUL, cmds[k + 1..]));
  }

  function Doubling(k: nat): nat {
    if k == 0 then ALLOC_MIN else 2 * Doubling(k - 1)
  }

  lemma {:induction false} DoublingIsDoubled(k: nat)
    ensures Doubled(Doubling(k)) && Doubling(k) >= ALLOC_MIN
  {
    if k > 0 {
      DoublingIsDoubled(k - 1);
      DoubledTwice(Doubling(k - 1));
    }
  }

  lemma DoubledTwice(n: nat)
    requires Doubled(n) && n >= ALLOC_MIN
    ensures Doubled(2 * n)
  {
    assert 2 * n / 2 == n;
  }

  lemma LimitIsDoubled()
    ensures Doubled(BYTE_LIMIT)
  {
    DoublingIsDoubled(19);
    hide Doubled;
    FourMore(0);
    FourMore(4);
    FourMore(8);
    FourMore(12);
    assert Doubling(19) == 2 * Doubling(18) == 4 * Doubling(17) == 8 * Doubling(16);
  }

  lemma FourMore(k: nat)
    ensures Doubling(k + 4) == 16 * Doubling(k)
  {
    assert Doubling(k + 4) == 2 * Doubling(k + 3) == 4 * Doubling(k + 2) == 8 * Doubling(k + 1);
  }

  lemma RoomToDouble(n: nat)
    requires Doubled(n) && n < BYTE_LIMIT
    ensures Doubled(2 * n) && 2 * n <= BYTE_LIMIT
  {
    hide Doubled;
    LimitIsDoubled();
    DoubledGap(n, BYTE_LIMIT);
    DoubledAtLeast(n);
    DoubledTwice(n);
  }

  /** RecordRW_t: a log with a read and a write cursor. cmds is the log's meaning. */
  class RecordRW {
    var rec: Record?
    var read: Offset
    var write: Offset
    ghost var cmds: seq<Bytes>

    ghost var Repr: set<object>

    ghost predicate Valid()
      reads this, Repr
      ensures Valid() ==> this in Repr
    {
      && this in Repr
      && AllFree(NUL, cmds)
      && read.commandCount <= |cmds| && read == At(cmds, read.commandCount)
      && write == At(cmds, |cmds|)
      && (rec == null ==> cmds == [])
      && (rec != null ==>
            && rec in Repr && rec.buf in Repr
            && rec.Valid() && rec.Contents() == Join(NUL, cmds))
    }

    /** The log as the protocol sees it: absent until a record is allocated. */
    ghost function View(): Option<seq<Bytes>>
      reads this
    {
      if rec == null then None else Some(cmds)
    }

    constructor ()
      ensures Valid() && Repr == {this} && rec == null && cmds == [] && read == write == ORIGIN
    {
      rec, read, write, cmds, Repr := null, ORIGIN, ORIGIN, [], {this};
    }

    constructor WithRecord()
      ensures Valid() && rec != null && cmds == [] && read == ORIGIN
      ensures Repr == {this, rec, rec.buf} && fresh(rec) && fresh(rec.buf)
    {
      rec := new Record();
      read, write, cmds := ORIGIN, ORIGIN, [];
      new;
      Repr := {this, rec, rec.buf};
    }

    method Allocate()
      requires Valid() && rec == null
      modifies this
      ensures Valid() && fresh(Repr - old(Repr)) && rec != null
      ensures cmds == [] && read == old(read) && write == old(write)
    {
      rec := new Record();
      Repr := Repr + {rec, rec.buf};
      assert Join(NUL, cmds) == [];
    }

    /** record_append at this log's own write cursor. */
    method Append(input: Bytes)
      requires Valid() && rec != null && Free(NUL, input) && |input| + 1 <= ALLOC_MIN
      requires write.byteCount + |input| + 1 < BYTE_LIMIT
      modifies Repr
      ensures Valid() && fresh(Repr - old(Repr)) && rec == old(rec)
      ensures cmds == old(cmds) + [input] && read == old(read)
      ensures write.byteCount == old(write.byteCount) + |input| + 1
    {
      hide Join, Doubled;
      assert cmds[..|cmds|] == cmds;
      DoubledAtLeast(rec.buf.Length);
      var next := rec.Append(input, write);
      JoinSnoc(cmds, input);
      assert (cmds + [input])[..|cmds| + 1] == cmds + [input];
      cmds, write, Repr := cmds + [input], next, Repr + {rec.buf};
    }

    /** record_read at this log's own read cursor. */
    method Next() returns (cmd: Option<Bytes>)
      requires Valid() && rec != null
      modifies this`read
      ensures Valid()
      ensures cmd == if old(read).commandCount < |cmds| then Some(cmds[old(read).commandCount]) else None
      ensures read.commandCount == old(read).commandCount + if cmd == None then 0 else 1
    {
      hide Join, Doubled, ReadAt;
      ReadLog(cmds, read.commandCount);
      var c, next := rec.Read(read);
      cmd, read := c, next;
    }

    /** The restart loop of main: read = {0}. */
    method Rewind()
      requires Valid()
      modifies this`read
      ensures Valid() && read == ORIGIN
    {
      read := ORIGIN;
      assert cmds[..0] == [];
    }
  }
}
