/** input.c: the newline splitter over a sliding 4096-byte buffer, read as a C string. */
module Input {
  import opened Bytes
  import Memory

  const SIZE := 4096
  const BUF_LEN := SIZE - 1

  /** buf and used_buf. */
  datatype State = State(bytes: Bytes, used: int)

  predicate Buffer(b: Bytes) { |b| == SIZE && b[BUF_LEN] == NUL }

  /** What strchr sees of the buffer: it knows nothing of used_buf. */
  function CStr(b: Bytes): Bytes { b[..Find(NUL, b)] }

  /** The buffer once its first line of k - 1 bytes is gone: memmove brings the rest down and
      leaves the last k bytes as they were. */
  function Shifted(b: Bytes, k: nat): Bytes
    requires Buffer(b) && 0 < k <= BUF_LEN
  {
    b[k..] + b[k - 1 := NUL][SIZE - k..]
  }

  lemma ShiftedCStr(b: Bytes, k: nat)
    requires Buffer(b) && 0 < k <= |CStr(b)|
    ensures Buffer(Shifted(b, k)) && CStr(Shifted(b, k)) == CStr(b)[k..]
  {
    var z, c := Find(NUL, b), Shifted(b, k);
    assert z <= BUF_LEN;
    assert forall i :: 0 <= i < SIZE - k ==> c[i] == b[k + i];
    assert c[BUF_LEN] == b[BUF_LEN];
    assert c[z - k] == NUL && forall i :: 0 <= i < z - k ==> c[i] != NUL;
    assert Find(NUL, c) == z - k;
  }

  /** The buffer that the while loop leaves behind. */
  function Settled(b: Bytes): Bytes
    requires Buffer(b)
    decreases |CStr(b)|
  {
    var i := Find(NEWLINE, CStr(b));
    if i == |CStr(b)| then b else
      ShiftedCStr(b, i + 1);
      Settled(Shifted(b, i + 1))
  }

  function Tail(s: State): Bytes
    requires 0 <= s.used <= |s.bytes|
  {
    s.bytes[..s.used]
  }

  /** What read can deliver: chunk fits behind the bytes in use. */
  predicate Takes(s: State, chunk: Bytes) {
    Buffer(s.bytes) && 0 <= s.used && s.used + |chunk| <= BUF_LEN
  }

  function Loaded(s: State, chunk: Bytes): (b: Bytes)
    requires Takes(s, chunk)
    ensures Buffer(b) && b[..s.used + |chunk|] == Tail(s) + chunk
    ensures b[s.used + |chunk|..] == s.bytes[s.used + |chunk|..]
  {
    Tail(s) + chunk + s.bytes[s.used + |chunk|..]
  }

  /** What the handler is called with. */
  function Handled(s: State, chunk: Bytes): seq<Bytes>
    requires Takes(s, chunk)
  {
    Lines(NEWLINE, CStr(Loaded(s, chunk)))
  }

  /** A full buffer without a newline is dropped. */
  function Dropped(used: int): int { if used == BUF_LEN then 0 else used }

  function Polled(s: State, chunk: Bytes): State
    requires Takes(s, chunk)
  {
    State(Settled(Loaded(s, chunk)), Dropped(s.used + |chunk| - |Join(NEWLINE, Handled(s, chunk))|))
  }

  class Splitter {
    const buf: array<byte>
    var used: int

    ghost predicate Valid()
      reads this, buf
    {
      Buffer(buf[..])
    }

    ghost function Now(): State
      reads this, buf
    {
      State(buf[..], used)
    }

    /** The static buffer, and input_init. */
    constructor ()
      ensures Valid() && fresh(buf) && Now() == Fresh()
    {
      buf := new byte[SIZE](_ => NUL);
      used := 0;
      new;
      AllZeros(buf[..]);
    }

    /** The loop body of input_poll, for a newline at i. */
    method TakeLine(i: nat) returns (line: Bytes)
      requires Valid() && i == Find(NEWLINE, CStr(buf[..])) < |CStr(buf[..])|
      modifies this, buf
      ensures Valid() && line == old(CStr(buf[..]))[..i]
      ensures Now() == State(Shifted(old(buf[..]), i + 1), old(used) - (i + 1))
    {
      ghost var was := buf[..];
      ShiftedCStr(was, i + 1);
      FirstLine(was, i);
      hide Find, CStr, Shifted, Buffer;
      line := buf[..i];
      assert line == was[..i];
      ShiftDown(i);
      used := used - (i + 1);
    }

    /** *end = 0, and the memmove. */
    method ShiftDown(i: nat)
      requires Valid() && i < BUF_LEN
      modifies buf
      ensures buf[..] == Shifted(old(buf[..]), i + 1)
    {
      ghost var was := buf[..];
      hide Shifted;
      buf[i] := NUL;
      ghost var k, marked := i + 1, buf[..];
      assert marked == was[i := NUL];
      assert buf[k..k + (SIZE - k)] == marked[k..] && buf[SIZE - k..] == marked[SIZE - k..];
      hide Buffer;
      Memory.MoveDown(buf, i + 1, SIZE - (i + 1));
      AfterMove(was, buf[..], k);
    }

    /** input_poll, when read delivers chunk. */
    method Poll(chunk: Bytes) returns (lines: seq<Bytes>)
      requires Valid() && Takes(Now(), chunk)
      modifies this, buf
      ensures Valid() && Now() == Polled(old(Now()), chunk) && lines == Handled(old(Now()), chunk)
    {
      Load(chunk);
      lines := Drain();
      if used == BUF_LEN {
        used := 0;
      }
    }

    method Drain() returns (lines: seq<Bytes>)
      requires Valid()
      modifies this, buf
      ensures Valid() && lines == Lines(NEWLINE, CStr(old(buf[..])))
      ensures Now() == State(Settled(old(buf[..])), old(used) - |Join(NEWLINE, lines)|)
    {
      lines := [];
      hide Buffer, Shifted, Settled, Find, Join, CStr, Lines;
      assert lines + Lines(NEWLINE, CStr(buf[..])) == Lines(NEWLINE, CStr(buf[..]));
      JoinNone();
      while Find(NEWLINE, CStr(buf[..])) < |CStr(buf[..])|
        invariant Valid() && Settled(buf[..]) == Settled(old(buf[..]))
        invariant lines + Lines(NEWLINE, CStr(buf[..])) == Lines(NEWLINE, CStr(old(buf[..])))
        invariant used == old(used) - |Join(NEWLINE, lines)|
        decreases |CStr(buf[..])|
      {
        LoopStep(buf[..], lines);
        var line := TakeLine(Find(NEWLINE, CStr(buf[..])));
        lines := lines + [line];
      }
      LoopEnd(buf[..]);
    }

    method Load(chunk: Bytes)
      requires Valid() && Takes(Now(), chunk)
      modifies this, buf
      ensures Valid() && Now() == State(Loaded(old(Now()), chunk), old(used) + |chunk|)
    {
      Memory.Copy(buf, used, chunk);
      used := used + |chunk|;
      assert buf[..] == buf[..old(used)] + buf[old(used)..used] + buf[used..];
    }

    /** input_shutdown */
    method Shutdown()
      modifies this`used
      ensures Now() == old(Now()).(used := 0)
    {
      used := 0;
    }
  }

  function Zeros(n: nat): (z: Bytes)
    ensures |z| == n && forall i :: 0 <= i < n ==> z[i] == NUL
  {
    seq(n, _ => NUL)
  }

  lemma FirstLine(b: Bytes, i: nat)
    requires Buffer(b) && i <= |CStr(b)|
    ensures |CStr(b)| <= BUF_LEN && CStr(b)[..i] == b[..i]
  {
  }

  lemma AfterMove(was: Bytes, now: Bytes, k: nat)
    requires Buffer(was) && 0 < k <= BUF_LEN && |now| == SIZE
    requires now[..SIZE - k] == was[k - 1 := NUL][k..] && now[SIZE - k..] == was[k - 1 := NUL][SIZE - k..]
    ensures now == Shifted(was, k)
  {
    assert was[k - 1 := NUL][k..] == was[k..];
    assert now == now[..SIZE - k] + now[SIZE - k..];
  }

  lemma AllZeros(b: Bytes)
    requires forall i :: 0 <= i < |b| ==> b[i] == NUL
    ensures b == Zeros(|b|)
  {
  }

  function Fresh(): State { State(Zeros(SIZE), 0) }

  lemma LoopStep(b: Bytes, lines: seq<Bytes>)
    requires Buffer(b) && Find(NEWLINE, CStr(b)) < |CStr(b)|
    ensures var i := Find(NEWLINE, CStr(b));
            var c, line := Shifted(b, i + 1), CStr(b)[..i];
            && Buffer(c) && Settled(c) == Settled(b) && |CStr(c)| < |CStr(b)|
            && lines + [line] + Lines(NEWLINE, CStr(c)) == lines + Lines(NEWLINE, CStr(b))
            && |Join(NEWLINE, lines + [line])| == |Join(NEWLINE, lines)| + i + 1
  {
    var i := Find(NEWLINE, CStr(b));
    ShiftedCStr(b, i + 1);
    var line := CStr(b)[..i];
    assert Lines(NEWLINE, CStr(b)) == [line] + Lines(NEWLINE, CStr(Shifted(b, i + 1)));
    JoinAppend(NEWLINE, lines, [line]);
    JoinOne(NEWLINE, line);
    hide *;
    Assoc(lines, [line], Lines(NEWLINE, CStr(Shifted(b, i + 1))));
  }

  lemma JoinNone()
    ensures Join(NEWLINE, []) == []
  {
  }

  lemma LoopEnd(b: Bytes)
    requires Buffer(b) && Find(NEWLINE, CStr(b)) == |CStr(b)|
    ensures Settled(b) == b && Lines(NEWLINE, CStr(b)) == []
  {
  }

  // ---- when the handler receives the lines of what was read

  /** Between polls the buffer holds an unfinished line. */
  ghost predicate Good(s: State) {
    Buffer(s.bytes) && 0 <= s.used < BUF_LEN && Free(NUL, Tail(s)) && Free(NEWLINE, Tail(s))
  }

  ghost predicate Clean(s: State) { Free(NEWLINE, s.bytes) }

  /** The bytes of a C string that begins with d. */
  lemma Beyond(b: Bytes, n: nat)
    requires Buffer(b) && n <= BUF_LEN && Free(NUL, b[..n])
    ensures n <= |CStr(b)| <= BUF_LEN && CStr(b)[..n] == b[..n]
    ensures forall i :: n <= i < |CStr(b)| ==> CStr(b)[i] == b[i]
  {
    assert forall i :: 0 <= i < n ==> b[i] == b[..n][i];
  }

  /** One poll is right exactly when no newline is left over between what is in use and the
      NUL that ends the string. */
  lemma PollExact(s: State, chunk: Bytes)
    requires Good(s) && Takes(s, chunk) && Free(NUL, chunk)
    ensures var d, c := Tail(s) + chunk, CStr(Loaded(s, chunk));
            |d| <= |c| && (Handled(s, chunk) == Lines(NEWLINE, d) <==> Free(NEWLINE, c[|d|..]))
  {
    var d, b := Tail(s) + chunk, Loaded(s, chunk);
    Beyond(b, |d|);
    var c := CStr(b);
    hide *;
    JunkLines(d, c);
  }

  /** And used_buf stays above zero under the same condition: with a newline left over, the
      next read would begin before the buffer. */
  lemma UsedExact(s: State, chunk: Bytes)
    requires Good(s) && Takes(s, chunk) && Free(NUL, chunk)
    ensures var d, c := Tail(s) + chunk, CStr(Loaded(s, chunk));
            |d| <= |c| && (Polled(s, chunk).used >= 0 <==> Free(NEWLINE, c[|d|..]))
  {
    LoadedStart(s, chunk);
    UsedIs(s, chunk);
    hide *;
    var d, c := Tail(s) + chunk, CStr(Loaded(s, chunk));
    JunkLines(d, c);
    JunkUsed(d, c);
    LinesJoin(NEWLINE, c);
    LinesJoin(NEWLINE, d);
    DroppedSign(|d| - |Join(NEWLINE, Lines(NEWLINE, c))|);
  }

  lemma LoadedStart(s: State, chunk: Bytes)
    requires Good(s) && Takes(s, chunk) && Free(NUL, chunk)
    ensures var d, c := Tail(s) + chunk, CStr(Loaded(s, chunk)); |d| <= |c| && c[..|d|] == d
  {
    hide Loaded, CStr, Find;
    FreeConcat(NUL, Tail(s), chunk);
    Beyond(Loaded(s, chunk), s.used + |chunk|);
  }

  lemma UsedIs(s: State, chunk: Bytes)
    requires Takes(s, chunk)
    ensures Polled(s, chunk).used
         == Dropped(|Tail(s) + chunk| - |Join(NEWLINE, Lines(NEWLINE, CStr(Loaded(s, chunk))))|)
  {
    hide Lines, Join, CStr, Loaded, Find, Settled;
  }

  lemma DroppedSign(used: int)
    ensures Dropped(used) >= 0 <==> used >= 0
  {
  }

  /** With a newline in what follows d, the last line ends there. */
  lemma JunkUsed(d: Bytes, c: Bytes)
    requires |d| <= |c| && c[..|d|] == d
    ensures !Free(NEWLINE, c[|d|..]) ==> |Rest(NEWLINE, c)| < |c| - |d|
  {
    hide Lines, Rest, Find;
    var junk := c[|d|..];
    assert c == d + junk;
    var r := Rest(NEWLINE, d);
    LinesAppend(NEWLINE, d, junk);
    LinesJoin(NEWLINE, d);
    if !Free(NEWLINE, junk) {
      RestInJunk(r, junk);
    }
  }

  lemma RestInJunk(r: Bytes, junk: Bytes)
    requires Free(NEWLINE, r) && !Free(NEWLINE, junk)
    ensures |Rest(NEWLINE, r + junk)| < |junk|
  {
    hide Lines, Rest, Find;
    FreeConcat(NEWLINE, r, junk);
    var l, t := Cut(NEWLINE, r + junk);
    LinesCons(NEWLINE, l, t);
    RestShorter(t);
    assert forall i :: 0 <= i < |r| ==> (r + junk)[i] == r[i];
    assert (r + junk)[|l|] == NEWLINE;
  }

  lemma JunkLines(d: Bytes, c: Bytes)
    requires |d| <= |c| && c[..|d|] == d
    ensures Lines(NEWLINE, c) == Lines(NEWLINE, d) <==> Free(NEWLINE, c[|d|..])
    ensures Free(NEWLINE, c[|d|..]) ==> Rest(NEWLINE, c) == Rest(NEWLINE, d) + c[|d|..]
  {
    hide Lines, Rest, Find;
    var r, junk := Rest(NEWLINE, d), c[|d|..];
    assert c == d + junk;
    LinesAppend(NEWLINE, d, junk);
    LinesJoin(NEWLINE, d);
    if Free(NEWLINE, junk) {
      NoLines(NEWLINE, r + junk);
    } else {
      var i :| 0 <= i < |junk| && junk[i] == NEWLINE;
      assert (r + junk)[|r| + i] == NEWLINE;
      LinesOfNone(r + junk);
    }
  }

  lemma LinesOfNone(s: Bytes)
    ensures Lines(NEWLINE, s) == [] <==> Free(NEWLINE, s)
  {
  }

  const A: byte := 97

  /** Whatever is read next is handled right, exactly when the buffer holds no newline. */
  lemma EveryNextRead(s: State)
    requires Good(s)
    ensures Clean(s) <==> forall chunk :: Takes(s, chunk) && Free(NUL, chunk) ==>
                            Handled(s, chunk) == Lines(NEWLINE, Tail(s) + chunk)
  {
    if Clean(s) {
      forall chunk | Takes(s, chunk) && Free(NUL, chunk)
        ensures Handled(s, chunk) == Lines(NEWLINE, Tail(s) + chunk)
      {
        CleanPoll(s, chunk);
      }
    } else {
      var chunk := Revealing(s);
    }
  }

  lemma CleanPoll(s: State, chunk: Bytes)
    requires Good(s) && Takes(s, chunk) && Free(NUL, chunk)
    requires Free(NEWLINE, s.bytes[s.used + |chunk|..])
    ensures Handled(s, chunk) == Lines(NEWLINE, Tail(s) + chunk)
    ensures var n := s.used + |chunk|; n <= |CStr(Loaded(s, chunk))| && Free(NEWLINE, CStr(Loaded(s, chunk))[n..])
  {
    var d, b := Tail(s) + chunk, Loaded(s, chunk);
    PollExact(s, chunk);
    Beyond(b, |d|);
    hide Handled, Lines, Find, Loaded, CStr, Takes, Buffer;
    BeyondFree(b, CStr(b), |d|);
  }

  lemma BeyondFree(b: Bytes, c: Bytes, n: nat)
    requires n <= |c| <= |b| && Free(NEWLINE, b[n..])
    requires forall i :: n <= i < |c| ==> c[i] == b[i]
    ensures Free(NEWLINE, c[n..])
  {
    forall i | 0 <= i < |c| - n
      ensures c[n..][i] != NEWLINE
    {
      assert c[n + i] == b[n + i] == b[n..][i];
    }
  }

  /** A read that a newline left in the buffer spoils. */
  lemma Revealing(s: State) returns (chunk: Bytes)
    requires Good(s) && !Clean(s)
    ensures Takes(s, chunk) && Free(NUL, chunk) && Free(NEWLINE, chunk)
    ensures Handled(s, chunk) != Lines(NEWLINE, Tail(s) + chunk)
  {
    var q :| 0 <= q < SIZE && s.bytes[q] == NEWLINE;
    assert forall i :: 0 <= i < s.used ==> s.bytes[i] == Tail(s)[i];
    chunk := seq(q - s.used, _ => A);
    hide Handled, Lines, Loaded, Find;
    Reveals(s, chunk);
  }

  lemma Reveals(s: State, chunk: Bytes)
    requires Good(s) && Takes(s, chunk) && Free(NUL, chunk)
    requires s.used + |chunk| < BUF_LEN && s.bytes[s.used + |chunk|] == NEWLINE
    ensures Handled(s, chunk) != Lines(NEWLINE, Tail(s) + chunk)
  {
    hide Handled, Lines, Find, CStr;
    var d, b := Tail(s) + chunk, Loaded(s, chunk);
    PollExact(s, chunk);
    FreeConcat(NUL, Tail(s), chunk);
    assert b[|d|] == b[|d|..][0] == s.bytes[|d|..][0];
    hide Loaded, Tail, Free;
    NewlineAfter(b, d);
    assert !Free(NEWLINE, CStr(b)[|d|..]) by { NotFree(CStr(b)[|d|..]); }
  }

  lemma NotFree(s: Bytes)
    requires s != [] && s[0] == NEWLINE
    ensures !Free(NEWLINE, s)
  {
  }

  lemma NewlineAfter(b: Bytes, d: Bytes)
    requires Buffer(b) && Free(NUL, d) && |d| < BUF_LEN && b[..|d|] == d && b[|d|] == NEWLINE
    ensures |d| < |CStr(b)| && CStr(b)[|d|..][0] == NEWLINE
  {
    assert b[..|d| + 1] == d + [NEWLINE];
    Beyond(b, |d| + 1);
  }

  // ---- when the buffer stays free of newlines

  /** Where the line of k - 1 bytes that leaves next ends, or where the shift stops moving
      bytes, if that is later: what follows stays where it is. */
  function Stays(k: nat): nat
    requires k <= SIZE
  {
    Max(k, SIZE - k)
  }

  /** Each line of d leaves before the shift can leave a copy of a later newline behind. */
  predicate Shiftable(d: Bytes)
    requires |d| <= BUF_LEN
    decreases |d|
  {
    var i := Find(NEWLINE, d);
    i == |d| || (Free(NEWLINE, d[Min(|d|, Stays(i + 1))..]) && Shiftable(d[i + 1..]))
  }

  /** The loop, when it is right: what it leaves in use is the unfinished line, and it leaves
      no newline behind exactly when there was none and the lines were shiftable. */
  lemma {:induction false} SettledTail(b: Bytes, n: nat)
    requires Buffer(b) && n <= BUF_LEN && Free(NUL, b[..n])
    requires n <= |CStr(b)| && Free(NEWLINE, CStr(b)[n..])
    ensures var r := Rest(NEWLINE, b[..n]);
            && |r| <= n && Buffer(Settled(b)) && Settled(b)[..|r|] == r
            && (Free(NEWLINE, Settled(b)[|r|..]) <==> Free(NEWLINE, b[n..]) && Shiftable(b[..n]))
    decreases n
  {
    hide Shiftable, Settled, Rest, CStr, Shifted, Stays, Min;
    var d := b[..n];
    SameNewline(b, n);
    RestShorter(d);
    NoLinesIfFree(d);
    UnfoldSettled(b);
    UnfoldShiftable(d);
    if Find(NEWLINE, d) < n {
      var k := Find(NEWLINE, d) + 1;
      RestAfter(d, k - 1);
      ShiftedCStr(b, k);
      var c := Shifted(b, k);
      ShiftedStart(b, n, k);
      SuffixOfSuffix(CStr(b), k, n);
      ShiftLeaves(b, n, k);
      hide Find, Free;
      SettledTail(c, n - k);
    }
  }

  lemma ShiftedStart(b: Bytes, n: nat, k: nat)
    requires Buffer(b) && 0 < k <= n <= BUF_LEN && Free(NUL, b[..n])
    ensures |Shifted(b, k)| == SIZE && Shifted(b, k)[..n - k] == b[..n][k..]
    ensures Free(NUL, Shifted(b, k)[..n - k])
  {
    assert Shifted(b, k)[..n - k] == b[..n][k..];
  }

  /** Settled and Shiftable, one line at a time. */
  lemma UnfoldSettled(b: Bytes)
    requires Buffer(b)
    ensures var i := Find(NEWLINE, CStr(b));
            if i == |CStr(b)| then Settled(b) == b
            else 0 < i + 1 <= BUF_LEN && Buffer(Shifted(b, i + 1)) && Settled(b) == Settled(Shifted(b, i + 1))
  {
    hide Shifted, Rest, Shiftable, Lines;
    var i := Find(NEWLINE, CStr(b));
    if i < |CStr(b)| {
      ShiftedCStr(b, i + 1);
    }
  }

  lemma UnfoldShiftable(d: Bytes)
    requires |d| <= BUF_LEN
    ensures var i := Find(NEWLINE, d);
            Shiftable(d) <==> i == |d| || (Free(NEWLINE, d[Min(|d|, Stays(i + 1))..]) && Shiftable(d[i + 1..]))
  {
    hide Find, Free, Stays, Min;
  }

  lemma NoLinesIfFree(d: Bytes)
    ensures Find(NEWLINE, d) == |d| ==> Rest(NEWLINE, d) == d
  {
    hide Rest;
    if Find(NEWLINE, d) == |d| {
      NoLines(NEWLINE, d);
    }
  }

  lemma RestAfter(d: Bytes, i: nat)
    requires i == Find(NEWLINE, d) < |d|
    ensures Rest(NEWLINE, d) == Rest(NEWLINE, d[i + 1..])
  {
    var l, t := d[..i], d[i + 1..];
    assert Free(NEWLINE, l) && d[i] == NEWLINE;
    hide *;
    AroundOne(d, i);
    LinesCons(NEWLINE, l, t);
  }

  lemma AroundOne(s: Bytes, i: nat)
    requires i < |s|
    ensures s == s[..i] + [s[i]] + s[i + 1..]
  {
  }

  lemma RestShorter(d: Bytes)
    ensures |Rest(NEWLINE, d)| <= |d|
  {
  }

  lemma SameNewline(b: Bytes, n: nat)
    requires Buffer(b) && n <= BUF_LEN && Free(NUL, b[..n])
    requires n <= |CStr(b)| && Free(NEWLINE, CStr(b)[n..])
    ensures var i := Find(NEWLINE, b[..n]);
            Find(NEWLINE, CStr(b)) == if i == n then |CStr(b)| else i
  {
    var i, c, d := Find(NEWLINE, b[..n]), CStr(b), b[..n];
    assert forall l :: 0 <= l < n ==> c[l] == d[l];
    assert forall l :: n <= l < |c| ==> c[l] == c[n..][l - n];
    hide Find, CStr;
    FindIs(NEWLINE, c, if i == n then |c| else i);
  }

  lemma SuffixOfSuffix(s: Bytes, k: nat, n: nat)
    requires k <= n <= |s|
    ensures s[k..][n - k..] == s[n..]
  {
  }

  lemma FindIs(d: byte, s: Bytes, i: nat)
    requires i <= |s| && (i < |s| ==> s[i] == d) && forall j :: 0 <= j < i ==> s[j] != d
    ensures Find(d, s) == i
  {
    hide Find;
  }

  /** One shift, byte by byte. */
  lemma ShiftLeaves(b: Bytes, n: nat, k: nat)
    requires Buffer(b) && 0 < k <= n <= BUF_LEN && k == Find(NEWLINE, b[..n]) + 1
    ensures Free(NEWLINE, Shifted(b, k)[n - k..])
       <==> Free(NEWLINE, b[n..]) && Free(NEWLINE, b[..n][Min(n, Stays(k))..])
  {
    var copy, m := b[k - 1 := NUL][SIZE - k..], Min(n, Stays(k));
    var front := b[..n];
    assert forall i :: 0 <= i < k - 1 ==> b[i] == front[i];
    assert b[k..][n - k..] == b[n..];
    assert Shifted(b, k)[n - k..] == b[n..] + copy;
    FreeConcat(NEWLINE, b[n..], copy);
    hide Find, Shifted, Buffer, Stays, Min;
    if Free(NEWLINE, b[n..]) {
      CopyFree(b, n, k);
    }
  }

  lemma CopyFree(b: Bytes, n: nat, k: nat)
    requires |b| == SIZE && 0 < k <= n <= BUF_LEN && Free(NEWLINE, b[n..])
    requires forall i :: 0 <= i < k - 1 ==> b[i] != NEWLINE
    ensures Free(NEWLINE, b[k - 1 := NUL][SIZE - k..]) <==> Free(NEWLINE, b[..n][Min(n, Stays(k))..])
  {
    var copy, m := b[k - 1 := NUL][SIZE - k..], Min(n, Stays(k));
    var stay := b[..n][m..];
    assert SIZE - k <= m || m == n;
    forall i | 0 <= i < |copy|
      ensures copy[i] == if SIZE - k + i == k - 1 then NUL else b[SIZE - k + i]
    {
      CopyAt(b, k, i);
    }
    assert forall i :: 0 <= i < |stay| ==> stay[i] == b[m + i];
    if Free(NEWLINE, stay) {
      forall i | 0 <= i < |copy|
        ensures copy[i] != NEWLINE
      {
        var l := SIZE - k + i;
        if n <= l {
          assert b[l] == b[n..][l - n];
        } else if k <= l {
          assert b[l] == stay[l - m];
        }
      }
    }
    if Free(NEWLINE, copy) {
      forall i | 0 <= i < |stay|
        ensures stay[i] != NEWLINE
      {
        assert copy[m + i - (SIZE - k)] == b[m + i];
      }
    }
  }

  lemma CopyAt(b: Bytes, k: nat, i: nat)
    requires |b| == SIZE && 0 < k <= BUF_LEN && i < k
    ensures b[k - 1 := NUL][SIZE - k..][i] == if SIZE - k + i == k - 1 then NUL else b[SIZE - k + i]
  {
  }

  /** The bytes in use after a poll of d. */
  function Carry(d: Bytes): Bytes {
    if |Rest(NEWLINE, d)| == BUF_LEN then [] else Rest(NEWLINE, d)
  }

  /** From a clean buffer, a poll hands out the lines of the unfinished line and the new
      bytes, keeps what they leave unfinished, and keeps the buffer clean exactly when the
      lines were shiftable. */
  lemma PollKeeps(s: State, chunk: Bytes)
    requires Good(s) && Clean(s) && Takes(s, chunk) && Free(NUL, chunk)
    ensures var d, t := Tail(s) + chunk, Polled(s, chunk);
            && Handled(s, chunk) == Lines(NEWLINE, d)
            && Good(t) && Tail(t) == Carry(d)
            && (Clean(t) <==> Shiftable(d))
  {
    var d, b := Tail(s) + chunk, Loaded(s, chunk);
    CleanPoll(s, chunk);
    FreeConcat(NUL, Tail(s), chunk);
    Beyond(b, |d|);
    SettledPieces(b, |d|);
    CleanBeyond(s, b, |d|);
    hide *;
    CarryClean(s, chunk, d, Settled(b));
  }

  lemma CleanBeyond(s: State, b: Bytes, n: nat)
    requires Clean(s) && n <= |b| == |s.bytes| && b[n..] == s.bytes[n..]
    ensures Free(NEWLINE, b[n..])
  {
  }

  lemma CarryClean(s: State, chunk: Bytes, d: Bytes, z: Bytes)
    requires Takes(s, chunk) && z == Settled(Loaded(s, chunk)) && |d| == s.used + |chunk|
    requires Handled(s, chunk) == Lines(NEWLINE, d)
    requires var r := Rest(NEWLINE, d);
             && |d| == |Join(NEWLINE, Lines(NEWLINE, d))| + |r|
             && Free(NUL, r) && Free(NEWLINE, r) && |r| <= |d| && Buffer(z) && z[..|r|] == r
    ensures var r, t := Rest(NEWLINE, d), Polled(s, chunk);
            && Good(t) && Tail(t) == Carry(d)
            && (Clean(t) <==> Free(NEWLINE, z[|r|..]))
  {
    hide Handled, Rest, Lines, Join, Loaded, Settled, Takes;
    var r := Rest(NEWLINE, d);
    assert z == r + z[|r|..];
    assert Free(NUL, []) && Free(NEWLINE, []) && z[..0] == [];
    hide Free;
    FreeConcat(NEWLINE, r, z[|r|..]);
  }

  /** The unfinished line of the first n bytes, and the rest of them, after the loop. */
  lemma SettledPieces(b: Bytes, n: nat)
    requires Buffer(b) && n <= BUF_LEN && Free(NUL, b[..n])
    requires n <= |CStr(b)| && Free(NEWLINE, CStr(b)[n..])
    ensures var d := b[..n]; var r, z := Rest(NEWLINE, d), Settled(b);
            && n == |Join(NEWLINE, Lines(NEWLINE, d))| + |r|
            && Free(NUL, r) && Free(NEWLINE, r) && Buffer(z) && z[..|r|] == r
            && (Free(NEWLINE, z[|r|..]) <==> Free(NEWLINE, b[n..]) && Shiftable(d))
  {
    hide Settled, Shiftable, Lines, Rest, Join, Find, CStr, Free;
    LinesJoin(NEWLINE, b[..n]);
    RestFreeOfNul(b[..n]);
    SettledTail(b, n);
  }

  lemma FreeConcat(d: byte, a: Bytes, b: Bytes)
    ensures Free(d, a + b) <==> Free(d, a) && Free(d, b)
  {
    if Free(d, a + b) {
      forall i | 0 <= i < |a| ensures a[i] != d { assert a[i] == (a + b)[i]; }
      forall i | 0 <= i < |b| ensures b[i] != d { assert b[i] == (a + b)[|a| + i]; }
    }
  }

  lemma RestFreeOfNul(d: Bytes)
    requires Free(NUL, d)
    ensures Free(NUL, Rest(NEWLINE, d)) && forall i :: 0 <= i < |Lines(NEWLINE, d)| ==> Free(NUL, Lines(NEWLINE, d)[i])
  {
  }

  /** Up to 2048 bytes, and any one line that ends the input (which is what a terminal
      delivers), are shiftable. */
  lemma {:induction false} Shifts(d: Bytes)
    requires |d| <= BUF_LEN && (|d| <= 2048 || |Lines(NEWLINE, d)| <= 1)
    ensures Shiftable(d)
    decreases |d|
  {
    var i := Find(NEWLINE, d);
    if i < |d| {
      var t := d[i + 1..];
      if |d| > SIZE / 2 {
        LinesOfNone(t);
        var m := Min(|d|, Stays(i + 1));
        assert d[m..] == t[m - (i + 1)..];
      }
      Shifts(t);
    }
  }

  /** 2047 bytes, a newline, and an empty line. */
  function TooMany(): Bytes { seq(2047, _ => A) + [NEWLINE, NEWLINE] }

  /** The bound is tight: at 2049 bytes a newline can stay behind, and then some later input
      is cut where it has no newline. */
  lemma BoundIsTight(s: State) returns (chunk: Bytes)
    requires Good(s) && Clean(s) && s.used == 0
    ensures |TooMany()| == SIZE / 2 + 1 && Takes(s, TooMany())
    ensures var t := Polled(s, TooMany());
            && Handled(s, TooMany()) == Lines(NEWLINE, TooMany())
            && Good(t) && Takes(t, chunk) && Free(NUL, chunk) && Free(NEWLINE, chunk)
            && Handled(t, chunk) != Lines(NEWLINE, Tail(t) + chunk)
  {
    var d := TooMany();
    assert Tail(s) + d == d;
    NotShiftable();
    hide Shiftable, Handled, Lines, Polled, Clean, Good, TooMany;
    PollKeeps(s, d);
    chunk := Revealing(Polled(s, d));
  }

  lemma NotShiftable()
    ensures |TooMany()| == SIZE / 2 + 1 && Free(NUL, TooMany()) && !Shiftable(TooMany())
  {
    var d := TooMany();
    assert d[2047] == NEWLINE && forall i :: 0 <= i < 2047 ==> d[i] == A;
    assert Find(NEWLINE, d) == 2047;
    assert d[2048..][0] == NEWLINE && Min(|d|, Stays(2048)) == 2048;
  }

  // ---- whole sessions

  /** A poll that read something, or the end of a run of the simulation: input_shutdown forgets
      the unfinished line but leaves the bytes where they are. */
  datatype Event = Read(chunk: Bytes) | Shutdown

  /** What was read in this run, without the long lines that were dropped. */
  function Stream(events: seq<Event>): Bytes {
    if events == [] then [] else
      match events[|events| - 1]
      case Shutdown => []
      case Read(chunk) =>
        var d := Stream(events[..|events| - 1]) + chunk;
        if |Rest(NEWLINE, d)| == BUF_LEN then Join(NEWLINE, Lines(NEWLINE, d)) else d
  }

  /** The bytes the splitter is about to cut. */
  function Pending(events: seq<Event>): Bytes { Rest(NEWLINE, Stream(events)) }

  /** NUL-free reads of what fits, each leaving a shiftable buffer. */
  predicate Reads(events: seq<Event>) {
    events == [] ||
    (var front := events[..|events| - 1];
     && Reads(front)
     && match events[|events| - 1]
        case Shutdown => true
        case Read(chunk) => && Free(NUL, chunk) && |Pending(front) + chunk| <= BUF_LEN
                            && Shiftable(Pending(front) + chunk))
  }

  lemma StreamStep(before: Bytes, chunk: Bytes)
    ensures var d := before + chunk; var r := Rest(NEWLINE, before) + chunk;
            var after := if |Rest(NEWLINE, d)| == BUF_LEN then Join(NEWLINE, Lines(NEWLINE, d)) else d;
            && Lines(NEWLINE, after) == Lines(NEWLINE, before) + Lines(NEWLINE, r)
            && Rest(NEWLINE, after) == Carry(r)
  {
    hide Lines, Rest, Join;
    var d := before + chunk;
    LinesAppend(NEWLINE, before, chunk);
    LinesJoin(NEWLINE, d);
    NoLines(NEWLINE, []);
    JoinLines(NEWLINE, Lines(NEWLINE, d), []);
    assert Join(NEWLINE, Lines(NEWLINE, d)) + [] == Join(NEWLINE, Lines(NEWLINE, d));
  }

  /** The splitter after a whole session: its buffer is clean and holds the unfinished line. */
  function After(events: seq<Event>): (s: State)
    requires Reads(events)
    ensures Good(s) && Clean(s) && Tail(s) == Pending(events)
  {
    if events == [] then Fresh() else
      var front := events[..|events| - 1];
      match events[|events| - 1]
      case Shutdown => After(front).(used := 0)
      case Read(chunk) =>
        PollKeeps(After(front), chunk);
        StreamStep(Stream(front), chunk);
        Polled(After(front), chunk)
  }

  /** The lines handed out in this run are the lines of what was read in it, however the
      reads were cut. */
  function HandledSince(events: seq<Event>): (lines: seq<Bytes>)
    requires Reads(events)
    ensures lines == Lines(NEWLINE, Stream(events))
  {
    if events == [] then [] else
      var front := events[..|events| - 1];
      match events[|events| - 1]
      case Shutdown => []
      case Read(chunk) =>
        PollKeeps(After(front), chunk);
        StreamStep(Stream(front), chunk);
        HandledSince(front) + Handled(After(front), chunk)
  }

  /** Every byte read in this run. */
  function ReadSince(events: seq<Event>): Bytes {
    if events == [] then [] else
      match events[|events| - 1]
      case Shutdown => []
      case Read(chunk) => ReadSince(events[..|events| - 1]) + chunk
  }

  /** As long as no line outgrows the buffer, nothing is dropped: the lines are those of all
      the bytes of the run. */
  lemma {:induction false} NothingDropped(events: seq<Event>)
    requires forall n :: 0 <= n <= |events| ==> |Rest(NEWLINE, ReadSince(events[..n]))| < BUF_LEN
    ensures Stream(events) == ReadSince(events)
  {
    if events != [] {
      var front := events[..|events| - 1];
      forall n | 0 <= n <= |front| ensures |Rest(NEWLINE, ReadSince(front[..n]))| < BUF_LEN {
        assert front[..n] == events[..n];
      }
      NothingDropped(front);
      assert events[..|events|] == events;
    }
  }

  lemma SplitterExact(events: seq<Event>)
    requires Reads(events)
    requires forall n :: 0 <= n <= |events| ==> |Rest(NEWLINE, ReadSince(events[..n]))| < BUF_LEN
    ensures HandledSince(events) == Lines(NEWLINE, ReadSince(events))
    ensures Tail(After(events)) == Rest(NEWLINE, ReadSince(events))
  {
    NothingDropped(events);
  }

  // ---- up to 2048 bytes, what follows the unfinished line is zero

  ghost predicate ZeroFrom(b: Bytes, n: nat) {
    forall i :: n <= i < |b| ==> b[i] == NUL
  }

  lemma ShiftedZero(b: Bytes, n: nat, k: nat)
    requires Buffer(b) && 0 < k <= n <= SIZE / 2 && ZeroFrom(b, n)
    ensures ZeroFrom(Shifted(b, k), n - k)
  {
    forall i | n - k <= i < SIZE
      ensures Shifted(b, k)[i] == NUL
    {
      assert Shifted(b, k)[i] == if i < SIZE - k then b[k + i] else b[k - 1 := NUL][i];
    }
  }

  lemma {:induction false} SettledZero(b: Bytes, n: nat)
    requires Buffer(b) && n <= SIZE / 2 && Free(NUL, b[..n]) && ZeroFrom(b, n)
    requires n <= |CStr(b)| && Free(NEWLINE, CStr(b)[n..])
    ensures |Rest(NEWLINE, b[..n])| <= n && ZeroFrom(Settled(b), |Rest(NEWLINE, b[..n])|)
    decreases n
  {
    hide Shiftable, Settled, Rest, CStr, Shifted, Stays, Min;
    var d := b[..n];
    SameNewline(b, n);
    RestShorter(d);
    NoLinesIfFree(d);
    UnfoldSettled(b);
    UnfoldShiftable(d);
    if Find(NEWLINE, d) < n {
      var k := Find(NEWLINE, d) + 1;
      RestAfter(d, k - 1);
      ShiftedCStr(b, k);
      ShiftedStart(b, n, k);
      SuffixOfSuffix(CStr(b), k, n);
      ShiftedZero(b, n, k);
      hide Find, Free;
      SettledZero(Shifted(b, k), n - k);
    }
  }

  /** Reads that never make it more than 2048 bytes, and no shutdown. */
  ghost predicate Small(events: seq<Event>) {
    events == [] ||
    (var front, last := events[..|events| - 1], events[|events| - 1];
     Small(front) && last.Read? && |Pending(front) + last.chunk| <= SIZE / 2)
  }

  /** The buffer is then the unfinished line followed by zeros. */
  lemma {:induction false} ZeroTail(events: seq<Event>)
    requires Reads(events) && Small(events)
    ensures ZeroFrom(After(events).bytes, After(events).used)
  {
    if events != [] {
      var front, chunk := events[..|events| - 1], events[|events| - 1].chunk;
      ZeroTail(front);
      var s := After(front);
      hide After, Reads, Small, Stream, Pending, Shiftable;
      ZeroPoll(s, chunk);
    }
  }

  lemma ZeroPoll(s: State, chunk: Bytes)
    requires Good(s) && Clean(s) && Takes(s, chunk) && Free(NUL, chunk) && s.used + |chunk| <= SIZE / 2
    requires ZeroFrom(s.bytes, s.used)
    ensures ZeroFrom(Polled(s, chunk).bytes, Max(Polled(s, chunk).used, 0))
  {
    var d := Tail(s) + chunk;
    PollKeeps(s, chunk);
    ZeroSettled(s, chunk);
    RestShorter(d);
    hide Settled, Loaded, Handled, Lines, Join, Rest, Find, Shiftable, Takes, Buffer, Free;
    assert |Tail(Polled(s, chunk))| == Polled(s, chunk).used;
  }

  lemma ZeroSettled(s: State, chunk: Bytes)
    requires Good(s) && Clean(s) && Takes(s, chunk) && Free(NUL, chunk) && s.used + |chunk| <= SIZE / 2
    requires ZeroFrom(s.bytes, s.used)
    ensures ZeroFrom(Settled(Loaded(s, chunk)), |Rest(NEWLINE, Tail(s) + chunk)|)
  {
    hide Settled, Rest, Find, CStr, Lines, Handled, Loaded, ZeroFrom;
    var n := s.used + |chunk|;
    LoadedFree(s, chunk);
    LoadedZero(s, chunk);
    CleanPoll(s, chunk);
    SettledZero(Loaded(s, chunk), n);
  }

  lemma LoadedFree(s: State, chunk: Bytes)
    requires Good(s) && Takes(s, chunk) && Free(NUL, chunk)
    ensures var n := s.used + |chunk|; Free(NUL, Loaded(s, chunk)[..n]) && n <= |CStr(Loaded(s, chunk))|
  {
    hide Loaded, Find, CStr;
    FreeConcat(NUL, Tail(s), chunk);
    Beyond(Loaded(s, chunk), s.used + |chunk|);
  }

  lemma LoadedZero(s: State, chunk: Bytes)
    requires Takes(s, chunk) && ZeroFrom(s.bytes, s.used)
    ensures ZeroFrom(Loaded(s, chunk), s.used + |chunk|)
  {
    hide Find;
    var n, b := s.used + |chunk|, Loaded(s, chunk);
    assert forall i :: n <= i < SIZE ==> b[i] == b[n..][i - n] == s.bytes[n..][i - n];
  }

  /** Every line handed out is one the console can log: no NUL, at most 4094 bytes. */
  lemma LinesFit(s: State, chunk: Bytes)
    requires Takes(s, chunk)
    ensures forall i :: 0 <= i < |Handled(s, chunk)| ==>
              Free(NUL, Handled(s, chunk)[i]) && |Handled(s, chunk)[i]| < BUF_LEN
  {
    var c := CStr(Loaded(s, chunk));
    RestFreeOfNul(c);
    ShortLines(c);
  }

  /** And lines of every length up to 4094 are handed over. */
  lemma LineHandled(s: State, line: Bytes)
    requires Good(s) && Clean(s) && s.used == 0
    requires |line| <= 4094 && (forall i :: 0 <= i < |line| ==> line[i] != 0 && line[i] != 10)
    ensures Takes(s, line + [10]) && Handled(s, line + [10]) == [line]
  {
    FreeConcat(NUL, line, [NEWLINE]);
    assert Tail(s) + (line + [NEWLINE]) == line + [NEWLINE] + [];
    CleanPoll(s, line + [NEWLINE]);
    NoLines(NEWLINE, []);
    LinesCons(NEWLINE, line, []);
  }

  lemma ShortLines(d: Bytes)
    ensures forall i :: 0 <= i < |Lines(NEWLINE, d)| ==> |Lines(NEWLINE, d)[i]| < |d|
  {
  }
}
