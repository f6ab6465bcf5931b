/** Bytes, and the one way this program cuts a byte stream into commands: at a
    delimiter, which is NUL on the wire and in the logs and newline on stdin. */
module Bytes {

  type byte = x: int | 0 <= x < 256
  type Bytes = seq<byte>

  const NUL: byte := 0
  const NEWLINE: byte := 10

  datatype Option<+T> = None | Some(value: T)

  function Max(a: int, b: int): int { if a > b then a else b }

  function Min(a: int, b: int): int { if a < b then a else b }

  /** No d among the bytes of s. */
  predicate Free(d: byte, s: Bytes) {
    forall i :: 0 <= i < |s| ==> s[i] != d
  }

  /** How many bytes of s come before the first d: C's strchr, and strlen when d is NUL. */
  function Find(d: byte, s: Bytes): (i: nat)
    ensures i <= |s| && (i < |s| ==> s[i] == d)
    ensures forall j :: 0 <= j < i ==> s[j] != d
  {
    if s == [] || s[0] == d then 0 else
      var i := Find(d, s[1..]);
      assert forall j :: 0 < j < i + 1 ==> s[j] == s[1..][j - 1];
      1 + i
  }

  /** The commands that s completes. */
  function Lines(d: byte, s: Bytes): seq<Bytes> {
    var i := Find(d, s);
    if i == |s| then [] else [s[..i]] + Lines(d, s[i + 1..])
  }

  /** What follows the last delimiter of s. */
  function Rest(d: byte, s: Bytes): Bytes {
    var i := Find(d, s);
    if i == |s| then s else Rest(d, s[i + 1..])
  }

  /** Each command followed by its delimiter: what the sender writes. */
  function Join(d: byte, cmds: seq<Bytes>): Bytes {
    if cmds == [] then [] else cmds[0] + [d] + Join(d, cmds[1..])
  }

  ghost predicate AllFree(d: byte, cmds: seq<Bytes>) {
    forall i :: 0 <= i < |cmds| ==> Free(d, cmds[i])
  }

  lemma Assoc<T>(a: seq<T>, b: seq<T>, c: seq<T>)
    ensures a + b + c == a + (b + c)
  {
  }

  lemma Uncons<T>(s: seq<T>, t: seq<T>)
    requires s != []
    ensures [s[0]] + (s[1..] + t) == s + t
  {
  }

  lemma TakeSnoc<T>(s: seq<T>, k: nat)
    requires k < |s|
    ensures s[..k + 1] == s[..k] + [s[k]]
  {
  }

  lemma FindAt(d: byte, l: Bytes, t: Bytes)
    requires Free(d, l)
    ensures Find(d, l + [d] + t) == |l|
  {
    assert (l + [d] + t)[|l|] == d;
  }

  lemma LinesCons(d: byte, l: Bytes, t: Bytes)
    requires Free(d, l)
    ensures Lines(d, l + [d] + t) == [l] + Lines(d, t)
    ensures Rest(d, l + [d] + t) == Rest(d, t)
  {
    var s := l + [d] + t;
    FindAt(d, l, t);
    assert s[..|l|] == l && s[|l| + 1..] == t;
  }

  /** Cutting the stream at an arbitrary point changes nothing: the commands of a
      are final, and what a leaves over is cut together with b. */
  lemma {:induction false} LinesAppend(d: byte, a: Bytes, b: Bytes)
    ensures Lines(d, a + b) == Lines(d, a) + Lines(d, Rest(d, a) + b)
    ensures Rest(d, a + b) == Rest(d, Rest(d, a) + b)
    decreases |a|
  {
    hide Lines, Rest, Find;
    if Free(d, a) {
      NoLines(d, a);
    } else {
      var l, t := Cut(d, a);
      assert a + b == l + [d] + (t + b);
      LinesCons(d, l, t + b);
      LinesCons(d, l, t);
      LinesAppend(d, t, b);
      Assoc([l], Lines(d, t), Lines(d, Rest(d, t) + b));
    }
  }

  /** The first command of s, and what follows it. */
  lemma Cut(d: byte, s: Bytes) returns (l: Bytes, t: Bytes)
    requires !Free(d, s)
    ensures s == l + [d] + t && Free(d, l) && |t| < |s|
  {
    var i := Find(d, s);
    l, t := s[..i], s[i + 1..];
  }

  /** One more byte: it joins the tail, or it completes a command. */
  lemma LinesSnoc(d: byte, a: Bytes, c: byte)
    ensures Lines(d, a + [c]) == if c == d then Lines(d, a) + [Rest(d, a)] else Lines(d, a)
    ensures Rest(d, a + [c]) == if c == d then [] else Rest(d, a) + [c]
  {
    hide Lines, Rest, Find;
    LinesAppend(d, a, [c]);
    LinesJoin(d, a);
    var r := Rest(d, a);
    if c == d {
      LinesCons(d, r, []);
      NoLines(d, []);
      assert r + [c] == r + [d] + [];
    } else {
      NoLines(d, r + [c]);
    }
  }

  lemma NoLines(d: byte, s: Bytes)
    requires Free(d, s)
    ensures Lines(d, s) == [] && Rest(d, s) == s
  {
  }

  /** Nothing is lost: the pieces, put back together, are the stream. */
  lemma {:induction false} LinesJoin(d: byte, s: Bytes)
    ensures s == Join(d, Lines(d, s)) + Rest(d, s)
    ensures AllFree(d, Lines(d, s)) && Free(d, Rest(d, s))
    decreases |s|
  {
    hide Lines, Rest, Find;
    if Free(d, s) {
      NoLines(d, s);
    } else {
      var l, t := Cut(d, s);
      LinesCons(d, l, t);
      LinesJoin(d, t);
      JoinCons(d, l, Lines(d, t));
      Assoc(l + [d], Join(d, Lines(d, t)), Rest(d, t));
    }
  }

  lemma JoinCons(d: byte, l: Bytes, cmds: seq<Bytes>)
    ensures Join(d, [l] + cmds) == l + [d] + Join(d, cmds)
  {
    assert ([l] + cmds)[1..] == cmds;
  }

  /** And the pieces are the only ones: cutting what was joined gives it back. */
  lemma {:induction false} JoinLines(d: byte, cmds: seq<Bytes>, t: Bytes)
    requires AllFree(d, cmds)
    ensures Lines(d, Join(d, cmds) + t) == cmds + Lines(d, t)
    ensures Rest(d, Join(d, cmds) + t) == Rest(d, t)
  {
    hide Lines, Rest, Find;
    if cmds == [] {
      assert Join(d, cmds) + t == t;
    } else {
      var more := Join(d, cmds[1..]) + t;
      Assoc(cmds[0] + [d], Join(d, cmds[1..]), t);
      LinesCons(d, cmds[0], more);
      JoinLines(d, cmds[1..], t);
      Uncons(cmds, Lines(d, t));
    }
  }

  lemma {:induction false} JoinAppend(d: byte, a: seq<Bytes>, b: seq<Bytes>)
    ensures Join(d, a + b) == Join(d, a) + Join(d, b)
  {
    if a == [] {
      assert a + b == b;
    } else {
      assert (a + b)[1..] == a[1..] + b;
      JoinAppend(d, a[1..], b);
    }
  }

  lemma JoinOne(d: byte, c: Bytes)
    ensures Join(d, [c]) == c + [d]
  {
    assert Join(d, [c][1..]) == [];
  }

  /** b is however much of a joined stream has arrived, t the part still to come:
      what b completes is a prefix of the commands, and the rest is still owed. */
  lemma PartialLines(d: byte, cmds: seq<Bytes>, b: Bytes, t: Bytes)
    requires AllFree(d, cmds) && b + t == Join(d, cmds)
    ensures |Lines(d, b)| <= |cmds| && Lines(d, b) == cmds[..|Lines(d, b)|]
    ensures Rest(d, b) + t == Join(d, cmds[|Lines(d, b)|..])
    ensures Free(d, Rest(d, b))
  {
    hide Lines, Rest, Find, Join;
    NoLines(d, []);
    assert Join(d, cmds) + [] == Join(d, cmds);
    JoinLines(d, cmds, []);
    LinesAppend(d, b, t);
    LinesJoin(d, Rest(d, b) + t);
    LinesJoin(d, b);
    assert Lines(d, b) + Lines(d, Rest(d, b) + t) == cmds;
  }
}
