/** The two C library calls every buffer here lives by. */
module Memory {
  import opened Bytes

  /** memcpy(a + at, bytes, |bytes|), and read(fd, a + at, ..) when it delivers bytes. */
  method Copy(a: array<byte>, at: nat, bytes: Bytes)
    requires at + |bytes| <= a.Length
    modifies a
    ensures a[..at] == old(a[..at]) && a[at..at + |bytes|] == bytes
    ensures a[at + |bytes|..] == old(a[at + |bytes|..])
  {
    forall i | 0 <= i < |bytes| {
      a[at + i] := bytes[i];
    }
  }

  /** The array after its bytes from `from` on have come down to its start. */
  function Moved(s: Bytes, from: nat, n: nat): Bytes
    requires from + n <= |s|
  {
    s[from..from + n] + s[n..]
  }

  /** memmove(a, a + from, n) */
  method MoveDown(a: array<byte>, from: nat, n: nat)
    requires from + n <= a.Length
    modifies a
    ensures a[..] == Moved(old(a[..]), from, n)
    ensures a[..n] == old(a[from..from + n]) && a[n..] == old(a[n..])
  {
    forall i | 0 <= i < n {
      a[i] := a[from + i];
    }
    ghost var s := old(a[..]);
    assert s[from..from + n] == old(a[from..from + n]) && s[n..] == old(a[n..]);
    assert a[..] == a[..n] + a[n..];
  }
}
