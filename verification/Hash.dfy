/** hash.c: the DJB2 byte hash over 64 bits, and the chain of object hashes of execute.c. */
module Hash {
  import opened Words

  const DJB2_CONST: u64 := 5381
  /** The inverse of 33 modulo 2^64. */
  const INVERSE := 0x0F83_E0F8_3E0F_83E1

  /** A char, signed on some machines and unsigned on others. */
  type cchar = c: int | -128 <= c < 256

  /** ((h << 5) + h) + c, each operation wrapping. */
  function Step(h: u64, c: cchar): u64 { Wrap(Wrap(Wrap(h * 32) + h) + c) }

  /** The hash as arithmetic: a polynomial in 33 over the bytes, above the seed. */
  function Poly(seed: int, buf: seq<cchar>): int {
    if buf == [] then seed else Poly(seed, buf[..|buf| - 1]) * 33 + buf[|buf| - 1]
  }

  /** The wrapping shift and additions are multiplication by 33 and addition, modulo 2^64. */
  lemma StepIsAffine(h: int, c: cchar)
    ensures Step(Wrap(h), c) == Wrap(h * 33 + c)
  {
    var w: int := Wrap(h);
    var a: int := Wrap(w * 32);
    var b: int := Wrap(a + w);
    assert h == WRAP * (h / WRAP) + w;
    assert w * 32 == WRAP * (w * 32 / WRAP) + a;
    assert a + w == WRAP * ((a + w) / WRAP) + b;
    var k := 33 * (h / WRAP) + w * 32 / WRAP + (a + w) / WRAP;
    assert h * 33 + c == (b + c) + WRAP * k;
    WrapShift(b + c, k);
  }

  /** memhash_cont */
  method MemhashCont(seed: u64, buf: seq<cchar>) returns (hash: u64)
    ensures hash == Wrap(Poly(seed, buf))
  {
    hash := seed;
    var i := 0;
    assert buf[..0] == [];
    while i < |buf|
      invariant i <= |buf| && hash == Wrap(Poly(seed, buf[..i]))
    {
      StepIsAffine(Poly(seed, buf[..i]), buf[i]);
      assert buf[..i + 1][..i] == buf[..i];
      hash := Wrap(Wrap(Wrap(hash * 32) + hash) + buf[i]);
      i := i + 1;
    }
    assert buf[..|buf|] == buf;
  }

  /** memhash */
  method Memhash(buf: seq<cchar>) returns (hash: u64)
    ensures hash == Wrap(Poly(DJB2_CONST, buf))
  {
    hash := MemhashCont(DJB2_CONST, buf);
  }

  lemma {:induction false} PolyAppend(seed: int, a: seq<cchar>, b: seq<cchar>)
    ensures Poly(seed, a + b) == Poly(Poly(seed, a), b)
  {
    if b == [] {
      assert a + b == a;
    } else {
      var all := a + b;
      assert all[..|all| - 1] == a + b[..|b| - 1];
      PolyAppend(seed, a, b[..|b| - 1]);
    }
  }

  function Power(n: nat): nat { if n == 0 then 1 else 33 * Power(n - 1) }

  /** The hash is affine in its seed, with a slope that depends only on the length. */
  lemma {:induction false} PolyAffine(seed: int, buf: seq<cchar>)
    ensures Poly(seed, buf) == seed * Power(|buf|) + Poly(0, buf)
  {
    if buf != [] {
      var front := buf[..|buf| - 1];
      PolyAffine(seed, front);
      assert (seed * Power(|front|)) * 33 == seed * (33 * Power(|front|));
    }
  }

  /** Only the seed's value modulo 2^64 matters. */
  lemma PolyWrap(seed: int, buf: seq<cchar>)
    ensures Wrap(Poly(Wrap(seed), buf)) == Wrap(Poly(seed, buf))
  {
    PolyAffine(seed, buf);
    PolyAffine(Wrap(seed), buf);
    hide Poly, Power, Wrap;
    var q, w, p := seed / WRAP, Wrap(seed), Power(|buf|);
    WrapParts(seed);
    Distribute(WRAP, q, w, p);
    var qp := q * p;
    WrapShift(Poly(w, buf), qp);
  }

  lemma WrapParts(x: int)
    ensures x == WRAP * (x / WRAP) + Wrap(x)
  {
  }

  lemma Distribute(k: int, q: int, w: int, p: int)
    ensures (k * q + w) * p == w * p + k * (q * p)
  {
  }

  function HashFrom(seed: u64, buf: seq<cchar>): u64 { Wrap(Poly(seed, buf)) }

  /** Hashing continues: memhash_cont(memhash(a), b) is memhash of a followed by b. */
  lemma HashContinues(a: seq<cchar>, b: seq<cchar>)
    ensures HashFrom(HashFrom(DJB2_CONST, a), b) == HashFrom(DJB2_CONST, a + b)
  {
    PolyWrap(Poly(DJB2_CONST, a), b);
    PolyAppend(DJB2_CONST, a, b);
  }

  /** 33 can be divided out modulo 2^64. */
  lemma Cancel33(x: int, y: int, c: int)
    requires Wrap(x * 33 + c) == Wrap(y * 33 + c)
    ensures Wrap(x) == Wrap(y)
  {
    var k := (x * 33 + c) / WRAP - (y * 33 + c) / WRAP;
    assert (x - y) * 33 == WRAP * k;
    assert 33 * INVERSE == 1 + 2 * WRAP;
    assert (x - y) * (33 * INVERSE) == WRAP * k * INVERSE by {
      assert (x - y) * 33 * INVERSE == (x - y) * (33 * INVERSE);
    }
    assert x == y + WRAP * (k * INVERSE - 2 * (x - y));
    WrapShift(y, k * INVERSE - 2 * (x - y));
  }

  /** memhash_cont is injective in its seed, for every buffer. */
  lemma {:induction false} SeedInjective(s: int, t: int, buf: seq<cchar>)
    ensures Wrap(Poly(s, buf)) == Wrap(Poly(t, buf)) <==> Wrap(s) == Wrap(t)
  {
    PolyWrap(s, buf);
    PolyWrap(t, buf);
    if buf != [] && Wrap(Poly(s, buf)) == Wrap(Poly(t, buf)) {
      var front := buf[..|buf| - 1];
      Cancel33(Poly(s, front), Poly(t, front), buf[|buf| - 1]);
      SeedInjective(s, t, front);
    }
  }

  /** The hash tells bytes apart: two buffers that differ in one byte, wherever it is, never
      hash alike. */
  lemma TellsApart(seed: u64, a: seq<cchar>, c: cchar, d: cchar, t: seq<cchar>)
    ensures HashFrom(seed, a + [c] + t) == HashFrom(seed, a + [d] + t) <==> c == d
  {
    PolyAppend(seed, a + [c], t);
    PolyAppend(seed, a + [d], t);
    SeedInjective(Poly(seed, a + [c]), Poly(seed, a + [d]), t);
    PolySnoc(seed, a, c);
    PolySnoc(seed, a, d);
    hide Poly;
    LastByte(Poly(seed, a) * 33, c, d);
  }

  /** One more byte. */
  lemma PolySnoc(seed: int, a: seq<cchar>, c: cchar)
    ensures Poly(seed, a + [c]) == Poly(seed, a) * 33 + c
  {
    assert (a + [c])[..|a|] == a;
  }

  lemma LastByte(x: int, c: cchar, d: cchar)
    ensures Wrap(x + c) == Wrap(x + d) <==> c == d
  {
    var q, p := (x + c) / WRAP, (x + d) / WRAP;
    assert x + c == WRAP * q + Wrap(x + c) && x + d == WRAP * p + Wrap(x + d);
    if Wrap(x + c) == Wrap(x + d) {
      assert c - d == WRAP * (q - p);
    }
  }

  /** DJB2 on no byte and on one. */
  lemma SmallHashes(c: cchar)
    ensures HashFrom(DJB2_CONST, []) == 5381
    ensures HashFrom(DJB2_CONST, [c]) == 177573 + c
  {
    PolySnoc(DJB2_CONST, [], c);
    assert [] + [c] == [c];
  }

  // ---- execute_hash

  function Flatten(objects: seq<seq<cchar>>): seq<cchar> {
    if objects == [] then [] else Flatten(objects[..|objects| - 1]) + objects[|objects| - 1]
  }

  /** execute_hash: entry i is the hash of the first i + 1 objects run together, and the
      entries beyond the objects are cleared. */
  method ExecuteHash(hashObjects: array<u64>, objects: seq<seq<cchar>>) returns (hash: u64)
    requires |objects| <= hashObjects.Length
    modifies hashObjects
    ensures forall i :: 0 <= i < |objects| ==> hashObjects[i] == HashFrom(DJB2_CONST, Flatten(objects[..i + 1]))
    ensures forall i :: |objects| <= i < hashObjects.Length ==> hashObjects[i] == 0
    ensures hash == HashFrom(DJB2_CONST, Flatten(objects))
  {
    forall i | 0 <= i < hashObjects.Length {
      hashObjects[i] := 0;
    }
    hash := Memhash([]);
    var i := 0;
    while i < |objects|
      invariant i <= |objects| && hash == HashFrom(DJB2_CONST, Flatten(objects[..i]))
      invariant forall j :: 0 <= j < i ==> hashObjects[j] == HashFrom(DJB2_CONST, Flatten(objects[..j + 1]))
      invariant forall j :: i <= j < hashObjects.Length ==> hashObjects[j] == 0
    {
      HashContinues(Flatten(objects[..i]), objects[i]);
      assert objects[..i + 1][..i] == objects[..i];
      hash := MemhashCont(hash, objects[i]);
      hashObjects[i] := hash;
      i := i + 1;
    }
    assert objects[..|objects|] == objects;
  }

  lemma {:induction false} FlattenAppend(a: seq<seq<cchar>>, b: seq<seq<cchar>>)
    ensures Flatten(a + b) == Flatten(a) + Flatten(b)
  {
    if b == [] {
      assert a + b == a;
    } else {
      var all := a + b;
      assert all[..|all| - 1] == a + b[..|b| - 1];
      FlattenAppend(a, b[..|b| - 1]);
    }
  }

  /** Once two peers' chains differ, equal later objects never make them agree again, and
      once they agree, equal later objects keep them equal. */
  lemma DivergencePersists(a: seq<seq<cchar>>, b: seq<seq<cchar>>, later: seq<seq<cchar>>)
    ensures HashFrom(DJB2_CONST, Flatten(a + later)) == HashFrom(DJB2_CONST, Flatten(b + later))
       <==> HashFrom(DJB2_CONST, Flatten(a)) == HashFrom(DJB2_CONST, Flatten(b))
  {
    FlattenAppend(a, later);
    FlattenAppend(b, later);
    PolyAppend(DJB2_CONST, Flatten(a), Flatten(later));
    PolyAppend(DJB2_CONST, Flatten(b), Flatten(later));
    SeedInjective(Poly(DJB2_CONST, Flatten(a)), Poly(DJB2_CONST, Flatten(b)), Flatten(later));
  }

  lemma FlattenOne(x: seq<cchar>)
    ensures Flatten([x]) == x
  {
    assert [x][..0] == [];
  }

  /** A difference of one byte in one object shows in the hash of every later entry. */
  lemma ObjectsTellApart(before: seq<seq<cchar>>, a: seq<cchar>, c: cchar, d: cchar, t: seq<cchar>,
                         later: seq<seq<cchar>>)
    ensures var x, y := Flatten(before + [a + [c] + t] + later), Flatten(before + [a + [d] + t] + later);
            HashFrom(DJB2_CONST, x) == HashFrom(DJB2_CONST, y) <==> c == d
  {
    DivergencePersists(before + [a + [c] + t], before + [a + [d] + t], later);
    FlattenAppend(before, [a + [c] + t]);
    FlattenAppend(before, [a + [d] + t]);
    FlattenOne(a + [c] + t);
    FlattenOne(a + [d] + t);
    var p := Flatten(before);
    assert p + (a + [c] + t) == p + a + [c] + t && p + (a + [d] + t) == p + a + [d] + t;
    hide Flatten, HashFrom;
    TellsApart(DJB2_CONST, p + a, c, d, t);
  }
}
