/** 64-bit machine arithmetic. */
module Words {

  const WRAP := 0x1_0000_0000_0000_0000

  type u64 = x: int | 0 <= x < 0x1_0000_0000_0000_0000

  function Wrap(x: int): u64 { x % WRAP }

  lemma WrapUnique(x: int, q: int, r: u64)
    requires x == WRAP * q + r
    ensures Wrap(x) == r
  {
  }

  lemma WrapShift(x: int, k: int)
    ensures Wrap(x + WRAP * k) == Wrap(x)
  {
    WrapUnique(x + WRAP * k, x / WRAP + k, Wrap(x));
  }
}
