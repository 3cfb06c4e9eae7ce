/** Unsigned machine integers of the target firmware, as mathematical integers,
    and the few division/modulus facts the rest of the model leans on.

    A `uint32_t` of the C source is a `u32` here; shifts by a constant or a
    variable amount are written as multiplication, division and remainder by
    a power of two, and 32-bit wrap-around is written out with `Wrap`. */
module Arith {

  /** A `uint32_t` value. */
  type u32 = x: int | 0 <= x < 0x1_0000_0000

  /** A `uint8_t` value. */
  type byte = x: int | 0 <= x < 0x100

  const WordModulus: int := 0x1_0000_0000

  /** The all-ones word the library returns as an error sentinel. */
  const AllOnes: u32 := 0xFFFF_FFFF

  /** Reduction modulo 2^32: what a `uint32_t` addition or multiplication keeps. */
  function Wrap(x: int): (r: u32)
    ensures 0 <= x < WordModulus ==> r == x
  {
    x % WordModulus
  }

  /** `1 << k`, as a number. */
  function Pow2(k: nat): (p: nat)
    ensures p >= 1
  {
    if k == 0 then 1 else 2 * Pow2(k - 1)
  }

  lemma {:induction false} Pow2Add(a: nat, b: nat)
    ensures Pow2(a + b) == Pow2(a) * Pow2(b)
    decreases a
  {
    if a > 0 {
      Pow2Add(a - 1, b);
    }
  }

  lemma Pow2Word()
    ensures Pow2(8) == 0x100
    ensures Pow2(16) == 0x1_0000
    ensures Pow2(32) == WordModulus
  {
    assert Pow2(4) == 16 by {
      assert Pow2(1) == 2;
      assert Pow2(2) == 4;
      assert Pow2(3) == 8;
    }
    Pow2Add(4, 4);
    Pow2Add(8, 8);
    Pow2Add(16, 16);
  }

  lemma MulAtLeast(a: int, d: int)
    requires a >= 1 && d > 0
    ensures a * d >= d
  {
  }

  lemma MulDistrib(a: int, b: int, d: int)
    ensures (a - b) * d == a * d - b * d
  {
  }

  /** Quotient and remainder are unique: any decomposition `x == q * d + r`
      with `0 <= r < d` is the one `/` and `%` compute. */
  lemma DivModUnique(x: int, d: int, q: int, r: int)
    requires d > 0 && 0 <= r < d && x == q * d + r
    ensures x / d == q && x % d == r
  {
    var q', r' := x / d, x % d;
    assert x == q' * d + r';
    MulDistrib(q, q', d);
    MulDistrib(q', q, d);
    if q > q' {
      MulAtLeast(q - q', d);
    } else if q < q' {
      MulAtLeast(q' - q, d);
    }
  }

  /** The low `k + 1` bits of `x` are bit `k` of `x` above its low `k` bits. */
  lemma ModSplit(x: nat, p: nat)
    requires p > 0
    ensures x % (2 * p) == ((x / p) % 2) * p + x % p
  {
    var q, r := x / p, x % p;
    var q2, b := q / 2, q % 2;
    assert x == q * p + r;
    assert q == 2 * q2 + b;
    assert q * p == q2 * (2 * p) + b * p;
    DivModUnique(x, 2 * p, q2, b * p + r);
  }

  /** Reducing modulo 2^32 keeps the remainder modulo 4, since 4 divides 2^32. */
  lemma WrapKeepsAlignment(x: int)
    ensures Wrap(x) % 4 == x % 4
  {
    var q, r := x / WordModulus, x % WordModulus;
    assert x == q * WordModulus + r;
    assert q * WordModulus == (q * 0x4000_0000) * 4;
    var r4 := r % 4;
    assert r == (r / 4) * 4 + r4;
    DivModUnique(x, 4, q * 0x4000_0000 + r / 4, r4);
  }

  /** Two offsets below 2^32 added to the same base stay apart after wrap-around. */
  lemma WrapOffsetsDistinct(base: int, a: int, b: int)
    requires 0 <= a < b < WordModulus
    ensures Wrap(base + a) != Wrap(base + b)
  {
    var qa, ra := (base + a) / WordModulus, (base + a) % WordModulus;
    var qb, rb := (base + b) / WordModulus, (base + b) % WordModulus;
    assert base + a == qa * WordModulus + ra;
    assert base + b == qb * WordModulus + rb;
    MulDistrib(qb, qa, WordModulus);
    assert rb - ra == (b - a) - (qb - qa) * WordModulus;
    if qb - qa >= 1 {
      MulAtLeast(qb - qa, WordModulus);
    } else if qb - qa <= -1 {
      MulAtLeast(qa - qb, WordModulus);
      MulDistrib(qa, qb, WordModulus);
    }
  }
}
