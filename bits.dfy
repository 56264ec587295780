/** The C bitwise AND `a & m` of an `int` with a non-negative constant mask,
    on mathematical integers.

    A two's-complement integer has bit i equal to `(a / 2^i) % 2` under
    Dafny's Euclidean division (for a negative `a` the bits above the width
    are all ones, as sign extension gives them). `BitAnd` takes the bits one
    at a time from the bottom, so for every C `int` `a` and every mask `m`
    that fits in an `int` it is the value of `a & m`. The lemmas give the two
    closed forms the error-code macros need: a low mask `2^k - 1` keeps
    `a mod 2^k`, and a mask shifted left by `k` bits reads the bits of
    `a / 2^k`.
 */
module Bits {

  function Pow2(k: nat): (p: nat)
    ensures p > 0
  {
    if k == 0 then 1 else 2 * Pow2(k - 1)
  }

  /** `a & m` for a non-negative `m`, bit by bit from the least significant. */
  function BitAnd(a: int, m: nat): (r: nat)
    ensures r <= m
    decreases m
  {
    if m == 0 then 0
    else 2 * BitAnd(a / 2, m / 2) + (if a % 2 == 1 && m % 2 == 1 then 1 else 0)
  }

  lemma Pow2Of16()
    ensures Pow2(2) == 4
    ensures Pow2(16) == 0x10000
  {
    assert Pow2(4) == 16;
    assert Pow2(8) == 256;
    assert Pow2(12) == 4096;
  }

  lemma MulAtLeast(d: int, x: int)
    requires d > 0 && x >= 1
    ensures d * x >= d
  {
  }

  /** Doubling one factor doubles the product. */
  lemma MulDouble(m: int, p: int, x: int)
    ensures m * (2 * p) == 2 * (m * p)
    ensures 2 * (p * x) == (2 * p) * x
  {
  }

  /** Quotient and remainder are determined by the division equation. */
  lemma DivModUnique(a: int, d: int, q: int, r: int)
    requires d > 0 && a == d * q + r && 0 <= r < d
    ensures a / d == q && a % d == r
  {
    var q', r' := a / d, a % d;
    assert a == d * q' + r';
    if q' < q {
      assert d * (q - q') == d * q - d * q';
      MulAtLeast(d, q - q');
      assert false;
    } else if q' > q {
      assert d * (q' - q) == d * q' - d * q;
      MulAtLeast(d, q' - q);
      assert false;
    }
  }

  /** Halving and then dividing by `p` is dividing by `2p`, and the remainder
      modulo `2p` is rebuilt from the two steps. */
  lemma HalveThenDivide(a: int, p: nat)
    requires p > 0
    ensures (a / 2) / p == a / (2 * p)
    ensures a % (2 * p) == 2 * ((a / 2) % p) + a % 2
  {
    var q, r := a / 2, a % 2;
    var s, t := q / p, q % p;
    assert a == (2 * p) * s + (2 * t + r) by {
      assert a == 2 * q + r;
      assert q == p * s + t;
    }
    DivModUnique(a, 2 * p, s, 2 * t + r);
  }

  /** A mask with a zero low bit drops the low bit of `a`. */
  lemma DoubleMask(a: int, n: nat)
    ensures BitAnd(a, 2 * n) == 2 * BitAnd(a / 2, n)
  {
  }

  /** A mask of the `k` low bits keeps `a mod 2^k`. */
  lemma {:induction false} LowMask(a: int, k: nat)
    ensures BitAnd(a, Pow2(k) - 1) == a % Pow2(k)
    decreases k
  {
    if k > 0 {
      var p := Pow2(k - 1);
      assert (Pow2(k) - 1) / 2 == p - 1 && (Pow2(k) - 1) % 2 == 1;
      assert BitAnd(a, Pow2(k) - 1) == 2 * BitAnd(a / 2, p - 1) + a % 2;
      LowMask(a / 2, k - 1);
      HalveThenDivide(a, p);
    }
  }

  /** One step of `ShiftedMask`: from the shift by `p` of `a / 2` to the
      shift by `2p` of `a`. */
  lemma ShiftedMaskStep(a: int, m: nat, p: nat)
    requires p > 0
    requires BitAnd(a / 2, m * p) == p * BitAnd(a / 2 / p, m)
    ensures BitAnd(a, m * (2 * p)) == (2 * p) * BitAnd(a / (2 * p), m)
  {
    var n, x := m * p, BitAnd(a / (2 * p), m);
    MulDouble(m, p, x);
    DoubleMask(a, n);
    HalveThenDivide(a, p);
  }

  /** A mask shifted left by `k` bits reads the bits of `a / 2^k`. */
  lemma {:induction false} ShiftedMask(a: int, m: nat, k: nat)
    ensures BitAnd(a, m * Pow2(k)) == Pow2(k) * BitAnd(a / Pow2(k), m)
    decreases k
  {
    if k > 0 {
      ShiftedMask(a / 2, m, k - 1);
      ShiftedMaskStep(a, m, Pow2(k - 1));
    } else {
      assert Pow2(k) == 1 && m * Pow2(k) == m && a / Pow2(k) == a;
    }
  }

  /** `a & 0xffff` is `a mod 2^16`. */
  lemma Low16Mask(a: int)
    ensures BitAnd(a, 0xffff) == a % 0x10000
  {
    Pow2Of16();
    LowMask(a, 16);
  }

  /** `a & 0x30000` isolates bits 16 and 17: `((a / 2^16) mod 4) * 2^16`. */
  lemma Bits16To17Mask(a: int)
    ensures BitAnd(a, 0x30000) == (a / 0x10000) % 4 * 0x10000
  {
    Pow2Of16();
    ShiftedMask(a, 3, 16);
    LowMask(a / 0x10000, 2);
  }
}
