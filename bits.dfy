/**
 * Python's bitwise operators on non-negative integers, defined digit by
 * binary digit, and the facts the register encodings rely on: a low mask
 * is a remainder, a right shift is a quotient, a shifted mask commutes with
 * the shift, and an OR of disjoint bit ranges is an addition.
 */
module Bits {

  /** 2 to the power k. */
  function Pow2(k: nat): (p: nat)
    ensures p >= 1
  {
    if k == 0 then 1 else 2 * Pow2(k - 1)
  }

  /** The mask of the k lowest bits, 2^k - 1. */
  function LowMask(k: nat): (m: nat)
    ensures m + 1 == Pow2(k)
  {
    if k == 0 then 0 else 2 * LowMask(k - 1) + 1
  }

  /** Python's `a & b`. */
  function And(a: nat, b: nat): (r: nat)
    ensures r <= a && r <= b
  {
    if a == 0 || b == 0 then 0
    else 2 * And(a / 2, b / 2) + (if a % 2 == 1 && b % 2 == 1 then 1 else 0)
  }

  /** Python's `a | b`. */
  function Or(a: nat, b: nat): (r: nat)
    ensures a <= r && b <= r && r <= a + b
  {
    if a == 0 then b
    else if b == 0 then a
    else 2 * Or(a / 2, b / 2) + (if a % 2 == 1 || b % 2 == 1 then 1 else 0)
  }

  /** Python's `a << k`. */
  function ShiftLeft(a: nat, k: nat): (r: nat)
    ensures r == a * Pow2(k)
  {
    if k == 0 then a else 2 * ShiftLeft(a, k - 1)
  }

  /** Python's `a >> k`: drop the k lowest bits one at a time. */
  function ShiftRight(a: nat, k: nat): (r: nat)
    ensures r <= a
  {
    if k == 0 then a else ShiftRight(a / 2, k - 1)
  }

  /** Splitting at bit k: the high part times 2^k plus the low part. */
  lemma {:induction false} SplitAt(x: nat, k: nat)
    ensures x == ShiftRight(x, k) * Pow2(k) + And(x, LowMask(k))
    ensures And(x, LowMask(k)) < Pow2(k)
  {
    if k == 0 {
    } else if x == 0 {
      ShiftRightZero(k);
    } else {
      SplitAt(x / 2, k - 1);
      var s, a, p := ShiftRight(x / 2, k - 1), And(x / 2, LowMask(k - 1)), Pow2(k - 1);
      assert x / 2 == s * p + a;
      assert LowMask(k) / 2 == LowMask(k - 1) && LowMask(k) % 2 == 1;
      assert And(x, LowMask(k)) == 2 * a + x % 2;
      assert ShiftRight(x, k) == s;
      assert Pow2(k) == 2 * p;
      MulDouble(s, p);
    }
  }

  lemma MulDouble(s: nat, p: nat)
    ensures s * (2 * p) == 2 * (s * p)
  {
  }

  /** A quotient and remainder pair determines x / p and x % p. */
  lemma DivModUnique(x: nat, q: nat, r: nat, p: nat)
    requires p > 0 && x == q * p + r && r < p
    ensures q == x / p && r == x % p
  {
    var q', r' := x / p, x % p;
    if q > q' {
      MulMonotone(q - q', p);
    } else if q < q' {
      MulMonotone(q' - q, p);
    }
  }

  lemma MulMonotone(d: nat, p: nat)
    requires d >= 1
    ensures d * p >= p
  {
  }

  lemma {:induction false} ShiftRightZero(k: nat)
    ensures ShiftRight(0, k) == 0
  {
    if k > 0 { ShiftRightZero(k - 1); }
  }

  /** A low mask keeps the remainder and a right shift keeps the quotient. */
  lemma ShiftRightAndLowMask(x: nat, k: nat)
    ensures ShiftRight(x, k) == x / Pow2(k)
    ensures And(x, LowMask(k)) == x % Pow2(k)
  {
    SplitAt(x, k);
    DivModUnique(x, ShiftRight(x, k), And(x, LowMask(k)), Pow2(k));
  }

  /** Masking with a shifted mask is shifting, masking, and shifting back. */
  lemma {:induction false} AndShiftedMask(x: nat, m: nat, k: nat)
    ensures And(x, ShiftLeft(m, k)) == ShiftLeft(And(ShiftRight(x, k), m), k)
  {
    if k > 0 {
      AndShiftedMask(x / 2, m, k - 1);
      if x == 0 {
        ShiftRightZero(k);
      }
    }
  }

  /** Shifting left then right by the same amount is the identity. */
  lemma {:induction false} ShiftRoundTrip(a: nat, k: nat)
    ensures ShiftRight(ShiftLeft(a, k), k) == a
  {
    if k > 0 {
      assert ShiftRight(2 * ShiftLeft(a, k - 1), k) == ShiftRight(ShiftLeft(a, k - 1), k - 1);
      ShiftRoundTrip(a, k - 1);
    }
  }

  /**
   * Masking w bits that start at bit k and shifting them down by k reads the
   * quotient x / 2^k when that quotient has at most w bits.
   */
  lemma MaskedHighBits(x: nat, w: nat, k: nat)
    requires x / Pow2(k) < Pow2(w)
    ensures ShiftRight(And(x, ShiftLeft(LowMask(w), k)), k) == x / Pow2(k)
  {
    var q := x / Pow2(k);
    AndShiftedMask(x, LowMask(w), k);
    ShiftRightAndLowMask(x, k);
    assert ShiftRight(x, k) == q;
    ShiftRightAndLowMask(q, w);
    ModOfSmaller(q, Pow2(w));
    assert And(q, LowMask(w)) == q;
    ShiftRoundTrip(q, k);
  }

  lemma ModOfSmaller(a: nat, p: nat)
    requires a < p
    ensures a % p == a
  {
  }

  /** OR of a value shifted past every bit of b is addition. */
  lemma {:induction false} OrDisjoint(a: nat, b: nat, k: nat)
    requires b < Pow2(k)
    ensures Or(ShiftLeft(a, k), b) == ShiftLeft(a, k) + b
  {
    if k > 0 && a > 0 && b > 0 {
      OrDisjoint(a, b / 2, k - 1);
    }
  }
}
