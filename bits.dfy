/** Ruby's arbitrary-precision Integer bit operations, restricted to the
    non-negative integers a permission series holds. Bit `i` of `v` is the
    `i`-th binary digit counted from the least significant one. */
module Bits {

  function Pow2(n: nat): (r: nat)
    ensures r >= 1
  {
    if n == 0 then 1 else 2 * Pow2(n - 1)
  }

  /** Whether bit `i` of `v` is set. */
  predicate Bit(v: nat, i: nat) {
    if i == 0 then v % 2 == 1 else Bit(v / 2, i - 1)
  }

  /** `a | b`. */
  function Or(a: nat, b: nat): nat
    decreases a + b
  {
    if a == 0 then b
    else if b == 0 then a
    else 2 * Or(a / 2, b / 2) + (if a % 2 == 1 || b % 2 == 1 then 1 else 0)
  }

  /** `a & b`. */
  function And(a: nat, b: nat): nat
  {
    if a == 0 || b == 0 then 0
    else 2 * And(a / 2, b / 2) + (if a % 2 == 1 && b % 2 == 1 then 1 else 0)
  }

  /** `a & ~b`. Ruby's `~b` is `-b - 1`, whose two's-complement bits are those of
      `b` flipped, so the result keeps the bits of `a` that `b` does not have. */
  function AndNot(a: nat, b: nat): nat
  {
    if a == 0 then 0
    else if b == 0 then a
    else 2 * AndNot(a / 2, b / 2) + (if a % 2 == 1 && b % 2 == 0 then 1 else 0)
  }

  predicate IsPow2(b: nat) {
    b == 1 || (b >= 2 && b % 2 == 0 && IsPow2(b / 2))
  }

  /** The position of the one bit of a power of two. */
  function Log2(b: nat): (i: nat)
    requires IsPow2(b)
    ensures Pow2(i) == b
  {
    if b == 1 then 0 else 1 + Log2(b / 2)
  }

  /** `Integer#to_s(2)`: the binary digits, most significant first, with no
      leading zero except for 0 itself. */
  function Binary(v: nat): (s: string)
    ensures |s| >= 1
    decreases v
  {
    if v < 2 then [if v == 1 then '1' else '0']
    else Binary(v / 2) + [if v % 2 == 1 then '1' else '0']
  }

  function BitChar(b: bool): char {
    if b then '1' else '0'
  }

  // ---------------------------------------------------------------------
  // Bits of the operations

  lemma BitStep(x: nat, d: nat, i: nat)
    requires d < 2
    ensures Bit(2 * x + d, i) == if i == 0 then d == 1 else Bit(x, i - 1)
  {
    assert (2 * x + d) % 2 == d && (2 * x + d) / 2 == x;
  }

  lemma {:induction false} BitOfZero(i: nat)
    ensures !Bit(0, i)
  {
    if i > 0 { BitOfZero(i - 1); }
  }

  lemma {:induction false} BitOfOr(a: nat, b: nat, i: nat)
    ensures Bit(Or(a, b), i) == (Bit(a, i) || Bit(b, i))
    decreases a + b
  {
    BitOfZero(i);
    if a != 0 && b != 0 {
      BitStep(Or(a / 2, b / 2), if a % 2 == 1 || b % 2 == 1 then 1 else 0, i);
      if i > 0 { BitOfOr(a / 2, b / 2, i - 1); }
    }
  }

  lemma {:induction false} BitOfAnd(a: nat, b: nat, i: nat)
    ensures Bit(And(a, b), i) == (Bit(a, i) && Bit(b, i))
  {
    BitOfZero(i);
    if a != 0 && b != 0 {
      BitStep(And(a / 2, b / 2), if a % 2 == 1 && b % 2 == 1 then 1 else 0, i);
      if i > 0 { BitOfAnd(a / 2, b / 2, i - 1); }
    }
  }

  lemma {:induction false} BitOfAndNot(a: nat, b: nat, i: nat)
    ensures Bit(AndNot(a, b), i) == (Bit(a, i) && !Bit(b, i))
  {
    BitOfZero(i);
    if a != 0 && b != 0 {
      BitStep(AndNot(a / 2, b / 2), if a % 2 == 1 && b % 2 == 0 then 1 else 0, i);
      if i > 0 { BitOfAndNot(a / 2, b / 2, i - 1); }
    }
  }

  lemma {:induction false} BitOfPow2(j: nat, i: nat)
    ensures Bit(Pow2(j), i) == (i == j)
  {
    if j == 0 {
      if i > 0 { BitOfZero(i - 1); }
    } else {
      BitStep(Pow2(j - 1), 0, i);
      if i > 0 { BitOfPow2(j - 1, i - 1); }
    }
  }

  /** Two integers with the same bits are equal. */
  lemma {:induction false} BitsDetermine(a: nat, b: nat)
    requires forall i: nat :: Bit(a, i) == Bit(b, i)
    ensures a == b
    decreases a + b
  {
    if a != 0 || b != 0 {
      forall i: nat ensures Bit(a / 2, i) == Bit(b / 2, i) {
        assert Bit(a, i + 1) == Bit(b, i + 1);
      }
      BitsDetermine(a / 2, b / 2);
      assert Bit(a, 0) == Bit(b, 0);
    }
  }

  /** `(v & b) > 0` for a power of two `b` tests the bit of `b`. */
  lemma {:induction false} AndPow2Positive(v: nat, j: nat)
    ensures (And(v, Pow2(j)) > 0) == Bit(v, j)
  {
    if v != 0 && j > 0 {
      AndPow2Positive(v / 2, j - 1);
    } else if v == 0 {
      BitOfZero(j);
    }
  }

  lemma {:induction false} Log2OfPow2(i: nat)
    ensures IsPow2(Pow2(i)) && Log2(Pow2(i)) == i
  {
    if i > 0 { Log2OfPow2(i - 1); }
  }

  lemma Pow2Injective(i: nat, j: nat)
    requires Pow2(i) == Pow2(j)
    ensures i == j
  {
    Log2OfPow2(i);
    Log2OfPow2(j);
  }

  // ---------------------------------------------------------------------
  // Ranges

  lemma {:induction false} Pow2Monotone(i: nat, j: nat)
    requires i <= j
    ensures Pow2(i) <= Pow2(j)
  {
    if i < j { Pow2Monotone(i, j - 1); }
  }

  /** Bits at or above `n` are clear in every value below 2^n. */
  lemma {:induction false} BitAboveRange(v: nat, n: nat, i: nat)
    requires v < Pow2(n) && n <= i
    ensures !Bit(v, i)
  {
    if n == 0 {
      BitOfZero(i);
    } else {
      BitAboveRange(v / 2, n - 1, i - 1);
    }
  }

  /** `a | b` stays below 2^n when both do. */
  lemma {:induction false} OrBelow(a: nat, b: nat, n: nat)
    requires a < Pow2(n) && b < Pow2(n)
    ensures Or(a, b) < Pow2(n)
  {
    if a != 0 && b != 0 {
      OrBelow(a / 2, b / 2, n - 1);
    }
  }

  /** `a & ~b` never exceeds `a`. */
  lemma {:induction false} AndNotAtMost(a: nat, b: nat)
    ensures AndNot(a, b) <= a
  {
    if a != 0 && b != 0 {
      AndNotAtMost(a / 2, b / 2);
    }
  }

  /** 2^n - 1 has its n low bits set. */
  lemma {:induction false} BitOfAllOnes(n: nat, i: nat)
    requires i < n
    ensures Bit(Pow2(n) - 1, i)
  {
    BitStep(Pow2(n - 1) - 1, 1, i);
    if i > 0 { BitOfAllOnes(n - 1, i - 1); }
  }

  // ---------------------------------------------------------------------
  // Binary digits

  /** Reading `Integer#to_s(2)` from its last digit backwards gives the bits
      of the number; every bit beyond its length is clear. */
  lemma {:induction false} BinaryDigits(v: nat, i: nat)
    ensures i < |Binary(v)| ==> Binary(v)[|Binary(v)| - 1 - i] == BitChar(Bit(v, i))
    ensures i >= |Binary(v)| ==> !Bit(v, i)
    decreases v
  {
    if v < 2 {
      if i > 0 { BitOfZero(i - 1); }
    } else if i > 0 {
      BinaryDigits(v / 2, i - 1);
      var b := Binary(v / 2);
      assert Binary(v) == b + [BitChar(v % 2 == 1)];
      if i < |Binary(v)| {
        assert Binary(v)[|Binary(v)| - 1 - i] == b[|b| - 1 - (i - 1)];
      }
    }
  }

  /** A value below 2^n (n >= 1) has at most n binary digits. */
  lemma {:induction false} BinaryFits(v: nat, n: nat)
    requires n >= 1 && v < Pow2(n)
    ensures |Binary(v)| <= n
    decreases v
  {
    if v >= 2 {
      assert Pow2(1) == 2;
      BinaryFits(v / 2, n - 1);
    }
  }
}
