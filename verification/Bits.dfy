/**
 Bitwise operations on natural numbers, defined digit by digit so that every law about
 them is an induction on the number of bits.  A 32-bit word is a natural below `2^32`.
 */
module Bits {

  const WORD_BITS := 32

  /** The 32-bit modulus. */
  const B32 := 0x1_0000_0000

  function Pow2(n: nat): (p: nat)
    ensures p >= 1
  {
    if n == 0 then 1 else 2 * Pow2(n - 1)
  }

  /** Bit `i` of `x`, bit 0 being the least significant. */
  predicate Bit(x: nat, i: nat)
    decreases i
  {
    if i == 0 then x % 2 == 1 else Bit(x / 2, i - 1)
  }

  function B(b: bool): nat {
    if b then 1 else 0
  }

  function And(x: nat, y: nat): nat {
    if x == 0 then 0 else 2 * And(x / 2, y / 2) + B(x % 2 == 1 && y % 2 == 1)
  }

  function Or(x: nat, y: nat): nat
    decreases x + y
  {
    if x == 0 && y == 0 then 0 else 2 * Or(x / 2, y / 2) + B(x % 2 == 1 || y % 2 == 1)
  }

  function Xor(x: nat, y: nat): nat
    decreases x + y
  {
    if x == 0 && y == 0 then 0 else 2 * Xor(x / 2, y / 2) + B((x % 2 == 1) != (y % 2 == 1))
  }

  /** The complement of `x` within `width` bits. */
  function Complement(x: nat, width: nat): nat {
    if width == 0 then 0 else 2 * Complement(x / 2, width - 1) + B(x % 2 == 0)
  }

  lemma {:induction false} BitOfZero(i: nat)
    ensures !Bit(0, i)
  {
    if i > 0 { BitOfZero(i - 1); }
  }

  lemma {:induction false} BitOfDouble(x: nat, b: bool, i: nat)
    ensures Bit(2 * x + B(b), i) == if i == 0 then b else Bit(x, i - 1)
  {
    assert (2 * x + B(b)) / 2 == x;
  }

  lemma {:induction false} AndZero(x: nat)
    ensures And(x, 0) == 0
  {
    if x > 0 { AndZero(x / 2); }
  }

  lemma {:induction false} BitOfAnd(x: nat, y: nat, i: nat)
    ensures Bit(And(x, y), i) == (Bit(x, i) && Bit(y, i))
    decreases i
  {
    if x == 0 {
      BitOfZero(i);
    } else {
      BitOfDouble(And(x / 2, y / 2), x % 2 == 1 && y % 2 == 1, i);
      if i > 0 { BitOfAnd(x / 2, y / 2, i - 1); }
    }
  }

  lemma {:induction false} BitOfOr(x: nat, y: nat, i: nat)
    ensures Bit(Or(x, y), i) == (Bit(x, i) || Bit(y, i))
    decreases i
  {
    if x == 0 && y == 0 {
      BitOfZero(i);
    } else {
      BitOfDouble(Or(x / 2, y / 2), x % 2 == 1 || y % 2 == 1, i);
      if i > 0 { BitOfOr(x / 2, y / 2, i - 1); }
    }
  }

  lemma {:induction false} BitOfXor(x: nat, y: nat, i: nat)
    ensures Bit(Xor(x, y), i) == (Bit(x, i) != Bit(y, i))
    decreases i
  {
    if x == 0 && y == 0 {
      BitOfZero(i);
    } else {
      BitOfDouble(Xor(x / 2, y / 2), (x % 2 == 1) != (y % 2 == 1), i);
      if i > 0 { BitOfXor(x / 2, y / 2, i - 1); }
    }
  }

  lemma {:induction false} BitOfComplement(x: nat, width: nat, i: nat)
    requires i < width
    ensures Bit(Complement(x, width), i) == !Bit(x, i)
    decreases width
  {
    BitOfDouble(Complement(x / 2, width - 1), x % 2 == 0, i);
    if i > 0 { BitOfComplement(x / 2, width - 1, i - 1); }
  }

  lemma {:induction false} BitOfPow2(k: nat, i: nat)
    ensures Bit(Pow2(k), i) == (i == k)
    decreases i
  {
    if k > 0 {
      assert Pow2(k) / 2 == Pow2(k - 1);
      if i > 0 { BitOfPow2(k - 1, i - 1); }
    } else if i > 0 {
      BitOfZero(i - 1);
    }
  }

  /** `(1 << n) - 1` has exactly its low `n` bits set. */
  lemma {:induction false} BitOfLowMask(n: nat, i: nat)
    ensures Bit(Pow2(n) - 1, i) == (i < n)
    decreases n
  {
    if n == 0 {
      BitOfZero(i);
    } else {
      BitOfDouble(Pow2(n - 1) - 1, true, i);
      assert 2 * (Pow2(n - 1) - 1) + B(true) == Pow2(n) - 1;
      if i > 0 { BitOfLowMask(n - 1, i - 1); }
    }
  }

  /** All three operations stay within the width of their operands. */
  lemma {:induction false} OpsStayInWidth(x: nat, y: nat, w: nat)
    requires x < Pow2(w) && y < Pow2(w)
    ensures And(x, y) < Pow2(w) && Or(x, y) < Pow2(w) && Xor(x, y) < Pow2(w)
    decreases w
  {
    if w > 0 {
      OpsStayInWidth(x / 2, y / 2, w - 1);
    }
  }

  lemma {:induction false} ComplementInWidth(x: nat, w: nat)
    ensures Complement(x, w) < Pow2(w)
    decreases w
  {
    if w > 0 { ComplementInWidth(x / 2, w - 1); }
  }

  lemma Pow2Is32()
    ensures Pow2(32) == B32
  {
    assert Pow2(8) == 256;
    assert Pow2(16) == 65536;
    assert Pow2(24) == 16777216;
  }

  lemma {:induction false} Pow2Monotone(a: nat, b: nat)
    requires a <= b
    ensures Pow2(a) <= Pow2(b)
    decreases b
  {
    if a < b { Pow2Monotone(a, b - 1); }
  }

  lemma {:induction false} Pow2Add(a: nat, b: nat)
    ensures Pow2(a + b) == Pow2(a) * Pow2(b)
    decreases a
  {
    if a > 0 { Pow2Add(a - 1, b); }
  }
}
