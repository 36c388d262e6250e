/**
 64-bit division built from the processor's 64-by-32 divide.  Machine integers are naturals (or integers)
 in range, and wrap-around is written out.
 */
module Division {
  import opened Bits

  const B64 := 0x1_0000_0000_0000_0000
  const B63 := 0x8000_0000_0000_0000
  const B31 := 0x8000_0000

  /** Quotient and remainder under names of their own, so that proofs use only the law below. */
  function Quot(n: nat, d: nat): nat
    requires d > 0
  {
    n / d
  }

  function Rem(n: nat, d: nat): nat
    requires d > 0
  {
    n % d
  }

  lemma QuotRem(n: nat, d: nat)
    requires d > 0
    ensures n == Quot(n, d) * d + Rem(n, d) && Rem(n, d) < d
    ensures Quot(n, d) * d <= n < (Quot(n, d) + 1) * d
  {
  }

  // ---------------------------------------------------------------- the code

  /** The DIVL instruction.  It traps unless the quotient fits in 32 bits: every call must show it does. */
  function Divl(n: nat, d: nat): (q: nat)
    requires n < B64 && 0 < d < B32 && Quot(n, d) < B32
    ensures q < B32
  {
    Quot(n, d)
  }

  /** One halving step of the search for the leading one bit: a small `x` is shifted up by `k`. */
  function ShiftUp(p: (nat, nat), limit: nat, k: nat): (nat, nat) {
    if p.1 <= limit then (p.0 + k, p.1 * Pow2(k)) else p
  }

  /** Leading zero bits of a 32-bit word, which must not be zero. */
  function Nlz(x: nat): nat
    requires 0 < x < B32
  {
    var p := ShiftUp((0, x), 0x0000_FFFF, 16);
    var p := ShiftUp(p, 0x00FF_FFFF, 8);
    var p := ShiftUp(p, 0x0FFF_FFFF, 4);
    var p := ShiftUp(p, 0x3FFF_FFFF, 2);
    ShiftUp(p, 0x7FFF_FFFF, 1).0
  }

  /** The same, updating `n` and `x` in place as the source does. */
  method CountLeadingZeros(word: nat) returns (n: nat)
    requires 0 < word < B32
    ensures n == Nlz(word) && n <= 31 && B31 <= word * Pow2(n) < B32
  {
    NlzIs(word);
    Pow2Values();
    var x := word;
    n := 0;
    if x <= 0x0000_FFFF { n := n + 16; x := x * 0x1_0000; }
    if x <= 0x00FF_FFFF { n := n + 8; x := x * 0x100; }
    if x <= 0x0FFF_FFFF { n := n + 4; x := x * 0x10; }
    if x <= 0x3FFF_FFFF { n := n + 2; x := x * 4; }
    if x <= 0x7FFF_FFFF { n := n + 1; }
  }

  /** `p` is `x` shifted up by `p.0`, still a word, and at least `low`. */
  ghost predicate Shifted(x: nat, p: (nat, nat), low: nat, most: nat) {
    p.1 == x * Pow2(p.0) && low <= p.1 < B32 && p.0 <= most
  }

  lemma ShiftUpKeeps(x: nat, p: (nat, nat), low: nat, limit: nat, k: nat, most: nat)
    requires Shifted(x, p, low, most) && (limit + 1) * Pow2(k) == B32 && low * Pow2(k) == limit + 1
    ensures Shifted(x, ShiftUp(p, limit, k), limit + 1, most + k)
  {
    if p.1 <= limit {
      Pow2Add(p.0, k);
      MulAssoc(x, Pow2(p.0), Pow2(k));
      WordShift(p.1, low, limit, Pow2(k));
    }
  }

  lemma WordShift(x: nat, low: nat, limit: nat, p: nat)
    requires low <= x <= limit && (limit + 1) * p == B32 && low * p == limit + 1
    ensures limit + 1 <= x * p < B32
  {
    MulMono(low, x, p);
    MulMono(x, limit, p);
  }

  lemma MulAssoc(x: nat, y: nat, z: nat)
    ensures x * (y * z) == x * y * z
  {
  }

  lemma MulMono(x: int, y: int, z: nat)
    requires x <= y
    ensures x * z <= y * z
  {
  }

  /** Shifting by the number of leading zeros puts the leading one in the top bit. */
  lemma NlzIs(x: nat)
    requires 0 < x < B32
    ensures Nlz(x) <= 31 && B31 <= x * Pow2(Nlz(x)) < B32
  {
    hide Shifted;
    Pow2Values();
    assert Shifted(x, (0, x), 1, 0) by { ShiftedStart(x); }
    var p16 := ShiftUp((0, x), 0x0000_FFFF, 16);
    ShiftUpKeeps(x, (0, x), 1, 0x0000_FFFF, 16, 0);
    var p8 := ShiftUp(p16, 0x00FF_FFFF, 8);
    ShiftUpKeeps(x, p16, 0x1_0000, 0x00FF_FFFF, 8, 16);
    var p4 := ShiftUp(p8, 0x0FFF_FFFF, 4);
    ShiftUpKeeps(x, p8, 0x100_0000, 0x0FFF_FFFF, 4, 24);
    var p2 := ShiftUp(p4, 0x3FFF_FFFF, 2);
    ShiftUpKeeps(x, p4, 0x1000_0000, 0x3FFF_FFFF, 2, 28);
    ShiftUpKeeps(x, p2, 0x4000_0000, 0x7FFF_FFFF, 1, 30);
    ShiftedEnd(x, ShiftUp(p2, 0x7FFF_FFFF, 1));
  }

  lemma ShiftedStart(x: nat)
    requires 0 < x < B32
    ensures Shifted(x, (0, x), 1, 0)
  {
  }

  lemma ShiftedEnd(x: nat, p: (nat, nat))
    requires Shifted(x, p, B31, 31)
    ensures p.0 <= 31 && B31 <= x * Pow2(p.0) < B32
  {
  }

  /** The case of a 32-bit divisor. */
  function UdivSmall(n: nat, d: nat): nat
    requires n < B64 && 0 < d < B32
  {
    var n1, n0 := n / B32, n % B32;
    SmallNoTrap(n1, n0, d);
    (Divl(B32 * Rem(n1, d) + n0, d) + B32 * Quot(n1, d)) % B64
  }

  /** The case of a larger divisor: estimate the quotient from the leading 32 bits, then correct it. */
  function UdivBig(n: nat, d: nat): nat
    requires n < B64 && B32 <= d < B64
  {
    if n < d then 0
    else
      BigNoTrap(n, d);
      var s := Nlz(d / B32);
      var q := Quot(Divl(n / 2, d * Pow2(s) % B64 / B32), Pow2(31 - s));
      if (n - (q - 1) * d) % B64 < d then (q - 1) % B64 else q
  }

  /** Unsigned 64-bit quotient. */
  function Udiv64(n: nat, d: nat): nat
    requires n < B64 && 0 < d < B64
  {
    if d / B32 == 0 then UdivSmall(n, d) else UdivBig(n, d)
  }

  /** Unsigned 64-bit remainder, as the 32 bits the source returns. */
  function Umod64(n: nat, d: nat): nat
    requires n < B64 && 0 < d < B64
  {
    (n - d * Udiv64(n, d)) % B32
  }

  // ---------------------------------------------------------------- no trap

  lemma SmallNoTrap(n1: nat, n0: nat, d: nat)
    requires n1 < B32 && n0 < B32 && 0 < d < B32
    ensures B32 * Rem(n1, d) + n0 < B64 && Quot(B32 * Rem(n1, d) + n0, d) < B32
  {
    hide Quot, Rem;
    QuotRem(n1, d);
    QuotBelow(B32 * Rem(n1, d) + n0, d, B32);
  }

  lemma QuotBelow(a: nat, d: nat, q: nat)
    requires d > 0 && a < q * d
    ensures Quot(a, d) < q
  {
    hide Quot, Rem;
    QuotRem(a, d);
    if Quot(a, d) >= q { MulMono(q, Quot(a, d), d); }
  }

  /** The normalised divisor has its top bit set, so the quotient of half the dividend fits. */
  lemma BigNoTrap(n: nat, d: nat)
    requires n < B64 && B32 <= d < B64
    ensures 0 < d / B32 < B32
    ensures var s := Nlz(d / B32);
            var v := d * Pow2(s) % B64 / B32;
            s <= 31 && d * Pow2(s) < B64 && B31 <= v < B32 && Quot(n / 2, v) < B32
  {
    hide Nlz, Quot, Pow2;
    NlzIs(d / B32);
    var s := Nlz(d / B32);
    Pow2Split(s);
    Normalised(d, d / B32, Pow2(s), Pow2(32 - s));
    HalfFits(n / 2, d * Pow2(s) / B32);
  }

  lemma Pow2Split(s: nat)
    requires s <= 32
    ensures Pow2(s) * Pow2(32 - s) == B32
  {
    Pow2Add(s, 32 - s);
    Pow2Is32();
  }

  lemma HalfFits(h: nat, v: nat)
    requires h < B63 && B31 <= v
    ensures Quot(h, v) < B32
  {
    hide Quot;
    MulMono(B31, v, B32);
    QuotBelow(h, v, B32);
  }

  /** Shifting `d` by the leading zeros of its upper half keeps it in 64 bits with the top bit set. */
  lemma Normalised(d: nat, d1: nat, p: nat, t: nat)
    requires p * t == B32 && p > 0 && d1 * B32 <= d < (d1 + 1) * B32 && B31 <= d1 * p < B32
    ensures B63 <= d * p < B64 && B31 <= d * p / B32 < B32
  {
    assert d1 < t by { if d1 >= t { MulMono(t, d1, p); } }
    MulMono(d1 + 1, t, p);
    MulMono(d1 * B32, d, p);
    MulStrict(d, (d1 + 1) * B32, p);
  }

  lemma MulStrict(x: int, y: int, z: nat)
    requires x < y && z > 0
    ensures x * z < y * z
  {
  }

  lemma Pow2Values()
    ensures Pow2(0) == 1 && Pow2(1) == 2 && Pow2(2) == 4 && Pow2(4) == 0x10 && Pow2(8) == 0x100 && Pow2(16) == 0x1_0000
  {
  }

  // ---------------------------------------------------------------- the quotient is right

  lemma QuotUnique(n: nat, d: nat, q: nat)
    requires d > 0 && q * d <= n < (q + 1) * d
    ensures Quot(n, d) == q
  {
    hide Quot, Rem;
    QuotRem(n, d);
    var e := Quot(n, d);
    if e < q { MulMono(e + 1, q, d); }
    if e > q { MulMono(q + 1, e, d); }
  }

  /** Dividing twice is dividing by the product. */
  lemma QuotQuot(a: nat, b: nat, c: nat)
    requires b > 0 && c > 0
    ensures b * c > 0 && Quot(Quot(a, b), c) == Quot(a, b * c)
  {
    hide Quot, Rem;
    var r := Quot(a, b);
    QuotRem(a, b);
    QuotRem(r, c);
    NestedBounds(a, b, c, r, Quot(r, c));
    MulPositive(b, c);
    QuotUnique(a, b * c, Quot(r, c));
  }

  lemma MulPositive(b: nat, c: nat)
    requires b > 0 && c > 0
    ensures b * c > 0
  {
  }

  lemma NestedBounds(a: nat, b: nat, c: nat, r: nat, q: nat)
    requires r * b <= a < (r + 1) * b && q * c <= r < (q + 1) * c
    ensures q * (b * c) <= a < (q + 1) * (b * c)
  {
    MulMono(q * c, r, b);
    MulMono(r + 1, (q + 1) * c, b);
    Regroup(q, b, c);
    Regroup(q + 1, b, c);
  }

  lemma Regroup(q: nat, b: nat, c: nat)
    ensures q * c * b == q * (b * c)
  {
  }

  /** The 64-by-32 case: long division in base `2^32`. */
  lemma SmallDivision(n: nat, d: nat)
    requires n < B64 && 0 < d < B32
    ensures UdivSmall(n, d) == Quot(n, d)
  {
    hide Quot, Rem;
    var n1, n0 := n / B32, n % B32;
    SmallNoTrap(n1, n0, d);
    LongDivision(n, d, n1, n0);
    QuotSmall(n, d);
  }

  lemma LongDivision(n: nat, d: nat, n1: nat, n0: nat)
    requires d > 0 && n == B32 * n1 + n0
    ensures Quot(B32 * Rem(n1, d) + n0, d) + B32 * Quot(n1, d) == Quot(n, d)
  {
    hide Quot, Rem;
    var a := B32 * Rem(n1, d) + n0;
    QuotRem(n1, d);
    QuotRem(a, d);
    QuotUnique(n, d, Quot(a, d) + B32 * Quot(n1, d));
  }

  lemma QuotSmall(n: nat, d: nat)
    requires d > 0
    ensures Quot(n, d) <= n
  {
    hide Quot, Rem;
    QuotRem(n, d);
    MulMono(1, d, Quot(n, d));
  }

  lemma EstimateLow(n: nat, d: nat, w: nat, q: nat, e: nat)
    requires e * d <= n < (q + 1) * w && w <= d
    ensures e <= q
  {
    if e > q {
      MulMono(q + 1, e, d);
      MulMono(w, d, q + 1);
    }
  }

  lemma EstimateHigh(n: nat, d: nat, w: nat, q: nat, e: nat, t: nat)
    requires q * w <= n < (e + 1) * d && w <= d < w + t && q * (t - 1) <= d
    ensures q <= e + 1
  {
    if q > e + 1 {
      MulMono(e + 2, q, d);
      MulMono(d - w, t - 1, q);
      Distribute(q, d, w);
    }
  }

  lemma Distribute(q: nat, d: nat, w: nat)
    requires w <= d
    ensures q * d == q * w + (d - w) * q
  {
  }

  /** With `w <= d` close to `d`, the quotient by `w` overestimates the quotient by `d` by at most one. */
  lemma EstimateIsClose(n: nat, d: nat, w: nat, t: nat)
    requires 0 < w <= d < w + t && Quot(n, w) * (t - 1) <= d
    ensures Quot(n, d) <= Quot(n, w) <= Quot(n, d) + 1
  {
    hide Quot, Rem;
    QuotRem(n, d);
    QuotRem(n, w);
    EstimateLow(n, d, w, Quot(n, w), Quot(n, d));
    EstimateHigh(n, d, w, Quot(n, w), Quot(n, d), t);
  }

  /** The bound that makes the estimate close: the shift trades bits of `q` for bits of `t`. */
  lemma ShiftBound(p: nat, t: nat, v: nat, q: nat, d: nat)
    requires p * t == B32 && p > 0 && (t == 2 || t >= 4) && q < 2 * p && B31 <= v && v * t <= d
    ensures q * (t - 1) <= d
  {
    MulMono(q, 2 * p - 1, t - 1);
    MulMono(B31, v, t);
    assert (2 * p - 1) * (t - 1) == 2 * (p * t) - 2 * p - t + 1;
  }

  /** The normalised leading bits, shifted back, are just below `d`. */
  lemma LeadingBits(d: nat, p: nat, t: nat, v: nat)
    requires p * t == B32 && p > 0 && v * B32 <= d * p < (v + 1) * B32
    ensures v * t <= d < v * t + t
  {
    Regroup(v, t, p);
    Regroup(v + 1, t, p);
    if v * t > d { MulStrict(d, v * t, p); }
    if d >= (v + 1) * t { MulMono((v + 1) * t, d, p); }
  }

  /** The leading 32 bits of a 64-bit divisor that is scaled by `p`. */
  function Leading(d: nat, p: nat): (v: nat)
    ensures v == d * p / B32
  {
    assert d * p >= 0;
    d * p / B32
  }

  /** The estimate: the true quotient or one more. */
  lemma BigEstimate(n: nat, d: nat)
    requires n < B64 && B32 <= d < B64
    ensures 0 < d / B32 < B32
    ensures var s := Nlz(d / B32);
            var v := d * Pow2(s) % B64 / B32;
            && s <= 31 && 0 < v < B32
            && Quot(n, d) <= Quot(Quot(n / 2, v), Pow2(31 - s)) <= Quot(n, d) + 1
  {
    hide Quot, Rem, Nlz, Pow2;
    BigNoTrap(n, d);
    var s := Nlz(d / B32);
    Pow2Split(s);
    EvenPower(s);
    var v := Leading(d, Pow2(s));
    LeadingBits(d, Pow2(s), Pow2(32 - s), v);
    EstimateFrom(n, d, Pow2(s), Pow2(31 - s), v);
  }

  lemma EstimateFrom(n: nat, d: nat, p: nat, h: nat, v: nat)
    requires p * (2 * h) == B32 && p > 0 && h > 0 && (h == 1 || h >= 2)
    requires v * (2 * h) <= d < v * (2 * h) + 2 * h && B31 <= v && Quot(n / 2, v) < B32
    ensures Quot(n, d) <= Quot(Quot(n / 2, v), h) <= Quot(n, d) + 1
  {
    hide Quot, Rem;
    QuotHalf(n, v, h);
    EstimateBelow(Quot(n / 2, v), p, h);
    ShiftBound(p, 2 * h, v, Quot(n, v * (2 * h)), d);
    EstimateIsClose(n, d, v * (2 * h), 2 * h);
  }

  lemma EvenPower(s: nat)
    requires s <= 31
    ensures Pow2(32 - s) == 2 * Pow2(31 - s) && (Pow2(32 - s) == 2 || Pow2(32 - s) >= 4)
  {
  }

  lemma QuotHalf(n: nat, v: nat, h: nat)
    requires v > 0 && h > 0
    ensures v * (2 * h) > 0 && Quot(Quot(n / 2, v), h) == Quot(n, v * (2 * h))
  {
    QuotTwo(n);
    hide Quot, Rem;
    QuotQuot(n / 2, v, h);
    QuotQuot(n, 2, v * h);
    assert 2 * (v * h) == v * (2 * h);
  }

  lemma QuotTwo(n: nat)
    ensures Quot(n, 2) == n / 2
  {
  }

  lemma EstimateBelow(a: nat, p: nat, h: nat)
    requires a < B32 && h > 0 && p * (2 * h) == B32
    ensures Quot(a, h) < 2 * p
  {
    hide Quot;
    assert 2 * p * h == B32;
    QuotBelow(a, h, 2 * p);
  }

  /** The correction picks the right one of the two. */
  lemma Correction(n: nat, d: nat, q: nat, e: nat)
    requires n < B64 && 0 < d <= n && e * d <= n < (e + 1) * d && (q == e || q == e + 1)
    ensures (if (n - (q - 1) * d) % B64 < d then (q - 1) % B64 else q) == e
  {
    PredMul(e, d);
    PredMul(e + 1, d);
    EstimateSmall(e, d, n);
    CorrectionLinear(n, d, q, e, e * d, (q - 1) * d);
  }

  lemma PredMul(q: int, d: nat)
    ensures (q - 1) * d == q * d - d
  {
  }

  lemma EstimateSmall(e: nat, d: nat, n: nat)
    requires 0 < d <= n < (e + 1) * d && e * d <= n
    ensures 1 <= e <= n && d <= e * d
  {
    assert e == 0 ==> (e + 1) * d == d;
    MulMono(1, d, e);
    MulMono(1, e, d);
  }

  lemma CorrectionLinear(n: nat, d: nat, q: nat, e: nat, ed: nat, y: int)
    requires n < B64 && 0 < d <= ed <= n < ed + d && 1 <= e <= n
    requires (q == e && y == ed - d) || (q == e + 1 && y == ed)
    ensures (if (n - y) % B64 < d then (q - 1) % B64 else q) == e
  {
  }

  lemma BigDivision(n: nat, d: nat)
    requires n < B64 && B32 <= d < B64
    ensures UdivBig(n, d) == Quot(n, d)
  {
    hide Quot, Rem, Nlz, Pow2;
    if n < d {
      QuotUnique(n, d, 0);
    } else {
      BigNoTrap(n, d);
      BigEstimate(n, d);
      QuotRem(n, d);
      var s := Nlz(d / B32);
      Correction(n, d, Quot(Quot(n / 2, d * Pow2(s) % B64 / B32), Pow2(31 - s)), Quot(n, d));
    }
  }

  /** For all 64-bit operands the result is the floor of the quotient; no divide instruction traps. */
  lemma Udiv64IsFloor(n: nat, d: nat)
    requires n < B64 && 0 < d < B64
    ensures Udiv64(n, d) == n / d
  {
    if d / B32 == 0 { SmallDivision(n, d); } else { BigDivision(n, d); }
  }

  // ---------------------------------------------------------------- remainder and signed division

  function Abs(x: int): nat { if x < 0 then -x else x }

  /** The value of a 64-bit (32-bit) pattern read as a signed number. */
  function ToInt64(x: int): int {
    if x % B64 < B63 then x % B64 else x % B64 - B64
  }

  function ToInt32(x: int): int {
    if x % B32 < B31 then x % B32 else x % B32 - B32
  }

  ghost predicate IsInt64(x: int) { -B63 <= x < B63 }

  /** Signed 64-bit quotient. */
  function Sdiv64(n: int, d: int): int
    requires IsInt64(n) && IsInt64(d) && d != 0
  {
    var nAbs := if n >= 0 then n else -n % B64;
    var dAbs := if d >= 0 then d else -d % B64;
    var qAbs := Udiv64(nAbs, dAbs);
    if (n < 0) == (d < 0) then ToInt64(qAbs) else ToInt64(-ToInt64(qAbs))
  }

  /** Signed 64-bit remainder, as the 32 bits the source returns. */
  function Smod64(n: int, d: int): int
    requires IsInt64(n) && IsInt64(d) && d != 0
  {
    ToInt32(n - d * Sdiv64(n, d))
  }

  /** The quotient truncated toward zero, and its remainder: section 6.5.5 of ISO C99. */
  function TruncDiv(n: int, d: int): int
    requires d != 0
  {
    var q: int := Quot(Abs(n), Abs(d));
    if (n < 0) == (d < 0) then q else -q
  }

  function TruncRem(n: int, d: int): int
    requires d != 0
  {
    n - d * TruncDiv(n, d)
  }

  /** The 32-bit result is the true remainder for every dividend if and only if the divisor is at most 2^32. */
  lemma Umod64Exact(d: nat)
    requires 0 < d < B64
    ensures (forall n: nat :: n < B64 ==> Umod64(n, d) == Rem(n, d)) <==> d <= B32
  {
    hide Udiv64, Quot, Rem;
    forall n: nat | n < B64
      ensures Umod64(n, d) == Rem(n, d) % B32
    {
      UmodIsRem(n, d);
    }
    if d <= B32 {
      forall n: nat | n < B64
        ensures Umod64(n, d) == Rem(n, d)
      {
        QuotRem(n, d);
      }
    } else {
      QuotUnique(B32, d, 0);
      QuotRem(B32, d);
      assert Rem(B32, d) == B32;
    }
  }

  lemma UmodIsRem(n: nat, d: nat)
    requires n < B64 && 0 < d < B64
    ensures Umod64(n, d) == Rem(n, d) % B32
  {
    Udiv64IsFloor(n, d);
    assert Udiv64(n, d) == Quot(n, d);
    hide Udiv64, Quot, Rem;
    QuotRem(n, d);
    assert d * Quot(n, d) == Quot(n, d) * d;
  }

  /** Division truncates toward zero on every pair of operands but the one whose quotient does not fit. */
  lemma Sdiv64Truncates(n: int, d: int)
    requires IsInt64(n) && IsInt64(d) && d != 0
    ensures Sdiv64(n, d) == TruncDiv(n, d) <==> !(n == -B63 && d == -1)
  {
    hide Udiv64, Quot, Rem, Sdiv64, ToInt64, IsInt64;
    AbsIs(n);
    AbsIs(d);
    QuotSmall(Abs(n), Abs(d));
    OnlyByOne(Abs(n), Abs(d));
    SdivIs(n, d);
    SignedCases(n, d, Quot(Abs(n), Abs(d)));
  }

  lemma SdivIs(n: int, d: int)
    requires IsInt64(n) && IsInt64(d) && d != 0
    ensures var q := Quot(Abs(n), Abs(d));
            Sdiv64(n, d) == if (n < 0) == (d < 0) then ToInt64(q) else ToInt64(-ToInt64(q))
  {
    hide Udiv64, Quot, Rem, ToInt64;
    AbsIs(n);
    AbsIs(d);
    QuotIs(Abs(n), Abs(d));
  }

  lemma AbsIs(x: int)
    requires IsInt64(x)
    ensures (if x >= 0 then x else -x % B64) == Abs(x) <= B63
  {
  }

  lemma QuotIs(n: nat, d: nat)
    requires n < B64 && 0 < d < B64
    ensures Udiv64(n, d) == Quot(n, d)
  {
    Udiv64IsFloor(n, d);
  }

  /** Applying the sign to an absolute quotient `q`. */
  lemma SignedCases(n: int, d: int, q: nat)
    requires q <= Abs(n) <= B63 && (q >= B63 <==> Abs(n) == B63 && Abs(d) == 1) && IsInt64(n) && IsInt64(d) && d != 0
    ensures var got := if (n < 0) == (d < 0) then ToInt64(q) else ToInt64(-ToInt64(q));
            var want := if (n < 0) == (d < 0) then q as int else -(q as int);
            got == want <==> !(n == -B63 && d == -1)
  {
  }

  /** A quotient as large as 2^63 has that dividend and divisor one. */
  lemma OnlyByOne(a: nat, b: nat)
    requires a <= B63 && b > 0
    ensures Quot(a, b) >= B63 <==> a == B63 && b == 1
  {
    hide Quot, Rem;
    QuotRem(a, b);
    if Quot(a, b) >= B63 && b >= 2 {
      MulMono(2, b, Quot(a, b));
    }
    if b == 1 { QuotUnique(a, 1, a); }
  }

  /** The true remainder is smaller than the divisor and has the sign of the dividend. */
  lemma TruncRemBound(n: int, d: int)
    requires d != 0
    ensures Abs(TruncRem(n, d)) == Rem(Abs(n), Abs(d)) < Abs(d)
    ensures n >= 0 ==> TruncRem(n, d) >= 0
    ensures n <= 0 ==> TruncRem(n, d) <= 0
  {
    hide Quot, Rem;
    QuotRem(Abs(n), Abs(d));
    var q := Quot(Abs(n), Abs(d));
    if d > 0 {
      assert d * q == q * Abs(d) && d * -q == -(q * Abs(d));
    } else {
      assert d * q == -(q * Abs(d)) && d * -q == q * Abs(d);
    }
  }

  lemma SmodIsRem(n: int, d: int)
    requires IsInt64(n) && IsInt64(d) && d != 0
    ensures Smod64(n, d) == ToInt32(TruncRem(n, d))
  {
    Sdiv64Truncates(n, d);
    if n == -B63 && d == -1 {
      Udiv64IsFloor(B63, 1);
      assert Sdiv64(n, d) == -B63;
      assert TruncDiv(n, d) == B63;
      assert n - d * Sdiv64(n, d) == -B64 && TruncRem(n, d) == 0;
    }
  }

  /** The 32-bit result is the true remainder for every dividend if and only if the divisor is at most 2^31
      in absolute value. */
  lemma Smod64Exact(d: int)
    requires IsInt64(d) && d != 0
    ensures (forall n: int :: IsInt64(n) ==> Smod64(n, d) == TruncRem(n, d)) <==> Abs(d) <= B31
  {
    hide Smod64, TruncRem;
    if Abs(d) <= B31 {
      forall n: int | IsInt64(n)
        ensures Smod64(n, d) == TruncRem(n, d)
      {
        SmodIsRem(n, d);
        TruncRemBound(n, d);
      }
    } else {
      SmodIsRem(B31, d);
      BigDivisor(d);
      assert Smod64(B31, d) != TruncRem(B31, d);
    }
  }

  lemma BigDivisor(d: int)
    requires Abs(d) > B31
    ensures TruncRem(B31, d) == B31
  {
    hide Quot;
    QuotUnique(B31, Abs(d), 0);
  }
}
