/** A chained hash table that changes its number of buckets as it grows and shrinks. */
module HashModel {
  import opened Bits

  /** Whatever the table holds. */
  type Elem(==, !new)
  type Hasher = Elem -> nat
  type Less = (Elem, Elem) -> bool

  const MIN_BUCKETS := 4
  const BEST_ELEMS_PER_BUCKET := 2

  // ---------------------------------------------------------------- masks and powers of two

  /** `x & (x - 1)`. */
  function TurnOffLeast(x: nat): nat
    requires x > 0
  {
    And(x, x - 1)
  }

  predicate IsPowerOf2(x: nat) {
    x != 0 && TurnOffLeast(x) == 0
  }

  lemma {:induction false} AndSelf(x: nat)
    ensures And(x, x) == x
  {
    if x > 0 { AndSelf(x / 2); }
  }

  /** Masking with one less than a power of two is the remainder by it. */
  lemma {:induction false} AndMask(x: nat, k: nat)
    ensures And(x, Pow2(k) - 1) == x % Pow2(k)
    decreases k
  {
    if k == 0 {
      AndZero(x);
    } else {
      var p := Pow2(k - 1);
      assert Pow2(k) == 2 * p;
      AndMask(x / 2, k - 1);
      hide Pow2;
      MaskStep(x, p);
    }
  }

  lemma AndOdd(x: nat, y: nat)
    requires y % 2 == 1
    ensures And(x, y) == 2 * And(x / 2, y / 2) + x % 2
  {
  }

  lemma OddHalf(p: nat)
    requires p > 0
    ensures (2 * p - 1) / 2 == p - 1 && (2 * p - 1) % 2 == 1
  {
  }

  lemma MaskStep(x: nat, p: nat)
    requires p > 0 && And(x / 2, p - 1) == (x / 2) % p
    ensures And(x, 2 * p - 1) == x % (2 * p)
  {
    hide And;
    OddHalf(p);
    AndOdd(x, 2 * p - 1);
    HalfRem(x, p);
  }

  lemma HalfRem(x: nat, p: nat)
    requires p > 0
    ensures x % (2 * p) == 2 * ((x / 2) % p) + x % 2
  {
    var h := x / 2;
    var q, r := h / p, h % p;
    DivMod(h, p);
    assert x == (2 * p) * q + (2 * r + x % 2) by { assert (2 * p) * q == 2 * (p * q); }
    ModIs(x, 2 * p, q, 2 * r + x % 2);
  }

  lemma DivMod(h: nat, p: nat)
    requires p > 0
    ensures h == p * (h / p) + h % p && h % p < p
  {
  }

  lemma ModIs(x: nat, d: nat, q: nat, r: nat)
    requires d > 0 && x == d * q + r && r < d
    ensures x % d == r
  {
    var e := x / d;
    assert e < q ==> d * (e + 1) <= d * q;
    assert e > q ==> d * e >= d * (q + 1);
  }

  /** Turning off the lowest bit keeps the highest, except in a power of two. */
  lemma {:induction false} TurnOffKeepsTop(x: nat, k: nat)
    requires Pow2(k) <= x < 2 * Pow2(k)
    ensures TurnOffLeast(x) < x
    ensures TurnOffLeast(x) == 0 <==> x == Pow2(k)
    ensures x != Pow2(k) ==> Pow2(k) <= TurnOffLeast(x)
    decreases k
  {
    if x % 2 == 1 {
      AndSelf(x / 2);
      assert (x - 1) / 2 == x / 2;
      assert And(x, x - 1) == x - 1;
      if k > 0 { assert Pow2(k) == 2 * Pow2(k - 1); }
    } else {
      assert k > 0;
      assert (x - 1) / 2 == x / 2 - 1;
      assert And(x, x - 1) == 2 * And(x / 2, x / 2 - 1);
      TurnOffKeepsTop(x / 2, k - 1);
    }
  }

  /** The highest bit of `x`. */
  lemma {:induction false} TopBit(x: nat) returns (k: nat)
    requires x > 0
    ensures Pow2(k) <= x < 2 * Pow2(k)
    decreases x
  {
    if x == 1 {
      k := 0;
    } else {
      k := TopBit(x / 2);
      k := k + 1;
    }
  }

  function IdealBuckets(n: nat): nat {
    if n / BEST_ELEMS_PER_BUCKET < MIN_BUCKETS then MIN_BUCKETS else n / BEST_ELEMS_PER_BUCKET
  }

  /** The number of buckets for `n` elements: the largest power of two that is no more than the ideal. */
  method BucketCount(n: nat) returns (p: nat, ghost k: nat)
    ensures p == Pow2(k) && p >= MIN_BUCKETS
    ensures p <= IdealBuckets(n) < 2 * p
  {
    p := n / BEST_ELEMS_PER_BUCKET;
    if p < MIN_BUCKETS {
      p := MIN_BUCKETS;
    }
    ghost var ideal := p;
    k := TopBit(p);
    while !IsPowerOf2(p)
      invariant Pow2(k) <= p <= ideal < 2 * Pow2(k)
      decreases p
    {
      TurnOffKeepsTop(p, k);
      p := TurnOffLeast(p);
    }
    TurnOffKeepsTop(p, k);
    AtLeastFour(k, ideal);
  }

  lemma AtLeastFour(k: nat, ideal: nat)
    requires Pow2(k) <= ideal < 2 * Pow2(k) && ideal >= 4
    ensures Pow2(k) >= 4
  {
    assert Pow2(0) == 1 && Pow2(1) == 2;
    if k >= 2 { Pow2Monotone(2, k); assert Pow2(2) == 4; }
  }

  // ---------------------------------------------------------------- contents

  predicate Same(less: Less, x: Elem, y: Elem) {
    !less(x, y) && !less(y, x)
  }

  /** What the table asks of its two functions: that elements are equal is an equivalence, and equal elements have
      equal hashes. */
  ghost predicate Lawful(hash: Hasher, less: Less) {
    && (forall x :: !less(x, x))
    && (forall x, y, z :: Same(less, x, y) && Same(less, y, z) ==> Same(less, x, z))
    && (forall x, y :: Same(less, x, y) ==> hash(x) == hash(y))
  }

  /** The elements of all buckets, counted. */
  function Elements(b: seq<seq<Elem>>): multiset<Elem> {
    if b == [] then multiset{} else Elements(b[..|b| - 1]) + multiset(b[|b| - 1])
  }

  lemma {:induction false} ElementsUpdate(b: seq<seq<Elem>>, i: nat, q: seq<Elem>)
    requires i < |b|
    ensures Elements(b[i := q]) + multiset(b[i]) == Elements(b) + multiset(q)
    decreases |b|
  {
    var n := |b| - 1;
    var c := b[i := q];
    ElementsLast(b);
    ElementsLast(c);
    hide Elements;
    if i == n {
      assert c[..n] == b[..n];
    } else {
      assert c[..n] == b[..n][i := q];
      ElementsUpdate(b[..n], i, q);
      AddBoth(Elements(c[..n]), multiset(b[i]), Elements(b[..n]), multiset(q), multiset(b[n]));
    }
  }

  lemma ElementsLast(b: seq<seq<Elem>>)
    requires b != []
    ensures Elements(b) == Elements(b[..|b| - 1]) + multiset(b[|b| - 1])
  {
  }

  lemma AddBoth(a: multiset<Elem>, b: multiset<Elem>, c: multiset<Elem>, d: multiset<Elem>, e: multiset<Elem>)
    requires a + b == c + d
    ensures (a + e) + b == (c + e) + d
  {
    assert (a + e) + b == (a + b) + e;
    assert (c + e) + d == (c + d) + e;
  }

  lemma {:induction false} InElements(b: seq<seq<Elem>>, x: Elem)
    ensures x in Elements(b) <==> exists i :: 0 <= i < |b| && x in b[i]
    decreases |b|
  {
    if b != [] {
      var n := |b| - 1;
      InElements(b[..n], x);
      if x in Elements(b[..n]) {
        var i :| 0 <= i < n && x in b[..n][i];
        assert x in b[i];
      }
      assert x in multiset(b[n]) <==> x in b[n];
      if i :| 0 <= i < |b| && x in b[i] {
        assert i < n ==> x in b[..n][i];
      }
    }
  }

  /** Each element is in the bucket of its hash. */
  ghost predicate InPlace(hash: Hasher, b: seq<seq<Elem>>) {
    forall i, x :: 0 <= i < |b| && x in b[i] ==> hash(x) % |b| == i
  }

  /** The elements are pairwise different as the order sees them. */
  ghost predicate AllDiffer(less: Less, s: set<Elem>) {
    forall x, y :: x in s && y in s && Same(less, x, y) ==> x == y
  }

  lemma InBucket(hash: Hasher, b: seq<seq<Elem>>, x: Elem)
    requires b != [] && InPlace(hash, b)
    ensures x in Elements(b) <==> x in b[hash(x) % |b|]
  {
    InElements(b, x);
    if x in Elements(b) {
      var i :| 0 <= i < |b| && x in b[i];
      assert i == hash(x) % |b|;
    }
  }
}
