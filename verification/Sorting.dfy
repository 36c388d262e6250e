/** Heapsort in place and binary search, over any comparison function of the strcmp kind. */
module Sorting {
  import opened Wrappers

  /** The comparison is consistent: the signs of `cmp(a, b)` and `cmp(b, a)` are opposite, and "not greater"
      is transitive. */
  ghost predicate Consistent<T(!new)>(cmp: (T, T) -> int) {
    && (forall a, b :: cmp(a, b) > 0 <==> cmp(b, a) < 0)
    && (forall a, b, c :: cmp(a, b) <= 0 && cmp(b, c) <= 0 ==> cmp(a, c) <= 0)
  }

  ghost predicate Sorted<T(!new)>(s: seq<T>, cmp: (T, T) -> int) {
    forall i, j :: 0 <= i < j < |s| ==> cmp(s[i], s[j]) <= 0
  }

  // ---------------------------------------------------------------- the code, on values

  /** Swaps the elements with 1-based indexes `i` and `j`. */
  function Swap<T>(s: seq<T>, i: nat, j: nat): (r: seq<T>)
    requires 1 <= i <= |s| && 1 <= j <= |s|
    ensures |r| == |s| && multiset(r) == multiset(s)
  {
    s[i - 1 := s[j - 1]][j - 1 := s[i - 1]]
  }

  /** The index of the largest among `i` and its children within the first `cnt` elements. */
  function Largest<T>(s: seq<T>, i: nat, cnt: nat, cmp: (T, T) -> int): (m: nat)
    requires 1 <= i <= cnt <= |s|
    ensures m == i || (m == 2 * i && m <= cnt) || (m == 2 * i + 1 && m <= cnt)
  {
    var left, right := 2 * i, 2 * i + 1;
    var max := if left <= cnt && cmp(s[left - 1], s[i - 1]) > 0 then left else i;
    if right <= cnt && cmp(s[right - 1], s[max - 1]) > 0 then right else max
  }

  /** "Floats down" element `i` of the heap in the first `cnt` elements. */
  function Heapify<T>(s: seq<T>, i: nat, cnt: nat, cmp: (T, T) -> int): (r: seq<T>)
    requires 1 <= i <= cnt <= |s|
    ensures |r| == |s| && multiset(r) == multiset(s)
    decreases cnt - i
  {
    var max := Largest(s, i, cnt, cmp);
    if max == i then s else Heapify(Swap(s, i, max), max, cnt, cmp)
  }

  lemma HeapifyTurn<T>(s: seq<T>, i: nat, cnt: nat, cmp: (T, T) -> int)
    requires 1 <= i <= cnt <= |s|
    ensures var max := Largest(s, i, cnt, cmp);
            Heapify(s, i, cnt, cmp) == if max == i then s else Heapify(Swap(s, i, max), max, cnt, cmp)
  {
  }

  // ---------------------------------------------------------------- heaps

  /** Parent `p` is not smaller than its children within `cnt`. */
  ghost predicate ParentOk<T(!new)>(s: seq<T>, p: nat, cnt: nat, cmp: (T, T) -> int)
    requires 1 <= p <= cnt <= |s|
  {
    && (2 * p <= cnt ==> cmp(s[2 * p - 1], s[p - 1]) <= 0)
    && (2 * p + 1 <= cnt ==> cmp(s[2 * p], s[p - 1]) <= 0)
  }

  /** Every parent from `lo` on is in order. */
  ghost predicate HeapFrom<T(!new)>(s: seq<T>, lo: nat, cnt: nat, cmp: (T, T) -> int)
    requires cnt <= |s|
  {
    forall p :: 1 <= p <= cnt && lo <= p ==> ParentOk(s, p, cnt, cmp)
  }

  /** Every parent from `lo` on except `i` is in order, and `i`'s own parent bounds `i`'s children. */
  ghost predicate HeapExcept<T(!new)>(s: seq<T>, lo: nat, i: nat, cnt: nat, cmp: (T, T) -> int)
    requires 1 <= i <= cnt <= |s|
  {
    && (forall p :: 1 <= p <= cnt && lo <= p && p != i ==> ParentOk(s, p, cnt, cmp))
    && (1 <= lo <= i / 2 ==>
          && (2 * i <= cnt ==> cmp(s[2 * i - 1], s[i / 2 - 1]) <= 0)
          && (2 * i + 1 <= cnt ==> cmp(s[2 * i], s[i / 2 - 1]) <= 0))
  }

  lemma Trans<T(!new)>(cmp: (T, T) -> int, a: T, b: T, c: T)
    requires Consistent(cmp) && cmp(a, b) <= 0 && cmp(b, c) <= 0
    ensures cmp(a, c) <= 0
  {
  }

  lemma Flip<T(!new)>(cmp: (T, T) -> int, a: T, b: T)
    requires Consistent(cmp)
    ensures cmp(a, b) > 0 <==> cmp(b, a) < 0
    ensures cmp(a, a) == 0
  {
  }

  /** The largest is not smaller than the parent and both children. */
  lemma LargestBounds<T(!new)>(s: seq<T>, i: nat, cnt: nat, cmp: (T, T) -> int)
    requires Consistent(cmp) && 1 <= i <= cnt <= |s|
    ensures var m := Largest(s, i, cnt, cmp);
            && cmp(s[i - 1], s[m - 1]) <= 0
            && (2 * i <= cnt ==> cmp(s[2 * i - 1], s[m - 1]) <= 0)
            && (2 * i + 1 <= cnt ==> cmp(s[2 * i], s[m - 1]) <= 0)
  {
    hide Consistent;
    Flip(cmp, s[i - 1], s[i - 1]);
    if 2 * i <= cnt {
      var l := s[2 * i - 1];
      Flip(cmp, l, s[i - 1]);
      Flip(cmp, l, l);
      if 2 * i + 1 <= cnt {
        var r := s[2 * i];
        Flip(cmp, r, r);
        Flip(cmp, r, l);
        Flip(cmp, r, s[i - 1]);
        if cmp(l, s[i - 1]) > 0 && cmp(r, l) > 0 { Trans(cmp, s[i - 1], l, r); }
        if cmp(l, s[i - 1]) <= 0 && cmp(r, s[i - 1]) > 0 { Trans(cmp, l, s[i - 1], r); }
      }
    }
  }

  /** One swap moves the exception down. */
  lemma SwapDown<T(!new)>(s: seq<T>, lo: nat, i: nat, cnt: nat, cmp: (T, T) -> int)
    requires Consistent(cmp) && 1 <= lo <= i <= cnt <= |s| && HeapExcept(s, lo, i, cnt, cmp)
    requires Largest(s, i, cnt, cmp) != i
    ensures var m := Largest(s, i, cnt, cmp); HeapExcept(Swap(s, i, m), lo, m, cnt, cmp)
  {
    hide Consistent;
    LargestBounds(s, i, cnt, cmp);
    var m := Largest(s, i, cnt, cmp);
    var t := Swap(s, i, m);
    assert m / 2 == i;
    forall p | 1 <= p <= cnt && lo <= p && p != m
      ensures ParentOk(t, p, cnt, cmp)
    {
      if p != i { assert ParentOk(s, p, cnt, cmp); }
    }
    assert ParentOk(s, m, cnt, cmp);
  }

  /** Floating down restores the heap from `lo` on and touches nothing before `i` or after `cnt`. */
  lemma {:induction false} HeapifyRestores<T(!new)>(s: seq<T>, lo: nat, i: nat, cnt: nat, cmp: (T, T) -> int)
    requires Consistent(cmp) && 1 <= lo <= i <= cnt <= |s| && HeapExcept(s, lo, i, cnt, cmp)
    ensures var r := Heapify(s, i, cnt, cmp);
            && HeapFrom(r, lo, cnt, cmp) && multiset(r[..cnt]) == multiset(s[..cnt])
            && (forall k :: 0 <= k < |s| && (k < i - 1 || cnt <= k) ==> r[k] == s[k])
    decreases cnt - i
  {
    hide Consistent;
    LargestBounds(s, i, cnt, cmp);
    var m := Largest(s, i, cnt, cmp);
    if m == i {
      assert ParentOk(s, i, cnt, cmp);
    } else {
      SwapDown(s, lo, i, cnt, cmp);
      var t := Swap(s, i, m);
      assert t[..cnt] == Swap(s[..cnt], i, m);
      HeapifyRestores(t, lo, m, cnt, cmp);
    }
  }

  /** The root of a heap is its largest element. */
  lemma {:induction false} RootIsLargest<T(!new)>(s: seq<T>, cnt: nat, k: nat, cmp: (T, T) -> int)
    requires Consistent(cmp) && 1 <= k <= cnt <= |s| && HeapFrom(s, 1, cnt, cmp)
    ensures cmp(s[k - 1], s[0]) <= 0
    decreases k
  {
    hide Consistent;
    if k == 1 {
      Flip(cmp, s[0], s[0]);
    } else {
      assert ParentOk(s, k / 2, cnt, cmp);
      RootIsLargest(s, cnt, k / 2, cmp);
      Trans(cmp, s[k - 1], s[k / 2 - 1], s[0]);
    }
  }

  // ---------------------------------------------------------------- the source's form

  method DoSwap<T>(a: array<T>, i: nat, j: nat)
    requires 1 <= i <= a.Length && 1 <= j <= a.Length
    modifies a
    ensures a[..] == Swap(old(a[..]), i, j)
  {
    a[i - 1], a[j - 1] := a[j - 1], a[i - 1];
  }

  method FloatDown<T>(a: array<T>, start: nat, cnt: nat, cmp: (T, T) -> int)
    requires 1 <= start <= cnt <= a.Length
    modifies a
    ensures a[..] == Heapify(old(a[..]), start, cnt, cmp)
  {
    hide Heapify;
    var i := start;
    ghost var goal := Heapify(a[..], start, cnt, cmp);
    while true
      invariant start <= i <= cnt && Heapify(a[..], i, cnt, cmp) == goal
      decreases cnt - i
    {
      var left, right, max := 2 * i, 2 * i + 1, i;
      if left <= cnt && cmp(a[left - 1], a[max - 1]) > 0 { max := left; }
      if right <= cnt && cmp(a[right - 1], a[max - 1]) > 0 { max := right; }
      assert max == Largest(a[..], i, cnt, cmp);
      HeapifyTurn(a[..], i, cnt, cmp);
      if max == i { break; }
      DoSwap(a, i, max);
      i := max;
    }
  }

  /** The first `n` elements are a heap; the rest is sorted and not smaller than any of the first. */
  ghost predicate Split<T(!new)>(s: seq<T>, n: nat, cmp: (T, T) -> int)
    requires n <= |s|
  {
    && HeapFrom(s, 1, n, cmp) && Sorted(s[n..], cmp)
    && forall i, j :: 0 <= i < n <= j < |s| ==> cmp(s[i], s[j]) <= 0
  }

  /** With the root swapped out, what is left is a heap but for its root. */
  lemma RootOut<T(!new)>(s: seq<T>, n: nat, cmp: (T, T) -> int)
    requires 2 <= n <= |s| && HeapFrom(s, 1, n, cmp)
    ensures HeapExcept(Swap(s, 1, n), 1, 1, n - 1, cmp)
  {
    var t, cnt := Swap(s, 1, n), n - 1;
    forall p | 1 <= p <= cnt && p != 1
      ensures ParentOk(t, p, cnt, cmp)
    {
      assert ParentOk(s, p, n, cmp);
    }
  }

  /** Moving the root behind the heap and floating its replacement down extends the sorted part. */
  lemma ExtractMax<T(!new)>(s: seq<T>, n: nat, cmp: (T, T) -> int)
    requires Consistent(cmp) && 2 <= n <= |s| && Split(s, n, cmp)
    ensures Split(Heapify(Swap(s, 1, n), 1, n - 1, cmp), n - 1, cmp)
  {
    hide Consistent, HeapFrom, HeapExcept, Heapify, Sorted;
    RootOut(s, n, cmp);
    var t := Swap(s, 1, n);
    HeapifyRestores(t, 1, 1, n - 1, cmp);
    var r := Heapify(t, 1, n - 1, cmp);
    TailSorted(s, t, n, cmp);
    assert r[n - 1..] == t[n - 1..];
    forall i, j | 0 <= i < n - 1 <= j < |r|
      ensures cmp(r[i], r[j]) <= 0
    {
      FromHeap(s, t, r, n, i);
      var k :| 0 <= k < n && s[k] == r[i];
      if j == n - 1 {
        RootIsLargest(s, n, k + 1, cmp);
      } else {
        assert r[j] == s[j];
      }
    }
  }

  lemma TailSorted<T(!new)>(s: seq<T>, t: seq<T>, n: nat, cmp: (T, T) -> int)
    requires 2 <= n <= |s| && Split(s, n, cmp) && t == Swap(s, 1, n)
    ensures Sorted(t[n - 1..], cmp)
  {
    var u := t[n - 1..];
    forall i, j | 0 <= i < j < |u|
      ensures cmp(u[i], u[j]) <= 0
    {
      assert u[j] == s[n - 1 + j];
      if i > 0 { assert u[i] == s[n..][i - 1] && u[j] == s[n..][j - 1]; }
    }
  }

  /** An element of the new heap was an element of the old one. */
  lemma FromHeap<T(!new)>(s: seq<T>, t: seq<T>, r: seq<T>, n: nat, i: nat)
    requires 2 <= n <= |s| && t == Swap(s, 1, n) && |r| == |s| && i < n - 1
    requires multiset(r[..n - 1]) == multiset(t[..n - 1])
    ensures exists k :: 0 <= k < n && s[k] == r[i]
  {
    assert r[i] in multiset(r[..n - 1]) by { assert r[..n - 1][i] == r[i]; }
    assert r[i] in t[..n - 1];
    var k :| 0 <= k < n - 1 && t[k] == r[i];
    if k == 0 { assert s[n - 1] == r[i]; } else { assert s[k] == r[i]; }
  }

  /** Heapsort: for any consistent comparison the result is a sorted permutation of the input. */
  method Sort<T(!new)>(a: array<T>, cmp: (T, T) -> int)
    requires Consistent(cmp)
    modifies a
    ensures Sorted(a[..], cmp) && multiset(a[..]) == multiset(old(a[..]))
  {
    var cnt := a.Length;
    var i := cnt / 2;
    while i > 0
      invariant 0 <= i <= cnt / 2 && HeapFrom(a[..], i + 1, cnt, cmp)
      invariant multiset(a[..]) == multiset(old(a[..]))
    {
      HeapifyRestores(a[..], i, i, cnt, cmp);
      FloatDown(a, i, cnt, cmp);
      i := i - 1;
    }
    i := cnt;
    while i > 1
      invariant 0 <= i <= cnt && Split(a[..], i, cmp)
      invariant multiset(a[..]) == multiset(old(a[..]))
    {
      ExtractMax(a[..], i, cmp);
      DoSwap(a, 1, i);
      FloatDown(a, 1, i - 1, cmp);
      i := i - 1;
    }
    SplitIsSorted(a[..], i, cmp);
  }

  lemma SplitIsSorted<T(!new)>(s: seq<T>, n: nat, cmp: (T, T) -> int)
    requires n <= 1 && n <= |s| && Split(s, n, cmp)
    ensures Sorted(s, cmp)
  {
    forall i, j | 0 <= i < j < |s|
      ensures cmp(s[i], s[j]) <= 0
    {
      if n <= i { assert s[n..][i - n] == s[i] && s[n..][j - n] == s[j]; }
    }
  }

  /** Binary search of a sorted array: an element equal to the key if and only if there is one. */
  method BinarySearch<T(!new)>(key: T, a: array<T>, cmp: (T, T) -> int) returns (r: Option<nat>)
    requires Consistent(cmp) && Sorted(a[..], cmp)
    ensures r.Some? ==> r.value < a.Length && cmp(key, a[r.value]) == 0
    ensures r.Some? <==> exists k :: 0 <= k < a.Length && cmp(key, a[k]) == 0
  {
    var first, last := 0, a.Length;
    while first < last
      invariant 0 <= first <= last <= a.Length
      invariant forall k :: 0 <= k < first ==> cmp(key, a[k]) > 0
      invariant forall k :: last <= k < a.Length ==> cmp(key, a[k]) < 0
    {
      var middle := first + (last - first) / 2;
      var c := cmp(key, a[middle]);
      if c < 0 {
        forall k | middle <= k < a.Length
          ensures cmp(key, a[k]) < 0
        {
          Below(key, a[..], middle, k, cmp);
        }
        last := middle;
      } else if c > 0 {
        forall k | 0 <= k <= middle
          ensures cmp(key, a[k]) > 0
        {
          Above(key, a[..], middle, k, cmp);
        }
        first := middle + 1;
      } else {
        return Some(middle);
      }
    }
    return None;
  }

  lemma Below<T(!new)>(key: T, s: seq<T>, m: nat, k: nat, cmp: (T, T) -> int)
    requires Consistent(cmp) && Sorted(s, cmp) && m <= k < |s| && cmp(key, s[m]) < 0
    ensures cmp(key, s[k]) < 0
  {
    hide Consistent;
    Flip(cmp, key, s[k]);
    Flip(cmp, s[k], key);
    Flip(cmp, key, s[m]);
    Flip(cmp, s[m], key);
    if m < k && cmp(key, s[k]) >= 0 { Trans(cmp, s[m], s[k], key); }
  }

  lemma Above<T(!new)>(key: T, s: seq<T>, m: nat, k: nat, cmp: (T, T) -> int)
    requires Consistent(cmp) && Sorted(s, cmp) && k <= m < |s| && cmp(key, s[m]) > 0
    ensures cmp(key, s[k]) > 0
  {
    hide Consistent;
    if k < m && cmp(key, s[k]) <= 0 { Trans(cmp, key, s[k], s[m]); }
  }
}
