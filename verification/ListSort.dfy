/** Natural merge sort, on the sequence of a list's elements. */
module ListSort {
  /** An element's place in its list; what it is part of is seen only through the comparison function. */
  class Node {
    var prev: Node?
    var next: Node?
    constructor ()
      ensures prev == null && next == null
    {
      prev, next := null, null;
    }
  }

  type Compare = (Node, Node) -> bool

  /** `x` may stand before `y`. */
  predicate Le(less: Compare, x: Node, y: Node) {
    !less(y, x)
  }

  /** A strict weak order on the nodes of `u`: asymmetric, and incomparability and order compose. */
  ghost predicate StrictWeak(less: Compare, u: set<Node>) {
    && (forall x, y :: x in u && y in u && less(x, y) ==> Le(less, x, y))
    && (forall x, y, z :: x in u && y in u && z in u && Le(less, x, y) && Le(less, y, z) ==> Le(less, x, z))
  }

  ghost predicate Within(s: seq<Node>, u: set<Node>) {
    forall i :: 0 <= i < |s| ==> s[i] in u
  }

  /** What `is_sorted` tests: each element against its predecessor. */
  ghost predicate Ascending(less: Compare, s: seq<Node>) {
    forall i :: 0 < i < |s| ==> Le(less, s[i - 1], s[i])
  }

  ghost predicate Sorted(less: Compare, s: seq<Node>) {
    forall i, j :: 0 <= i < j < |s| ==> Le(less, s[i], s[j])
  }

  lemma {:induction false} AscendingAt(less: Compare, u: set<Node>, s: seq<Node>, i: nat, j: nat)
    requires StrictWeak(less, u) && Within(s, u) && Ascending(less, s) && i < j < |s|
    ensures Le(less, s[i], s[j])
    decreases j
  {
    hide Le;
    assert Le(less, s[j - 1], s[j]);
    if i < j - 1 {
      AscendingAt(less, u, s, i, j - 1);
      assert s[i] in u && s[j - 1] in u && s[j] in u;
    }
  }

  lemma AscendingSorted(less: Compare, u: set<Node>, s: seq<Node>)
    requires StrictWeak(less, u) && Within(s, u) && Ascending(less, s)
    ensures Sorted(less, s)
  {
    forall i, j | 0 <= i < j < |s| ensures Le(less, s[i], s[j]) { AscendingAt(less, u, s, i, j); }
  }

  // ---------------------------------------------------------------- the algorithm, on sequences

  /** The length of the ascending run at the front. */
  function RunLength(less: Compare, s: seq<Node>): (n: nat)
    requires s != []
    ensures 0 < n <= |s|
  {
    if |s| == 1 || less(s[1], s[0]) then 1 else 1 + RunLength(less, s[1..])
  }

  function Merge(less: Compare, a: seq<Node>, b: seq<Node>): (r: seq<Node>)
    ensures |r| == |a| + |b|
    decreases |a| + |b|
  {
    if a == [] then b
    else if b == [] then a
    else if !less(b[0], a[0]) then [a[0]] + Merge(less, a[1..], b)
    else [b[0]] + Merge(less, a, b[1..])
  }

  /** The run at the front, and what follows it. */
  function FrontRun(less: Compare, s: seq<Node>): seq<Node>
    requires s != []
  {
    s[..RunLength(less, s)]
  }

  function AfterRun(less: Compare, s: seq<Node>): (r: seq<Node>)
    requires s != []
    ensures |r| < |s|
  {
    s[RunLength(less, s)..]
  }

  /** One pass: adjacent runs merged in pairs. */
  function Pass(less: Compare, s: seq<Node>): seq<Node>
    decreases |s|
  {
    if s == [] then []
    else
      var t := AfterRun(less, s);
      if t == [] then s else Merge(less, FrontRun(less, s), FrontRun(less, t)) + Pass(less, AfterRun(less, t))
  }

  /** The number of runs that a pass puts out. */
  function PassRuns(less: Compare, s: seq<Node>): nat
    decreases |s|
  {
    if s == [] then 0
    else
      var t := AfterRun(less, s);
      if t == [] then 1 else 1 + PassRuns(less, AfterRun(less, t))
  }

  /** The number of maximal ascending runs. */
  function Runs(less: Compare, s: seq<Node>): nat
    decreases |s|
  {
    if s == [] then 0 else 1 + Runs(less, AfterRun(less, s))
  }

  // ---------------------------------------------------------------- runs and merges

  lemma {:induction false} RunAscending(less: Compare, s: seq<Node>)
    requires s != []
    ensures Ascending(less, s[..RunLength(less, s)])
    decreases |s|
  {
    var n := RunLength(less, s);
    if n > 1 {
      RunAscending(less, s[1..]);
      var run, rest := s[..n], s[1..][..n - 1];
      forall i | 0 < i < n ensures Le(less, run[i - 1], run[i]) {
        if i > 1 { assert Le(less, rest[i - 2], rest[i - 1]); }
      }
    }
  }

  lemma ConsAscending(less: Compare, x: Node, s: seq<Node>)
    requires Ascending(less, s) && (s != [] ==> Le(less, x, s[0]))
    ensures Ascending(less, [x] + s)
  {
    var r := [x] + s;
    forall i | 0 < i < |r| ensures Le(less, r[i - 1], r[i]) {
      if i > 1 { assert Le(less, s[i - 2], s[i - 1]); }
    }
  }

  lemma TailAscending(less: Compare, s: seq<Node>)
    requires Ascending(less, s) && s != []
    ensures Ascending(less, s[1..]) && (|s| > 1 ==> Le(less, s[0], s[1..][0]))
  {
    var t := s[1..];
    assert |s| > 1 ==> Le(less, s[1 - 1], s[1]);
    forall i | 0 < i < |t| ensures Le(less, t[i - 1], t[i]) { assert Le(less, s[i + 1 - 1], s[i + 1]); }
  }

  lemma MergeHead(less: Compare, a: seq<Node>, b: seq<Node>)
    requires a != [] || b != []
    ensures var m := Merge(less, a, b);
            m != [] && ((a != [] && m[0] == a[0]) || (b != [] && m[0] == b[0]))
  {
  }

  lemma {:induction false} MergeAscending(less: Compare, u: set<Node>, a: seq<Node>, b: seq<Node>)
    requires StrictWeak(less, u) && Within(a, u) && Within(b, u) && Ascending(less, a) && Ascending(less, b)
    ensures Ascending(less, Merge(less, a, b))
    decreases |a| + |b|
  {
    hide Ascending;
    if a != [] && b != [] {
      assert a[0] in u && b[0] in u;
      if !less(b[0], a[0]) {
        TailAscending(less, a);
        MergeAscending(less, u, a[1..], b);
        MergeHead(less, a[1..], b);
        ConsAscending(less, a[0], Merge(less, a[1..], b));
      } else {
        TailAscending(less, b);
        MergeAscending(less, u, a, b[1..]);
        MergeHead(less, a, b[1..]);
        ConsAscending(less, b[0], Merge(less, a, b[1..]));
      }
    }
  }

  lemma {:induction false} MergeElements(less: Compare, a: seq<Node>, b: seq<Node>)
    ensures multiset(Merge(less, a, b)) == multiset(a) + multiset(b)
    decreases |a| + |b|
  {
    if a != [] && b != [] {
      if !less(b[0], a[0]) {
        assert a == [a[0]] + a[1..];
        MergeElements(less, a[1..], b);
      } else {
        assert b == [b[0]] + b[1..];
        MergeElements(less, a, b[1..]);
      }
    }
  }

  // ---------------------------------------------------------------- stability

  predicate Same(less: Compare, x: Node, y: Node) {
    !less(x, y) && !less(y, x)
  }

  /** The elements that the order does not tell from `x`, in their order in `s`. */
  function Equals(less: Compare, x: Node, s: seq<Node>): seq<Node> {
    if s == [] then []
    else (if Same(less, x, s[0]) then [s[0]] else []) + Equals(less, x, s[1..])
  }

  lemma {:induction false} EqualsConcat(less: Compare, x: Node, s: seq<Node>, t: seq<Node>)
    ensures Equals(less, x, s + t) == Equals(less, x, s) + Equals(less, x, t)
    decreases |s|
  {
    if s == [] {
      assert s + t == t;
    } else {
      EqualsConcat(less, x, s[1..], t);
      assert s + t == [s[0]] + (s[1..] + t) && s == [s[0]] + s[1..];
      ConsEquals(less, x, s[0], s[1..] + t);
      ConsEquals(less, x, s[0], s[1..]);
      hide Equals;
    }
  }

  lemma {:induction false} NoEquals(less: Compare, x: Node, s: seq<Node>)
    requires forall i :: 0 <= i < |s| ==> !Same(less, x, s[i])
    ensures Equals(less, x, s) == []
    decreases |s|
  {
    if s != [] {
      assert forall i :: 0 <= i < |s| - 1 ==> s[1..][i] == s[i + 1];
      NoEquals(less, x, s[1..]);
    }
  }

  /** Everything in a sorted run whose head is above `y` is above `y`, so nothing in it equals what equals `y`. */
  lemma AboveNotSame(less: Compare, u: set<Node>, x: Node, y: Node, a: seq<Node>)
    requires StrictWeak(less, u) && x in u && y in u && Within(a, u) && Ascending(less, a)
    requires a != [] && less(y, a[0]) && Same(less, x, y)
    ensures Equals(less, x, a) == []
  {
    forall i | 0 <= i < |a| ensures !Same(less, x, a[i]) {
      if i > 0 { AscendingAt(less, u, a, 0, i); }
      AboveStep(less, u, x, y, a[0], a[i]);
    }
    NoEquals(less, x, a);
  }

  lemma AboveStep(less: Compare, u: set<Node>, x: Node, y: Node, head: Node, z: Node)
    requires StrictWeak(less, u) && x in u && y in u && head in u && z in u
    requires less(y, head) && Same(less, x, y) && (z == head || Le(less, head, z))
    ensures !Same(less, x, z)
  {
    assert Le(less, x, y);
    assert Same(less, x, z) ==> Le(less, z, x) && Le(less, z, y);
  }

  /** Merging keeps equal elements in order: those of the first run before those of the second. */
  lemma {:induction false} MergeStable(less: Compare, u: set<Node>, x: Node, a: seq<Node>, b: seq<Node>)
    requires StrictWeak(less, u) && x in u && Within(a, u) && Within(b, u)
    requires Ascending(less, a) && Ascending(less, b)
    ensures Equals(less, x, Merge(less, a, b)) == Equals(less, x, a) + Equals(less, x, b)
    decreases |a| + |b|
  {
    hide Ascending, StrictWeak, Same, Equals;
    if a != [] && b != [] {
      if !less(b[0], a[0]) {
        TailAscending(less, a);
        MergeStable(less, u, x, a[1..], b);
        MergeTakes(less, a, b);
        assert a == [a[0]] + a[1..];
        ConsEquals(less, x, a[0], Merge(less, a[1..], b));
        ConsEquals(less, x, a[0], a[1..]);
      } else {
        TailAscending(less, b);
        MergeStable(less, u, x, a, b[1..]);
        MergeTakes(less, a, b);
        assert b == [b[0]] + b[1..];
        ConsEquals(less, x, b[0], Merge(less, a, b[1..]));
        ConsEquals(less, x, b[0], b[1..]);
        if Same(less, x, b[0]) {
          assert b[0] in u;
          AboveNotSame(less, u, x, b[0], a);
        }
      }
    } else {
      NoneEqual(less, x);
    }
  }

  lemma NoneEqual(less: Compare, x: Node)
    ensures Equals(less, x, []) == []
  {
  }

  lemma MergeTakes(less: Compare, a: seq<Node>, b: seq<Node>)
    requires a != [] && b != []
    ensures Merge(less, a, b) == if !less(b[0], a[0]) then [a[0]] + Merge(less, a[1..], b)
                                 else [b[0]] + Merge(less, a, b[1..])
  {
  }

  lemma ConsEquals(less: Compare, x: Node, y: Node, s: seq<Node>)
    ensures Equals(less, x, [y] + s) == (if Same(less, x, y) then [y] else []) + Equals(less, x, s)
  {
    assert ([y] + s)[1..] == s;
  }

  // ---------------------------------------------------------------- passes

  lemma WithinElements(s: seq<Node>, t: seq<Node>, u: set<Node>)
    requires Within(s, u) && multiset(t) == multiset(s)
    ensures Within(t, u)
  {
    forall i | 0 <= i < |t| ensures t[i] in u {
      assert t[i] in multiset(t);
      assert t[i] in s;
    }
  }

  /** The two runs that a pass merges first, and the rest. */
  lemma FirstPair(less: Compare, s: seq<Node>)
    requires s != [] && RunLength(less, s) < |s|
    ensures var n := RunLength(less, s);
            var m := RunLength(less, s[n..]);
            && 0 < n && 0 < m && n + m <= |s|
            && s == s[..n] + s[n..n + m] + s[n + m..]
            && Ascending(less, s[..n]) && Ascending(less, s[n..n + m])
            && Pass(less, s) == Merge(less, s[..n], s[n..n + m]) + Pass(less, s[n + m..])
            && PassRuns(less, s) == 1 + PassRuns(less, s[n + m..])
            && Runs(less, s) == 2 + Runs(less, s[n + m..])
  {
    hide *;
    var n := RunLength(less, s);
    var m := RunLength(less, s[n..]);
    Parts(s, n, m);
    RunAscending(less, s);
    RunAscending(less, s[n..]);
    PairPass(less, s);
    PairCounts(less, s);
  }

  lemma Parts(s: seq<Node>, n: nat, m: nat)
    requires n + m <= |s|
    ensures s == s[..n] + s[n..n + m] + s[n + m..]
    ensures s[n..][..m] == s[n..n + m] && s[n..][m..] == s[n + m..]
  {
  }

  lemma PairPass(less: Compare, s: seq<Node>)
    requires s != [] && RunLength(less, s) < |s|
    ensures var n := RunLength(less, s);
            var m := RunLength(less, s[n..]);
            Pass(less, s) == Merge(less, s[..n], s[n..n + m]) + Pass(less, s[n + m..])
  {
    PairIs(less, s);
    hide Merge, RunLength, AfterRun, FrontRun;
  }

  /** The first two runs and the rest, as slices. */
  lemma PairIs(less: Compare, s: seq<Node>)
    requires s != [] && RunLength(less, s) < |s|
    ensures var n := RunLength(less, s);
            var m := RunLength(less, s[n..]);
            && AfterRun(less, s) == s[n..] && FrontRun(less, s) == s[..n]
            && FrontRun(less, s[n..]) == s[n..n + m] && AfterRun(less, s[n..]) == s[n + m..]
  {
    hide RunLength;
    var n := RunLength(less, s);
    Parts(s, n, RunLength(less, s[n..]));
  }

  lemma RunsUnfold(less: Compare, s: seq<Node>)
    requires s != []
    ensures Runs(less, s) == 1 + Runs(less, AfterRun(less, s))
  {
    hide AfterRun;
  }

  lemma PassRunsUnfold(less: Compare, s: seq<Node>)
    requires s != [] && AfterRun(less, s) != []
    ensures PassRuns(less, s) == 1 + PassRuns(less, AfterRun(less, AfterRun(less, s)))
  {
    hide AfterRun;
  }

  lemma PairCounts(less: Compare, s: seq<Node>)
    requires s != [] && RunLength(less, s) < |s|
    ensures var n := RunLength(less, s);
            var m := RunLength(less, s[n..]);
            PassRuns(less, s) == 1 + PassRuns(less, s[n + m..]) && Runs(less, s) == 2 + Runs(less, s[n + m..])
  {
    hide *;
    PairIs(less, s);
    PassRunsUnfold(less, s);
    RunsUnfold(less, s);
    RunsUnfold(less, s[RunLength(less, s)..]);
  }

  lemma {:induction false} PassElements(less: Compare, s: seq<Node>)
    ensures multiset(Pass(less, s)) == multiset(s)
    decreases |s|
  {
    hide Merge, Pass;
    if s == [] || RunLength(less, s) == |s| {
      PassIsSame(less, s);
    } else {
      var n := RunLength(less, s);
      var m := RunLength(less, s[n..]);
      FirstPair(less, s);
      MergeElements(less, s[..n], s[n..n + m]);
      PassElements(less, s[n + m..]);
    }
  }

  lemma PassIsSame(less: Compare, s: seq<Node>)
    requires s == [] || RunLength(less, s) == |s|
    ensures Pass(less, s) == s
  {
  }

  lemma WithinPart(s: seq<Node>, u: set<Node>, i: nat, j: nat)
    requires Within(s, u) && i <= j <= |s|
    ensures Within(s[i..j], u)
  {
  }

  lemma {:induction false} PassStable(less: Compare, u: set<Node>, x: Node, s: seq<Node>)
    requires StrictWeak(less, u) && x in u && Within(s, u)
    ensures Equals(less, x, Pass(less, s)) == Equals(less, x, s)
    decreases |s|
  {
    hide Merge, Pass, Equals, StrictWeak, Ascending;
    if s == [] || RunLength(less, s) == |s| {
      PassIsSame(less, s);
    } else {
      var n := RunLength(less, s);
      var m := RunLength(less, s[n..]);
      FirstPair(less, s);
      var a, b, rest := s[..n], s[n..n + m], s[n + m..];
      WithinPart(s, u, 0, n);
      WithinPart(s, u, n, n + m);
      WithinPart(s, u, n + m, |s|);
      MergeStable(less, u, x, a, b);
      PassStable(less, u, x, rest);
      EqualsConcat(less, x, Merge(less, a, b), Pass(less, rest));
      EqualsConcat(less, x, a, b);
      EqualsConcat(less, x, a + b, rest);
    }
  }

  // ---------------------------------------------------------------- the number of runs falls

  /** Each pass merges runs in pairs. */
  lemma {:induction false} PassHalves(less: Compare, s: seq<Node>)
    ensures PassRuns(less, s) == (Runs(less, s) + 1) / 2
    decreases |s|
  {
    if s != [] {
      var n := RunLength(less, s);
      if n == |s| {
        OneRun(less, s);
      } else {
        hide Pass, PassRuns, Runs, RunLength;
        FirstPair(less, s);
        PassHalves(less, s[n + RunLength(less, s[n..])..]);
      }
    }
  }

  /** An ascending front joins the run behind it, or stays a run of its own. */
  lemma {:induction false} RunAfter(less: Compare, x: seq<Node>, t: seq<Node>)
    requires x != [] && Ascending(less, x)
    ensures RunLength(less, x + t) == if t != [] && Le(less, x[|x| - 1], t[0]) then |x| + RunLength(less, t) else |x|
    decreases |x|
  {
    var s := x + t;
    assert s[1..] == x[1..] + t;
    if |x| == 1 {
      assert x[1..] + t == t;
    } else {
      TailAscending(less, x);
      RunAfter(less, x[1..], t);
    }
  }

  lemma JoinRuns(less: Compare, x: seq<Node>, t: seq<Node>)
    requires x != [] && Ascending(less, x)
    ensures Runs(less, x + t) <= 1 + Runs(less, t)
  {
    hide Ascending, RunLength;
    RunAfter(less, x, t);
    RunsUnfold(less, x + t);
    var n := RunLength(less, x + t);
    if n == |x| {
      assert (x + t)[n..] == t;
    } else {
      RunsUnfold(less, t);
      assert (x + t)[n..] == t[n - |x|..];
    }
  }

  lemma {:induction false} PassOutput(less: Compare, u: set<Node>, s: seq<Node>)
    requires StrictWeak(less, u) && Within(s, u)
    ensures Runs(less, Pass(less, s)) <= PassRuns(less, s)
    decreases |s|
  {
    hide Merge, Pass, StrictWeak, Ascending, Runs;
    if s == [] || RunLength(less, s) == |s| {
      PassIsSame(less, s);
      OneRun(less, s);
    } else {
      var n := RunLength(less, s);
      var m := RunLength(less, s[n..]);
      FirstPair(less, s);
      WithinPart(s, u, 0, n);
      WithinPart(s, u, n, n + m);
      WithinPart(s, u, n + m, |s|);
      MergeAscending(less, u, s[..n], s[n..n + m]);
      PassOutput(less, u, s[n + m..]);
      JoinRuns(less, Merge(less, s[..n], s[n..n + m]), Pass(less, s[n + m..]));
    }
  }

  lemma OneRun(less: Compare, s: seq<Node>)
    requires s == [] || RunLength(less, s) == |s|
    ensures Runs(less, s) == PassRuns(less, s) == if s == [] then 0 else 1
  {
  }

  lemma SingleRunAscending(less: Compare, s: seq<Node>)
    requires Runs(less, s) <= 1
    ensures Ascending(less, s)
  {
    if s != [] {
      RunsUnfold(less, s);
      hide RunLength;
      var n := RunLength(less, s);
      assert AfterRun(less, s) == [];
      assert n == |s| && s[..n] == s;
      RunAscending(less, s);
    }
  }

  /** The count of maximal runs strictly falls with each pass that is repeated. */
  lemma FewerRuns(less: Compare, u: set<Node>, s: seq<Node>)
    requires StrictWeak(less, u) && Within(s, u)
    ensures Within(Pass(less, s), u)
    ensures PassRuns(less, s) > 1 ==> Runs(less, Pass(less, s)) < Runs(less, s)
  {
    PassHalves(less, s);
    PassOutput(less, u, s);
    PassElements(less, s);
    WithinElements(s, Pass(less, s), u);
  }

  // ---------------------------------------------------------------- the sort

  /** Passes are repeated until one puts out a single run. */
  function MergeSort(less: Compare, ghost u: set<Node>, s: seq<Node>): seq<Node>
    requires StrictWeak(less, u) && Within(s, u)
    decreases Runs(less, s)
  {
    FewerRuns(less, u, s);
    var p := Pass(less, s);
    if PassRuns(less, s) > 1 then MergeSort(less, u, p) else p
  }

  /** The result is sorted and has the same elements. */
  lemma {:induction false} SortSorts(less: Compare, u: set<Node>, s: seq<Node>)
    requires StrictWeak(less, u) && Within(s, u)
    ensures Sorted(less, MergeSort(less, u, s)) && multiset(MergeSort(less, u, s)) == multiset(s)
    decreases Runs(less, s)
  {
    var p := Pass(less, s);
    FewerRuns(less, u, s);
    PassElements(less, s);
    if PassRuns(less, s) > 1 {
      hide Sorted, Pass, PassRuns, Runs, StrictWeak;
      SortSorts(less, u, p);
    } else {
      PassOutput(less, u, s);
      SingleRunAscending(less, p);
      AscendingSorted(less, u, p);
    }
  }

  /** Elements that the order does not tell apart keep their order. */
  lemma {:induction false} SortStable(less: Compare, u: set<Node>, s: seq<Node>, x: Node)
    requires StrictWeak(less, u) && Within(s, u) && x in u
    ensures Equals(less, x, MergeSort(less, u, s)) == Equals(less, x, s)
    decreases Runs(less, s)
  {
    FewerRuns(less, u, s);
    PassStable(less, u, x, s);
    if PassRuns(less, s) > 1 {
      SortStable(less, u, Pass(less, s), x);
    }
  }
}
