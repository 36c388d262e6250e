/** Sorting a linked list in place. */
module LinkedListSort {
  import opened Wrappers
  import opened ListSort
  import opened LinkedListModel

  /** The list in which the runs from `i` to `m` and from `m` to `j` are merged. */
  function Merged(less: Compare, s: seq<Node>, i: nat, m: nat, j: nat): seq<Node>
    requires i <= m <= j <= |s|
  {
    s[..i] + Merge(less, s[i..m], s[m..j]) + s[j..]
  }

  lemma TakeFirst(less: Compare, s: seq<Node>, i: nat, m: nat, j: nat)
    requires i < m < j <= |s| && !less(s[m], s[i])
    ensures Merged(less, s, i + 1, m, j) == Merged(less, s, i, m, j)
  {
    var a, b := s[i..m], s[m..j];
    assert a[1..] == s[i + 1..m];
    assert Merge(less, a, b) == [s[i]] + Merge(less, a[1..], b);
    assert s[..i + 1] == s[..i] + [s[i]];
    hide Merge;
  }

  lemma TakeSecond(less: Compare, s: seq<Node>, i: nat, m: nat, j: nat)
    requires i < m < j <= |s| && less(s[m], s[i])
    ensures Merged(less, Exchanged(s, i, m, m + 1), i + 1, m + 1, j) == Merged(less, s, i, m, j)
  {
    var a, b := s[i..m], s[m..j];
    var r := Exchanged(s, i, m, m + 1);
    assert b[1..] == s[m + 1..j];
    assert Merge(less, a, b) == [s[m]] + Merge(less, a, b[1..]);
    hide Merge;
    assert r[..i + 1] == s[..i] + [s[m]];
    assert r[i + 1..m + 1] == a && r[m + 1..j] == s[m + 1..j] && r[j..] == s[j..];
  }

  lemma MergedDone(less: Compare, s: seq<Node>, i: nat, m: nat, j: nat)
    requires i <= m <= j <= |s| && (i == m || m == j)
    ensures Merged(less, s, i, m, j) == s
  {
    if i == m { assert s[i..m] == []; } else { assert s[m..j] == []; }
    assert s == s[..i] + s[i..j] + s[j..];
  }

  /** The run that starts at place `i`; the end of the range is at place `j`. */
  method FindEndOfRun(list: List, less: Compare, a: Node, b: Node, ghost i: nat, ghost j: nat)
    returns (r: Node, ghost k: nat)
    requires list.Valid() && i < j < |list.all| && list.all[i] == a && list.all[j] == b
    ensures k == i + RunLength(less, list.all[i..j]) && r == list.all[k]
  {
    ghost var s := list.all;
    assert s[i + 1].prev == s[i];
    r := a.next;
    k := i + 1;
    while r != b && !less(r, r.prev)
      invariant i < k <= j && r == s[k]
      invariant RunLength(less, s[i..j]) == k - 1 - i + RunLength(less, s[k - 1..j])
      decreases j - k
    {
      assert k != j && s[k].prev == s[k - 1] && s[k + 1].prev == s[k];
      assert s[k - 1..j][1..] == s[k..j] && s[k - 1..j][1] == s[k];
      r := r.next;
      k := k + 1;
    }
    assert k < j ==> s[k - 1..j][1] == s[k] && s[k].prev == s[k - 1];
  }

  lemma LinkAt(list: List, k: nat)
    requires list.Valid() && 0 < k < |list.all|
    ensures list.all[k - 1].next == list.all[k] && list.all[k].prev == list.all[k - 1]
  {
  }

  lemma SamePlace(list: List, x: nat, y: nat)
    requires list.Valid() && x < |list.all| && y < |list.all|
    ensures list.all[x] == list.all[y] <==> x == y
  {
  }

  lemma MovedPlaces(s: seq<Node>, p: nat, q: nat, j: nat)
    requires p < q < j < |s|
    ensures var r := Exchanged(s, p, q, q + 1); r[p + 1] == s[p] && r[q + 1] == s[q + 1] && r[j] == s[j]
  {
    ExchangedAt(s, p, q, q + 1);
    hide Exchanged;
  }

  /** The smaller head of the second run is moved before the head of the first. */
  method MoveSecond(list: List, less: Compare, a0: Node, a1b0: Node, ghost p: nat, ghost q: nat, ghost j: nat)
    returns (next: Node)
    requires list.Valid() && 0 < p < q < j < |list.all| && list.all[p] == a0 && list.all[q] == a1b0 && less(a1b0, a0)
    modifies list, list.all
    ensures list.Valid() && multiset(list.all) == multiset(old(list.all)) && |list.all| == |old(list.all)|
    ensures list.all[p + 1] == a0 && list.all[q + 1] == next && list.all[j] == old(list.all)[j]
    ensures Merged(less, list.all, p + 1, q + 1, j) == Merged(less, old(list.all), p, q, j)
  {
    hide Merged, Linked, Exchanged, Distinct;
    ghost var s := list.all;
    TakeSecond(less, s, p, q, j);
    ExchangedEnds(s, p, q, q + 1);
    MovedPlaces(s, p, q, j);
    LinkAt(list, q + 1);
    next := a1b0.next;
    list.Splice(a0, next.prev, next, p, q, q + 1);
  }

  lemma SubsetByElements(s: seq<Node>, t: seq<Node>)
    requires multiset(s) == multiset(t)
    ensures forall k :: 0 <= k < |s| ==> s[k] in t
  {
    forall k | 0 <= k < |s| ensures s[k] in t { assert s[k] in multiset(s); }
  }

  method InplaceMerge(list: List, less: Compare, first: Node, second: Node, b1: Node,
                      ghost i: nat, ghost m: nat, ghost j: nat)
    requires list.Valid() && 0 < i < m <= j < |list.all|
    requires list.all[i] == first && list.all[m] == second && list.all[j] == b1
    modifies list, list.all
    ensures list.Valid() && list.all == Merged(less, old(list.all), i, m, j)
    ensures multiset(list.all) == multiset(old(list.all))
  {
    hide Merged, Linked, Distinct, Exchanged;
    var a0, a1b0 := first, second;
    ghost var p, q := i, m;
    ghost var start := list.all;
    while a0 != a1b0 && a1b0 != b1
      invariant list.Valid() && multiset(list.all) == multiset(start) && |list.all| == |start|
      invariant i <= p <= q <= j && list.all[p] == a0 && list.all[q] == a1b0 && list.all[j] == b1
      invariant Merged(less, list.all, p, q, j) == Merged(less, start, i, m, j)
      decreases j - p
    {
      if !less(a1b0, a0) {
        TakeFirst(less, list.all, p, q, j);
        LinkAt(list, p + 1);
        a0 := a0.next;
      } else {
        SubsetByElements(list.all, start);
        a1b0 := MoveSecond(list, less, a0, a1b0, p, q, j);
        q := q + 1;
      }
      p := p + 1;
    }
    SamePlace(list, p, q);
    SamePlace(list, q, j);
    MergedDone(less, list.all, p, q, j);
  }

  /** The elements that a pass has left behind, then those it has yet to do. */
  function PassFrom(less: Compare, s: seq<Node>, i: nat): seq<Node>
    requires 0 < i < |s|
  {
    s[1..i] + Pass(less, s[i..|s| - 1])
  }

  function RunsFrom(less: Compare, s: seq<Node>, i: nat): nat
    requires 0 < i < |s|
  {
    PassRuns(less, s[i..|s| - 1])
  }

  /** One turn of the pass merges the runs from `i` to `m` and from `m` to `j`. */
  lemma PassTurn(less: Compare, s: seq<Node>, i: nat, m: nat, j: nat)
    requires 0 < i < m < |s| - 1 && m == i + RunLength(less, s[i..|s| - 1])
    requires m < j < |s| && j == m + RunLength(less, s[m..|s| - 1])
    ensures var r := Merged(less, s, i, m, j);
            && |r| == |s| && PassFrom(less, r, j) == PassFrom(less, s, i)
            && RunsFrom(less, s, i) == 1 + RunsFrom(less, r, j)
  {
    hide Merge, Pass, PassRuns, RunLength;
    var n := |s| - 1;
    Slices(s, i, m, j);
    PairPass(less, s[i..n]);
    PairCounts(less, s[i..n]);
    var merge := Merge(less, s[i..m], s[m..j]);
    assert |merge| == j - i;
    Replaced(s, i, j, merge);
    Regroup(s[1..i], merge, Pass(less, s[j..n]));
  }

  lemma Slices(s: seq<Node>, i: nat, m: nat, j: nat)
    requires i <= m <= j < |s|
    ensures var rest := s[i..|s| - 1];
            && rest[..m - i] == s[i..m] && rest[m - i..] == s[m..|s| - 1]
            && rest[m - i..j - i] == s[m..j] && rest[j - i..] == s[j..|s| - 1]
  {
    var rest := s[i..|s| - 1];
    var part, same := rest[m - i..j - i], s[m..j];
    forall k | 0 <= k < |part| ensures part[k] == same[k] {
    }
    assert part == same;
  }

  lemma Replaced(s: seq<Node>, i: nat, j: nat, part: seq<Node>)
    requires 0 < i <= j < |s| && |part| == j - i
    ensures var r := s[..i] + part + s[j..]; |r| == |s| && r[1..j] == s[1..i] + part && r[j..|s| - 1] == s[j..|s| - 1]
  {
  }

  lemma Regroup(a: seq<Node>, b: seq<Node>, c: seq<Node>)
    ensures (a + b) + c == a + (b + c)
  {
  }

  /** When the run reaches the end, the pass leaves it as it is. */
  lemma PassEnds(less: Compare, s: seq<Node>, i: nat)
    requires 0 < i < |s| && (i == |s| - 1 || i + RunLength(less, s[i..|s| - 1]) == |s| - 1)
    ensures PassFrom(less, s, i) == s[1..|s| - 1]
    ensures RunsFrom(less, s, i) == if i == |s| - 1 then 0 else 1
  {
  }

  /** One pass over the list. */
  method SortPass(list: List, less: Compare) returns (outputRuns: nat)
    requires list.Valid()
    modifies list, list.all
    ensures list.Valid() && multiset(list.all) == multiset(old(list.all))
    ensures list.Elements() == Pass(less, old(list.Elements()))
    ensures outputRuns == PassRuns(less, old(list.Elements()))
  {
    hide Linked, Distinct, Merged, PassFrom, RunsFrom, RunLength;
    ghost var start := list.all;
    StartsPass(less, start);
    LinkAt(list, 1);
    outputRuns := 0;
    var a0 := list.head.next;
    ghost var i := 1;
    while a0 != list.tail
      invariant list.Valid() && multiset(list.all) == multiset(start) && |list.all| == |start|
      invariant 0 < i < |start| && list.all[i] == a0
      invariant PassFrom(less, list.all, i) == PassFrom(less, start, 1)
      invariant outputRuns + RunsFrom(less, list.all, i) == RunsFrom(less, start, 1)
      decreases |start| - i
    {
      ghost var s, n := list.all, |list.all| - 1;
      SubsetByElements(s, start);
      outputRuns := outputRuns + 1;
      var a1b0, m := FindEndOfRun(list, less, a0, list.tail, i, n);
      SamePlace(list, m, n);
      if a1b0 == list.tail {
        PassEnds(less, s, i);
        return;
      }
      var b1, j := FindEndOfRun(list, less, a1b0, list.tail, m, n);
      PassTurn(less, s, i, m, j);
      MergedKeeps(less, s, i, m, j);
      InplaceMerge(list, less, a0, a1b0, b1, i, m, j);
      a0, i := b1, j;
    }
    SamePlace(list, i, |list.all| - 1);
    PassEnds(less, list.all, i);
  }

  lemma StartsPass(less: Compare, s: seq<Node>)
    requires |s| >= 2
    ensures PassFrom(less, s, 1) == Pass(less, s[1..|s| - 1]) && RunsFrom(less, s, 1) == PassRuns(less, s[1..|s| - 1])
  {
  }

  lemma MergedKeeps(less: Compare, s: seq<Node>, i: nat, m: nat, j: nat)
    requires 0 < i <= m <= j < |s|
    ensures |Merged(less, s, i, m, j)| == |s| && Merged(less, s, i, m, j)[j] == s[j]
  {
  }

  /** `list_sort`: for any strict weak order the list becomes the stable sorted permutation of itself. */
  method Sort(list: List, less: Compare, ghost u: set<Node>)
    requires list.Valid() && StrictWeak(less, u) && Within(list.Elements(), u)
    modifies list, list.all
    ensures list.Valid() && list.Elements() == MergeSort(less, u, old(list.Elements()))
    ensures Sorted(less, list.Elements()) && multiset(list.Elements()) == multiset(old(list.Elements()))
    ensures forall x :: x in u ==> Equals(less, x, list.Elements()) == Equals(less, x, old(list.Elements()))
  {
    hide Linked, Distinct, StrictWeak, MergeSort, Pass, PassRuns, Sorted, Equals;
    ghost var all, start := list.all, list.Elements();
    var outputRuns := 2;
    while outputRuns > 1
      invariant list.Valid() && multiset(list.all) == multiset(all)
      invariant outputRuns > 1 ==> Within(list.Elements(), u)
      invariant outputRuns > 1 ==> MergeSort(less, u, list.Elements()) == MergeSort(less, u, start)
      invariant outputRuns <= 1 ==> list.Elements() == MergeSort(less, u, start)
      decreases if outputRuns > 1 then 1 + Runs(less, list.Elements()) else 0
    {
      ghost var s := list.Elements();
      SubsetByElements(list.all, all);
      SortTurn(less, u, s);
      FewerRuns(less, u, s);
      outputRuns := SortPass(list, less);
    }
    SortSorts(less, u, start);
    forall x | x in u ensures Equals(less, x, list.Elements()) == Equals(less, x, start) {
      SortStable(less, u, start, x);
    }
  }

  lemma SortTurn(less: Compare, u: set<Node>, s: seq<Node>)
    requires StrictWeak(less, u) && Within(s, u)
    ensures Within(Pass(less, s), u)
    ensures MergeSort(less, u, s) == if PassRuns(less, s) > 1 then MergeSort(less, u, Pass(less, s)) else Pass(less, s)
  {
    FewerRuns(less, u, s);
  }

  /** `list_insert_ordered`. */
  method InsertOrdered(list: List, less: Compare, elem: Node) returns (ghost p: nat)
    requires list.Valid() && elem !in list.all
    modifies list, list.all, elem
    ensures list.Valid() && 0 < p < |old(list.all)| && list.all == Inserted(old(list.all), p, elem)
    ensures forall k :: 0 < k < p ==> !less(elem, old(list.all)[k])
    ensures p < |old(list.all)| - 1 ==> less(elem, old(list.all)[p])
  {
    hide Distinct, Inserted;
    LinkAt(list, 1);
    var e := list.head.next;
    p := 1;
    while e != list.tail && !less(elem, e)
      invariant list.Valid() && list.all == old(list.all) && 0 < p < |list.all| && list.all[p] == e
      invariant forall k :: 0 < k < p ==> !less(elem, list.all[k])
      decreases |list.all| - p
    {
      SamePlace(list, p, |list.all| - 1);
      LinkAt(list, p + 1);
      e := e.next;
      p := p + 1;
    }
    SamePlace(list, p, |list.all| - 1);
    list.Insert(e, elem, p);
  }
}
