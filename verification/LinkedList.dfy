/** Doubly linked lists between two sentinels, changed in place. */
module LinkedListModel {
  import opened Wrappers
  import opened ListSort

  ghost predicate Linked(s: seq<Node>)
    reads s
  {
    forall i :: 0 < i < |s| ==> s[i - 1].next == s[i] && s[i].prev == s[i - 1]
  }

  // ---------------------------------------------------------------- sequences

  function Inserted(s: seq<Node>, p: nat, x: Node): seq<Node>
    requires p <= |s|
  {
    s[..p] + [x] + s[p..]
  }

  function Without(s: seq<Node>, p: nat): seq<Node>
    requires p < |s|
  {
    s[..p] + s[p + 1..]
  }

  /** Two adjacent parts of `s`, from `lo` to `mid` and from `mid` to `hi`, change places. */
  function Exchanged(s: seq<Node>, lo: nat, mid: nat, hi: nat): (r: seq<Node>)
    requires lo <= mid <= hi <= |s|
    ensures |r| == |s|
  {
    s[..lo] + s[mid..hi] + s[lo..mid] + s[hi..]
  }

  /** Where the element at `k` after the exchange was before it. */
  function Source(lo: nat, mid: nat, hi: nat, k: nat): nat
    requires lo <= mid <= hi
  {
    if k < lo || k >= hi then k
    else if k < lo + (hi - mid) then k - lo + mid
    else k - (hi - mid)
  }

  lemma ExchangedAt(s: seq<Node>, lo: nat, mid: nat, hi: nat)
    requires lo <= mid <= hi <= |s|
    ensures forall k :: 0 <= k < |s| ==> Exchanged(s, lo, mid, hi)[k] == s[Source(lo, mid, hi, k)]
    ensures Distinct(s) ==> Distinct(Exchanged(s, lo, mid, hi))
  {
    var r := Exchanged(s, lo, mid, hi);
    forall k | 0 <= k < |s| ensures r[k] == s[Source(lo, mid, hi, k)] {
    }
    hide Exchanged;
  }

  lemma InsertedAt(s: seq<Node>, p: nat, x: Node)
    requires p <= |s|
    ensures var r := Inserted(s, p, x);
            && |r| == |s| + 1
            && forall k :: 0 <= k < |r| ==> r[k] == if k < p then s[k] else if k == p then x else s[k - 1]
    ensures Distinct(s) && x !in s ==> Distinct(Inserted(s, p, x))
  {
  }

  lemma WithoutAt(s: seq<Node>, p: nat)
    requires p < |s|
    ensures var r := Without(s, p);
            |r| == |s| - 1 && forall k :: 0 <= k < |r| ==> r[k] == if k < p then s[k] else s[k + 1]
    ensures Distinct(s) ==> Distinct(Without(s, p))
  {
  }

  // ---------------------------------------------------------------- the list

  ghost predicate Joined(x: Node, y: Node)
    reads x, y
  {
    x.next == y && y.prev == x
  }

  /** All links of `s` but those into places `lo`, `mid` and `hi`, and three links across: the exchange is linked. */
  lemma Relinked(s: seq<Node>, lo: nat, mid: nat, hi: nat)
    requires 0 < lo < mid < hi < |s|
    requires forall k :: 0 < k < |s| && k != lo && k != mid && k != hi ==> Joined(s[k - 1], s[k])
    requires Joined(s[lo - 1], s[mid]) && Joined(s[hi - 1], s[lo]) && Joined(s[mid - 1], s[hi])
    ensures Linked(Exchanged(s, lo, mid, hi))
  {
    var r := Exchanged(s, lo, mid, hi);
    ExchangedAt(s, lo, mid, hi);
    hide Exchanged, Joined;
    forall k | 0 < k < |r| ensures Joined(r[k - 1], r[k]) {
      assert r[k] == s[Source(lo, mid, hi, k)] && r[k - 1] == s[Source(lo, mid, hi, k - 1)];
    }
    LinkedByJoins(r);
  }

  lemma ExchangedNothing(s: seq<Node>, lo: nat, mid: nat)
    requires lo <= mid <= |s|
    ensures Exchanged(s, lo, mid, mid) == s
  {
  }

  lemma ExchangedNoneBefore(s: seq<Node>, lo: nat, hi: nat)
    requires lo <= hi <= |s|
    ensures Exchanged(s, lo, lo, hi) == s
  {
  }

  lemma LinkedByJoins(r: seq<Node>)
    requires forall k :: 0 < k < |r| ==> Joined(r[k - 1], r[k])
    ensures Linked(r)
  {
    forall k | 0 < k < |r| ensures r[k - 1].next == r[k] && r[k].prev == r[k - 1] { assert Joined(r[k - 1], r[k]); }
  }

  lemma ExchangedEnds(s: seq<Node>, lo: nat, mid: nat, hi: nat)
    requires 0 < lo <= mid <= hi < |s| && Distinct(s)
    ensures var r := Exchanged(s, lo, mid, hi);
            r[0] == s[0] && r[|s| - 1] == s[|s| - 1] && Distinct(r) && multiset(r) == multiset(s)
  {
    ExchangedAt(s, lo, mid, hi);
    assert s == s[..lo] + s[lo..mid] + s[mid..hi] + s[hi..];
  }

  /** Removal of the range from place `i` to place `j`. */
  method Unlink(ghost s: seq<Node>, first: Node, end: Node, ghost i: nat, ghost j: nat)
    requires Distinct(s) && 0 < i < j < |s| && s[i] == first && s[j - 1] == end
    requires forall k :: 0 < k < |s| ==> Joined(s[k - 1], s[k])
    modifies s
    ensures forall k :: 0 < k < |s| && k != i && k != j ==> Joined(s[k - 1], s[k])
    ensures Joined(s[i - 1], s[j]) && first.prev == s[i - 1]
    ensures s[0].prev == old(s[0].prev) && s[|s| - 1].next == old(s[|s| - 1].next)
  {
    assert Joined(s[i - 1], s[i]) && Joined(s[j - 1], s[j]);
    first.prev.next := end.next;
    end.next.prev := first.prev;
  }

  /** Insertion of a removed range between `s[q]` and `before`, at place `p`. */
  method LinkIn(ghost s: seq<Node>, before: Node, first: Node, end: Node, ghost p: nat, ghost q: nat,
                ghost i: nat, ghost j: nat)
    requires Distinct(s) && 0 < i < j < |s| && s[i] == first && s[j - 1] == end
    requires 0 < p < |s| && s[p] == before && q < |s| - 1 && q != p && !(i <= p < j) && !(i <= q < j)
    requires if p == j then q == i - 1 else q == p - 1
    requires Joined(s[q], before) && (forall k :: 0 < k < |s| && k != i && k != j ==> Joined(s[k - 1], s[k]))
    requires Joined(s[i - 1], s[j])
    modifies s
    ensures forall k :: 0 < k < |s| && k != i && k != j && k != p ==> Joined(s[k - 1], s[k])
    ensures Joined(s[q], first) && Joined(end, before) && (p != j ==> Joined(s[i - 1], s[j]))
    ensures s[0].prev == old(s[0].prev) && s[|s| - 1].next == old(s[|s| - 1].next)
  {
    first.prev := before.prev;
    end.next := before;
    before.prev.next := first;
    before.prev := end;
  }

  /** The pointer assignments of `list_splice`, on the nodes of `s`. */
  method Relink(ghost s: seq<Node>, before: Node, first: Node, last: Node, ghost p: nat, ghost i: nat, ghost j: nat)
    requires Distinct(s) && Linked(s) && 0 < p < |s| && 0 < i < j < |s|
    requires s[p] == before && s[i] == first && s[j] == last
    requires p < i || j <= p
    modifies s
    ensures Linked(if p < i then Exchanged(s, p, i, j) else Exchanged(s, i, j, p))
    ensures s[0].prev == old(s[0].prev) && s[|s| - 1].next == old(s[|s| - 1].next)
  {
    assert last.prev == s[j - 1];
    assert forall k :: 0 < k < |s| ==> Joined(s[k - 1], s[k]);
    hide Exchanged, Linked, Joined;
    var end := last.prev;
    Unlink(s, first, end, i, j);
    LinkIn(s, before, first, end, p, if p == j then i - 1 else p - 1, i, j);
    if p == j {
      LinkedByJoins(s);
      ExchangedNothing(s, i, j);
    } else if p < i {
      Relinked(s, p, i, j);
    } else {
      Relinked(s, i, j, p);
    }
  }

  class List {
    const head: Node
    const tail: Node
    /** The sentinels and the elements between them, in order. */
    ghost var all: seq<Node>

    ghost predicate Valid()
      reads this, all
    {
      && |all| >= 2 && all[0] == head && all[|all| - 1] == tail
      && Distinct(all) && Linked(all)
      && head.prev == null && tail.next == null
    }

    ghost function Elements(): seq<Node>
      requires Valid()
      reads this, all
    {
      all[1..|all| - 1]
    }

    constructor ()
      ensures Valid() && Elements() == [] && fresh(all)
    {
      head := new Node();
      tail := new Node();
      new;
      head.next := tail;
      tail.prev := head;
      all := [head, tail];
    }

    method Insert(before: Node, elem: Node, ghost p: nat)
      requires Valid() && 0 < p < |all| && all[p] == before && elem !in all
      modifies this, all, elem
      ensures Valid() && all == Inserted(old(all), p, elem)
    {
      InsertedAt(all, p, elem);
      hide Inserted;
      ghost var s := all;
      assert before.prev == s[p - 1];
      elem.prev := before.prev;
      elem.next := before;
      before.prev.next := elem;
      before.prev := elem;
      all := Inserted(s, p, elem);
    }

    method Remove(elem: Node, ghost p: nat) returns (next: Node)
      requires Valid() && 0 < p < |all| - 1 && all[p] == elem
      modifies this, all
      ensures Valid() && all == Without(old(all), p) && next == old(all)[p + 1]
    {
      WithoutAt(all, p);
      hide Without;
      ghost var s := all;
      assert elem.prev == s[p - 1] && s[p + 1] == s[p].next;
      elem.prev.next := elem.next;
      elem.next.prev := elem.prev;
      next := elem.next;
      all := Without(s, p);
    }

    /** Elements `first` up to `last` move to just before `before`, which is not one of them. */
    method Splice(before: Node, first: Node, last: Node, ghost p: nat, ghost i: nat, ghost j: nat)
      requires Valid() && 0 < p < |all| && 0 < i <= j < |all|
      requires all[p] == before && all[i] == first && all[j] == last
      requires p < i || j <= p
      modifies this, all
      ensures Valid()
      ensures all == if p < i then Exchanged(old(all), p, i, j) else Exchanged(old(all), i, j, p)
    {
      hide Exchanged, Linked;
      ghost var s := all;
      if first == last {
        assert i == j;
        if p < i { ExchangedNothing(s, p, i); } else { ExchangedNoneBefore(s, i, p); }
        return;
      }
      Relink(s, before, first, last, p, i, j);
      all := if p < i then Exchanged(s, p, i, j) else Exchanged(s, i, j, p);
      if p < i { ExchangedEnds(s, p, i, j); } else { ExchangedEnds(s, i, j, p); }
    }
  }
}
