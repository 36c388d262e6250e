/** Reversing a linked list in place. */
module LinkedListReverse {
  import opened Wrappers
  import opened ListSort
  import opened LinkedListModel
  import opened LinkedListSort

  /** The sentinels stay, the elements between them turn round. */
  function Mirrored(s: seq<Node>): (r: seq<Node>)
    requires |s| >= 2
    ensures |r| == |s|
  {
    seq(|s|, k requires 0 <= k < |s| => if k == 0 || k == |s| - 1 then s[k] else s[|s| - 1 - k])
  }

  lemma MirrorTwice(s: seq<Node>)
    requires |s| >= 2
    ensures Mirrored(Mirrored(s)) == s
  {
  }

  /** The links of the interior nodes are turned round up to place `i`. */
  ghost predicate TurnedTo(s: seq<Node>, i: nat)
    requires |s| >= 2
    reads s
  {
    && (forall k :: 0 < k < i && k < |s| - 1 ==> s[k].prev == s[k + 1] && s[k].next == s[k - 1])
    && (forall k :: i <= k < |s| - 1 && 0 < k ==> s[k].prev == s[k - 1] && s[k].next == s[k + 1])
    && s[0].prev == null && s[0].next == s[1] && s[|s| - 1].next == null && s[|s| - 1].prev == s[|s| - 2]
  }

  method TurnOne(ghost s: seq<Node>, e: Node, ghost i: nat)
    requires |s| >= 2 && Distinct(s) && 0 < i < |s| - 1 && s[i] == e && TurnedTo(s, i)
    modifies s
    ensures TurnedTo(s, i + 1) && e.prev == s[i + 1]
  {
    var t := e.prev;
    e.prev := e.next;
    e.next := t;
  }

  lemma MirrorLinked(s: seq<Node>)
    requires |s| >= 3 && Distinct(s)
    requires forall k :: 1 < k < |s| - 1 ==> Joined(s[k], s[k - 1])
    requires Joined(s[0], s[|s| - 2]) && Joined(s[1], s[|s| - 1])
    ensures Linked(Mirrored(s)) && Distinct(Mirrored(s))
  {
    var r := Mirrored(s);
    forall k | 0 < k < |r| ensures Joined(r[k - 1], r[k]) {
    }
    LinkedByJoins(r);
  }

  /** The exchanges of the sentinels' links after the loop. */
  method TurnEnds(head: Node, tail: Node, ghost s: seq<Node>)
    requires |s| >= 3 && Distinct(s) && TurnedTo(s, |s| - 1) && s[0] == head && s[|s| - 1] == tail
    modifies s
    ensures forall k :: 1 < k < |s| - 1 ==> Joined(s[k], s[k - 1])
    ensures Joined(s[0], s[|s| - 2]) && Joined(s[1], s[|s| - 1])
    ensures head.prev == null && tail.next == null
  {
    ghost var n := |s| - 1;
    assert s[n - 1].prev == s[n] && s[1].next == s[0];
    var t := head.next;
    head.next := tail.prev;
    tail.prev := t;
    var u := head.next.prev;
    head.next.prev := tail.prev.next;
    tail.prev.next := u;
  }

  method Reverse(list: List)
    requires list.Valid()
    modifies list, list.all
    ensures list.Valid() && list.all == Mirrored(old(list.all))
  {
    ghost var s := list.all;
    LinkAt(list, 1);
    if list.head.next == list.tail {
      SamePlace(list, 1, |s| - 1);
      assert Mirrored(s) == s;
      return;
    }
    ghost var i := 1;
    var e := list.head.next;
    StartTurn(list);
    while e != list.tail
      invariant list.all == s && |s| >= 2 && Distinct(s) && s[0] == list.head && s[|s| - 1] == list.tail
      invariant 0 < i < |s| && s[i] == e && TurnedTo(s, i)
      decreases |s| - i
    {
      TurnOne(s, e, i);
      e := e.prev;
      i := i + 1;
    }
    assert i == |s| - 1;
    assert |s| >= 3;
    TurnEnds(list.head, list.tail, s);
    MirrorLinked(s);
    hide Mirrored, Linked, Distinct, TurnedTo;
    MirrorEnds(s);
    list.all := Mirrored(s);
  }

  lemma MirrorEnds(s: seq<Node>)
    requires |s| >= 2
    ensures Mirrored(s)[0] == s[0] && Mirrored(s)[|s| - 1] == s[|s| - 1]
  {
  }

  lemma StartTurn(list: List)
    requires list.Valid()
    ensures TurnedTo(list.all, 1)
  {
    var s := list.all;
    assert s[1].prev == s[0] && s[|s| - 1].prev == s[|s| - 2];
    forall k | 0 < k < |s| - 1 ensures s[k].prev == s[k - 1] && s[k].next == s[k + 1] {
      assert s[k + 1].prev == s[k];
    }
  }
}
