/**
 What growing a file does: the pointer tree it builds, what it leaves alone, and exactly when it
 works.
 */
module InodeGrowLaws {
  import opened Wrappers
  import opened DiskModel
  import opened BoolSeq
  import opened InodeLayout
  import opened InodeGrow

  // ---------------------------------------------------------------- free sectors

  ghost predicate Fresh(used: seq<bool>, s: seq<nat>) {
    forall j :: 0 <= j < |s| ==> s[j] < |used| && !used[s[j]]
  }

  /** `used'` is `used` with exactly the sectors of `s` marked. */
  ghost predicate Marks(used: seq<bool>, used': seq<bool>, s: seq<nat>) {
    |used'| == |used| && forall k :: 0 <= k < |used| ==> (used'[k] <==> used[k] || k in s)
  }

  ghost function Free(used: seq<bool>): nat {
    Count(used, |used|, false)
  }

  lemma {:induction false} CountTake(used: seq<bool>, s: nat, n: nat)
    requires s < |used| && !used[s] && n <= |used|
    ensures Count(used[s := true], n, false) == Count(used, n, false) - if s < n then 1 else 0
    decreases n
  {
    if n > 0 { CountTake(used, s, n - 1); }
  }

  lemma {:induction false} CountNone(used: seq<bool>, n: nat)
    requires n <= |used| && forall k :: 0 <= k < n ==> used[k]
    ensures Count(used, n, false) == 0
    decreases n
  {
    if n > 0 { CountNone(used, n - 1); }
  }

  /** Different free sectors are at most as many as the free ones. */
  lemma {:induction false} FreshBound(used: seq<bool>, s: seq<nat>)
    requires Fresh(used, s) && Distinct(s)
    ensures Free(used) >= |s|
    decreases |s|
  {
    if s != [] {
      var last := s[|s| - 1];
      CountTake(used, last, |used|);
      FreshBound(used[last := true], s[..|s| - 1]);
    }
  }

  lemma FirstFreeIff(used: seq<bool>)
    ensures FirstFree(used, 0).Some? <==> Free(used) > 0
  {
    var f := FirstFree(used, 0);
    if f.Some? {
      FreshBound(used, [f.value]);
    } else {
      CountNone(used, |used|);
    }
  }

  // ---------------------------------------------------------------- one block

  /** The disk after some sectors were filled with zeros. */
  ghost predicate Zeroed(disk: seq<Sector>, disk': seq<Sector>, more: seq<nat>) {
    |disk'| == |disk| && forall s :: 0 <= s < |disk| ==> disk'[s] == if s in more then ZeroSector() else disk[s]
  }

  /** Taking one free sector and then others. */
  lemma TakeThenMore(used: seq<bool>, s: nat, used': seq<bool>, rest: seq<nat>)
    requires s < |used| && !used[s]
    requires Fresh(used[s := true], rest) && Distinct(rest) && Marks(used[s := true], used', rest)
    ensures Fresh(used, [s] + rest) && Distinct([s] + rest) && Marks(used, used', [s] + rest)
  {
    var all := [s] + rest;
    forall j | 0 <= j < |all|
      ensures all[j] < |used| && !used[all[j]] && (j > 0 ==> all[j] != s)
    {
      if j > 0 { assert all[j] == rest[j - 1]; }
    }
  }

  lemma ZeroThenMore(disk: seq<Sector>, s: nat, disk': seq<Sector>, rest: seq<nat>)
    requires s < |disk| && Zeroed(disk[s := ZeroSector()], disk', rest)
    ensures Zeroed(disk, disk', [s] + rest)
  {
  }

  /** The sectors the block loop allocates, in order. */
  ghost function Taken(used: seq<bool>, room: nat, left: nat): (r: seq<nat>)
    decreases left
  {
    if room == 0 || left == 0 || FirstFree(used, 0).None? then []
    else
      var s := FirstFree(used, 0).value;
      [s] + Taken(used[s := true], room - 1, left - 1)
  }

  /** Those sectors are different, were free, are zero-filled, and nothing else is touched. */
  lemma {:induction false} FillMarks(st: Store, buf: PtrBlock, i: nat, left: nat)
    requires StoreOk(st) && i <= PER_BLOCK
    ensures var f := FillBlock(st, buf, i, left);
            var more := Taken(st.used, PER_BLOCK - i, left);
            && Fresh(st.used, more) && Distinct(more) && Marks(st.used, f.st.used, more)
            && Zeroed(st.disk, f.st.disk, more)
    decreases left
  {
    hide Fresh, Distinct, Marks, Zeroed;
    if i < PER_BLOCK && left > 0 && FirstFree(st.used, 0).Some? {
      var s := FirstFree(st.used, 0).value;
      var st1 := WriteSector(Take(st, s), s, ZeroSector());
      FillMarks(st1, buf[i := s], i + 1, left - 1);
      var f := FillBlock(st1, buf[i := s], i + 1, left - 1);
      var rest := Taken(st1.used, PER_BLOCK - i - 1, left - 1);
      TakeThenMore(st.used, s, f.st.used, rest);
      ZeroThenMore(st.disk, s, f.st.disk, rest);
    } else {
      NothingTaken(st);
    }
  }

  lemma NothingTaken(st: Store)
    ensures Fresh(st.used, []) && Distinct<nat>([]) && Marks(st.used, st.used, []) && Zeroed(st.disk, st.disk, [])
  {
  }

  /** They go into the slots from `i` on; the other slots keep what they had. */
  lemma {:induction false} FillSlots(st: Store, buf: PtrBlock, i: nat, left: nat)
    requires StoreOk(st) && i <= PER_BLOCK
    ensures var f := FillBlock(st, buf, i, left);
            var more := Taken(st.used, PER_BLOCK - i, left);
            && f.next == i + |more|
            && (forall k :: 0 <= k < PER_BLOCK ==> f.buf[k] == if i <= k < f.next then more[k - i] else buf[k])
    decreases left
  {
    if i < PER_BLOCK && left > 0 && FirstFree(st.used, 0).Some? {
      var s := FirstFree(st.used, 0).value;
      FillSlots(WriteSector(Take(st, s), s, ZeroSector()), buf[i := s], i + 1, left - 1);
    }
  }

  /** It succeeds exactly when the free map has enough sectors, and uses one each. */
  lemma {:induction false} FillFree(st: Store, buf: PtrBlock, i: nat, left: nat)
    requires StoreOk(st) && i <= PER_BLOCK
    ensures var f := FillBlock(st, buf, i, left);
            var want := if left < PER_BLOCK - i then left else PER_BLOCK - i;
            && (f.ok <==> Free(st.used) >= want)
            && Free(f.st.used) + (f.next - i) == Free(st.used)
    decreases left
  {
    FirstFreeIff(st.used);
    if i < PER_BLOCK && left > 0 && FirstFree(st.used, 0).Some? {
      var s := FirstFree(st.used, 0).value;
      CountTake(st.used, s, |st.used|);
      FillFree(WriteSector(Take(st, s), s, ZeroSector()), buf[i := s], i + 1, left - 1);
    }
  }

  // ---------------------------------------------------------------- what a growth step must do

  /** Sectors that were in use, other than `index`, and sectors that stay free keep their contents. */
  ghost predicate Kept(st: Store, st': Store, index: seq<nat>) {
    && |st'.disk| == |st'.used| == |st.disk| == |st.used|
    && forall s :: 0 <= s < |st.disk| && s !in index && (st.used[s] || !st'.used[s]) ==> st'.disk[s] == st.disk[s]
  }

  ghost predicate AllZero(disk: seq<Sector>, more: seq<nat>) {
    forall i :: 0 <= i < |more| ==> more[i] < |disk| && disk[more[i]] == ZeroSector()
  }

  /** From a file with sectors `data` and pointer blocks `index`, the growth reached a file with
      `more` and `moreIndex` appended: all of them were free, are now marked, nothing else changed in
      the free map; new data sectors are zero; every other sector keeps its contents except this
      file's own pointer blocks. */
  ghost predicate Extends(st: Store, st': Store, node': Node, data: seq<nat>, index: seq<nat>,
                          more: seq<nat>, moreIndex: seq<nat>)
  {
    && Holds(st', node', data + more, index + moreIndex)
    && Fresh(st.used, more) && Fresh(st.used, moreIndex) && Marks(st.used, st'.used, more + moreIndex)
    && AllZero(st'.disk, more)
    && Kept(st, st', index)
  }

  lemma ExtendsNothing(st: Store, node: Node, data: seq<nat>, index: seq<nat>)
    requires Holds(st, node, data, index)
    ensures Extends(st, st, node, data, index, [], [])
  {
    assert data + [] == data && index + [] == index;
  }

  lemma FreshTrans(used: seq<bool>, used1: seq<bool>, first: seq<nat>, s: seq<nat>, t: seq<nat>)
    requires Marks(used, used1, first) && Fresh(used, s) && Fresh(used1, t)
    ensures Fresh(used, s + t)
  {
  }

  lemma MarksTrans(used: seq<bool>, used1: seq<bool>, used2: seq<bool>,
                   a1: seq<nat>, b1: seq<nat>, a2: seq<nat>, b2: seq<nat>)
    requires Marks(used, used1, a1 + b1) && Marks(used1, used2, a2 + b2)
    ensures Marks(used, used2, (a1 + a2) + (b1 + b2))
  {
    forall k | 0 <= k < |used|
      ensures used2[k] <==> used[k] || k in (a1 + a2) + (b1 + b2)
    {
      assert k in a1 + b1 <==> k in a1 || k in b1;
      assert k in a2 + b2 <==> k in a2 || k in b2;
      assert k in a1 + a2 <==> k in a1 || k in a2;
      assert k in b1 + b2 <==> k in b1 || k in b2;
    }
  }

  lemma KeptTrans(st: Store, st1: Store, st2: Store, index: seq<nat>, marked: seq<nat>,
                  index1: seq<nat>, marked2: seq<nat>)
    requires Kept(st, st1, index) && Kept(st1, st2, index + index1)
    requires Marks(st.used, st1.used, marked) && Marks(st1.used, st2.used, marked2)
    requires Fresh(st.used, index1) && AllUsed(st1, index1)
    ensures Kept(st, st2, index)
  {
    forall s | 0 <= s < |st.disk| && s !in index && (st.used[s] || !st2.used[s])
      ensures st2.disk[s] == st.disk[s]
    {
      assert s !in index1;
      assert s !in index + index1;
    }
  }

  /** Data sectors are in use and are not pointer blocks, so later growth keeps them zero. */
  lemma ZeroTrans(st1: Store, node1: Node, data: seq<nat>, index: seq<nat>, more: seq<nat>, st2: Store)
    requires Holds(st1, node1, data + more, index) && AllZero(st1.disk, more) && Kept(st1, st2, index)
    ensures AllZero(st2.disk, more)
  {
    forall i | 0 <= i < |more|
      ensures more[i] < |st2.disk| && st2.disk[more[i]] == ZeroSector()
    {
      DataApart(st1, node1, data + more, index, |data| + i);
    }
  }

  /** Two growths in a row are one. */
  lemma ExtendsTrans(st: Store, st1: Store, node1: Node, st2: Store, node2: Node,
                     data: seq<nat>, index: seq<nat>,
                     more1: seq<nat>, index1: seq<nat>, more2: seq<nat>, index2: seq<nat>)
    requires Extends(st, st1, node1, data, index, more1, index1)
    requires Extends(st1, st2, node2, data + more1, index + index1, more2, index2)
    ensures Extends(st, st2, node2, data, index, more1 + more2, index1 + index2)
  {
    hide Fresh, Marks, AllZero, Kept, Distinct, Disjoint, PointsTo, Cursor, AllUsed;
    assert data + more1 + more2 == data + (more1 + more2);
    assert index + index1 + index2 == index + (index1 + index2);
    FreshTrans(st.used, st1.used, more1 + index1, more1, more2);
    FreshTrans(st.used, st1.used, more1 + index1, index1, index2);
    MarksTrans(st.used, st1.used, st2.used, more1, index1, more2, index2);
    AllUsedSuffix(st1, index, index1);
    KeptTrans(st, st1, st2, index, more1 + index1, index1, more2 + index2);
    ZeroTrans(st1, node1, data, index + index1, more1, st2);
    AllZeroConcat(st2.disk, more1, more2);
  }

  lemma AllZeroConcat(disk: seq<Sector>, s: seq<nat>, t: seq<nat>)
    requires AllZero(disk, s) && AllZero(disk, t)
    ensures AllZero(disk, s + t)
  {
  }

  lemma AllUsedSuffix(st: Store, s: seq<nat>, t: seq<nat>)
    requires AllUsed(st, s + t)
    ensures AllUsed(st, t)
  {
    forall i | 0 <= i < |t|
      ensures t[i] < |st.used| && st.used[t[i]]
    {
      assert (s + t)[|s| + i] == t[i];
    }
  }

  /** A data sector is in use and is not a pointer block. */
  lemma DataApart(st: Store, node: Node, data: seq<nat>, index: seq<nat>, i: nat)
    requires Holds(st, node, data, index) && i < |data|
    ensures data[i] < |st.used| && st.used[data[i]] && data[i] !in index
  {
  }
}
