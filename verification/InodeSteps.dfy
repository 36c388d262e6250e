/** Each step of the growth loop extends the file as it should. */
module InodeSteps {
  import opened Wrappers
  import opened DiskModel
  import opened BoolSeq
  import opened InodeLayout
  import opened InodeGrow
  import opened InodeGrowLaws

  // ---------------------------------------------------------------- arithmetic of blocks

  /** Sectors that fit in the current block share it, in consecutive slots. */
  lemma SameBlock(n: nat, k: nat)
    requires DIRECT <= n < MAX_SECTORS && n <= k < n + (PER_BLOCK - Slot(n))
    ensures k < MAX_SECTORS && BlockNo(k) == BlockNo(n) && Slot(k) == Slot(n) + (k - n)
  {
  }

  /** Pointer blocks needed before and after adding `c` sectors to the current block. */
  lemma IndexCountStep(n: nat, c: nat)
    requires DIRECT <= n < MAX_SECTORS && 1 <= c <= PER_BLOCK - Slot(n)
    ensures IndexCount(n + c) == BlockNo(n) + 1
    ensures IndexCount(n) == if n == DOUBLE_START then BlockNo(n) - 1
                             else if Slot(n) == 0 then BlockNo(n) else BlockNo(n) + 1
  {
  }

  // ---------------------------------------------------------------- filling the current block

  /** `index1` is `index` with the pointer blocks the current block still lacks. */
  ghost predicate Opened(st: Store, used1: seq<bool>, data: seq<nat>, index: seq<nat>, moreIndex: seq<nat>)
  {
    && DIRECT <= |data| < MAX_SECTORS
    && |index| + |moreIndex| == BlockNo(|data|) + 1
    && Fresh(st.used, moreIndex) && Distinct(moreIndex) && Marks(st.used, used1, moreIndex)
  }

  /** `more` went into the free slots of the current block `b`: on `disk2` the slots before them are as
      they were and the blocks of earlier sectors are as they were. */
  ghost predicate Placed(disk: seq<Sector>, disk2: seq<Sector>, data: seq<nat>, index: seq<nat>, b: nat, more: seq<nat>)
    requires DIRECT <= |data| < MAX_SECTORS
  {
    var i := Slot(|data|);
    && i + |more| <= PER_BLOCK && |disk2| == |disk| && b < |disk|
    && (forall slot :: 0 <= slot < i ==> Unpack(disk2[b])[slot] == Unpack(disk[b])[slot])
    && (forall slot :: i <= slot < i + |more| ==> Unpack(disk2[b])[slot] == more[slot - i])
    && (forall j :: 0 <= j < |index| && j != INDIRECT && j < BlockNo(|data|) ==>
          index[j] < |disk| && disk2[index[j]] == disk[index[j]])
  }

  /** The data pointers after filling the current block. */
  lemma PlacedPtrs(st: Store, node: Node, disk2: seq<Sector>, node2: Node, data: seq<nat>, index: seq<nat>,
                   index1: seq<nat>, more: seq<nat>)
    requires Holds(st, node, data, index) && DIRECT <= |data| < MAX_SECTORS && 1 <= |more|
    requires |index1| == BlockNo(|data|) + 1 && index <= index1
    requires Placed(st.disk, disk2, data, index, index1[BlockNo(|data|)], more)
    requires forall k :: 0 <= k < DIRECT ==> node2.ptrs[k] == node.ptrs[k]
    ensures |data| + |more| <= MAX_SECTORS && |index1| == IndexCount(|data| + |more|)
    ensures DataPtrs(disk2, node2, data + more, index1)
  {
    var n := |data|;
    SameBlock(n, n + |more| - 1);
    IndexCountStep(n, |more|);
    forall k | DIRECT <= k < n + |more|
      ensures BlockNo(k) < |index1| && PtrIn(disk2, index1[BlockNo(k)], Slot(k), (data + more)[k])
    {
      BlockNoBound(k, n + |more|);
      if k < n {
        BlockNoBound(k, n);
        OlderBlock(k, n);
        assert PtrIn(st.disk, index[BlockNo(k)], Slot(k), data[k]);
        assert index1[BlockNo(k)] == index[BlockNo(k)];
      } else {
        SameBlock(n, k);
      }
    }
  }

  /** An earlier sector sits in an earlier block, or in an earlier slot of the same block. */
  lemma OlderBlock(k: nat, n: nat)
    requires DIRECT <= k < n < MAX_SECTORS
    ensures BlockNo(k) < BlockNo(n) || (BlockNo(k) == BlockNo(n) && Slot(k) < Slot(n))
  {
  }

  lemma DistinctConcat(s: seq<nat>, t: seq<nat>)
    requires Distinct(s) && Distinct(t) && Disjoint(s, t)
    ensures Distinct(s + t)
  {
  }

  lemma UsedNotFresh(st: Store, s: seq<nat>, t: seq<nat>)
    requires AllUsed(st, s) && Fresh(st.used, t)
    ensures Disjoint(s, t) && Disjoint(t, s)
  {
  }

  lemma DisjointConcat(s: seq<nat>, s': seq<nat>, t: seq<nat>, t': seq<nat>)
    requires Disjoint(s, t) && Disjoint(s, t') && Disjoint(s', t) && Disjoint(s', t')
    ensures Disjoint(s + s', t + t')
  {
  }

  lemma MarkedUsed(st: Store, st2: Store, s: seq<nat>, t: seq<nat>, m: seq<nat>)
    requires AllUsed(st, s) && Fresh(st.used, t) && Marks(st.used, st2.used, m)
    requires forall i :: 0 <= i < |t| ==> t[i] in m
    ensures AllUsed(st2, s + t)
  {
  }

  /** The sector sets stay different and in use when fresh sectors are added. */
  lemma SetsGrow(st: Store, used1: seq<bool>, st2: Store, data: seq<nat>, index: seq<nat>,
                 more: seq<nat>, moreIndex: seq<nat>)
    requires AllUsed(st, data) && AllUsed(st, index)
    requires Distinct(data) && Distinct(index) && Disjoint(data, index)
    requires Fresh(st.used, moreIndex) && Distinct(moreIndex) && Marks(st.used, used1, moreIndex)
    requires Fresh(used1, more) && Distinct(more) && Marks(used1, st2.used, more)
    ensures Fresh(st.used, more) && Marks(st.used, st2.used, more + moreIndex)
    ensures AllUsed(st2, data + more) && AllUsed(st2, index + moreIndex)
    ensures Distinct(data + more) && Distinct(index + moreIndex) && Disjoint(data + more, index + moreIndex)
  {
    forall j | 0 <= j < |more|
      ensures !st.used[more[j]] && more[j] !in moreIndex
    {
    }
    forall k | 0 <= k < |st.used|
      ensures st2.used[k] <==> st.used[k] || k in more + moreIndex
    {
      assert k in more + moreIndex <==> k in more || k in moreIndex;
    }
    UsedNotFresh(st, data, more);
    UsedNotFresh(st, data, moreIndex);
    UsedNotFresh(st, index, more);
    UsedNotFresh(st, index, moreIndex);
    DistinctConcat(data, more);
    DistinctConcat(index, moreIndex);
    DisjointConcat(data, more, index, moreIndex);
    MarkedUsed(st, st2, data, more, more + moreIndex);
    MarkedUsed(st, st2, index, moreIndex, more + moreIndex);
  }

  /** Everything together: a filled current block extends the file. */
  lemma BlockExtends(st: Store, node: Node, used1: seq<bool>, st2: Store, node2: Node,
                     data: seq<nat>, index: seq<nat>, more: seq<nat>, moreIndex: seq<nat>)
    requires Holds(st, node, data, index) && Opened(st, used1, data, index, moreIndex)
    requires 1 <= |more| && Fresh(used1, more) && Distinct(more) && Marks(used1, st2.used, more)
    requires Placed(st.disk, st2.disk, data, index, (index + moreIndex)[BlockNo(|data|)], more)
    requires forall k :: 0 <= k < DIRECT ==> node2.ptrs[k] == node.ptrs[k]
    requires |index + moreIndex| <= INDIRECT + 1 + PER_BLOCK && IndexPtrs(st2.disk, node2, index + moreIndex)
    requires Cursor(node2, |data| + |more|)
    requires AllZero(st2.disk, more) && Kept(st, st2, index)
    ensures Extends(st, st2, node2, data, index, more, moreIndex)
  {
    assert StoreOk(st2);
    hide Fresh, Marks, Placed, AllZero, Kept, Distinct, Disjoint, AllUsed, IndexPtrs, DataPtrs, Cursor, Unpack;
    PlacedPtrs(st, node, st2.disk, node2, data, index, index + moreIndex, more);
    SetsGrow(st, used1, st2, data, index, more, moreIndex);
  }

  // ---------------------------------------------------------------- direct sectors

  lemma DirectExtends(g: Growth, data: seq<nat>, index: seq<nat>)
    requires GrowthOk(g) && g.status == Ok && g.left > 0
    requires Holds(g.st, g.node, data, index) && |data| < DIRECT && Free(g.st.used) > 0
    ensures g.node.ptrIdx == |data| && FirstFree(g.st.used, 0).Some?
    ensures var r := DirectStep(g);
            var s := FirstFree(g.st.used, 0).value;
            r.status == Ok && r.left == g.left - 1 && Extends(g.st, r.st, r.node, data, index, [s], [])
  {
    hide Distinct, Disjoint, AllUsed, DataPtrs, Free, Unpack;
    FirstFreeIff(g.st.used);
    var s := FirstFree(g.st.used, 0).value;
    var r := DirectStep(g);
    assert index == [] && index + [] == index;
    TakeOne(g.st.used, s);
    SetsGrow(g.st, g.st.used, r.st, data, index, [s], []);
    DirectPtrs(g.st.disk, r.st.disk, g.node, r.node, data, s);
  }

  lemma TakeOne(used: seq<bool>, s: nat)
    requires s < |used| && !used[s]
    ensures Fresh(used, [s]) && Distinct([s]) && Marks(used, used[s := true], [s])
    ensures Fresh(used, []) && Distinct<nat>([]) && Marks(used, used, [])
  {
  }

  lemma DirectPtrs(disk: seq<Sector>, disk2: seq<Sector>, node: Node, node2: Node, data: seq<nat>, s: u32)
    requires |data| < DIRECT && DataPtrs(disk, node, data, [])
    requires node2.ptrs == node.ptrs[|data| := s]
    ensures DataPtrs(disk2, node2, data + [s], [])
  {
  }

  // ---------------------------------------------------------------- blocks reached through a pointer

  /** Sector `b` is one of this file's pointer blocks or was free before. */
  ghost predicate Own(st: Store, index: seq<nat>, b: nat) {
    b in index || (b < |st.used| && !st.used[b])
  }

  /** The new data sectors are neither `b` nor any sector that was in use. */
  lemma OpenedApart(st: Store, used1: seq<bool>, data: seq<nat>, index: seq<nat>, moreIndex: seq<nat>,
                    more: seq<nat>, b: nat)
    requires Opened(st, used1, data, index, moreIndex) && AllUsed(st, index)
    requires Fresh(used1, more) && b in index + moreIndex
    ensures b !in more
    ensures forall s :: 0 <= s < |st.used| && st.used[s] ==> s !in more
    ensures forall s :: 0 <= s < |st.used| && st.used[s] && s !in index ==> s != b
  {
    assert b in index || b in moreIndex;
  }

  /** Earlier pointer blocks are other sectors than the current one. */
  lemma OtherBlocks(st: Store, used1: seq<bool>, data: seq<nat>, index: seq<nat>, moreIndex: seq<nat>, j: nat)
    requires Opened(st, used1, data, index, moreIndex) && AllUsed(st, index) && Distinct(index)
    requires j < |index| && j < BlockNo(|data|)
    ensures index[j] != (index + moreIndex)[BlockNo(|data|)]
  {
    var c := BlockNo(|data|);
    if c < |index| {
      assert (index + moreIndex)[c] == index[c];
    } else {
      assert (index + moreIndex)[c] == moreIndex[c - |index|];
    }
  }

  /** The filled block, written to `b`, holds the old slots and the new sectors. */
  lemma FilledPlaced(st: Store, st1: Store, data: seq<nat>, index: seq<nat>, moreIndex: seq<nat>, b: nat,
                     disk1: seq<Sector>, buf: PtrBlock, buf2: PtrBlock, more: seq<nat>)
    requires StoreOk(st) && Opened(st, st1.used, data, index, moreIndex)
    requires AllUsed(st, index) && Distinct(index)
    requires b == (index + moreIndex)[BlockNo(|data|)] && b < |st.disk|
    requires Slot(|data|) > 0 ==> buf == Unpack(st.disk[b])
    requires Slot(|data|) + |more| <= PER_BLOCK
    requires forall k :: 0 <= k < PER_BLOCK ==>
               buf2[k] == if Slot(|data|) <= k < Slot(|data|) + |more| then more[k - Slot(|data|)] else buf[k]
    requires Fresh(st1.used, more) && Zeroed(st.disk, disk1, more)
    ensures Placed(st.disk, disk1[b := Pack(buf2)], data, index, b, more)
  {
    UnpackPack(buf2);
    assert b in index + moreIndex;
    OpenedApart(st, st1.used, data, index, moreIndex, more, b);
    forall j | 0 <= j < |index| && j != INDIRECT && j < BlockNo(|data|)
      ensures index[j] < |st.disk| && disk1[b := Pack(buf2)][index[j]] == st.disk[index[j]]
    {
      OtherBlocks(st, st1.used, data, index, moreIndex, j);
    }
  }

  /** Writing one of the file's own pointer blocks keeps new data zero and foreign sectors as they were. */
  lemma OwnWriteKeeps(st: Store, st1: Store, index: seq<nat>, more: seq<nat>, b: nat, data: Sector)
    requires Kept(st, st1, index) && AllZero(st1.disk, more)
    requires b < |st1.disk| && b !in more && Own(st, index, b) && st1.used[b]
    ensures Kept(st, WriteSector(st1, b, data), index) && AllZero(WriteSector(st1, b, data).disk, more)
  {
  }

  lemma ZeroedKeeps(st: Store, used1: seq<bool>, st2: Store, index: seq<nat>, moreIndex: seq<nat>, more: seq<nat>)
    requires StoreOk(st) && Marks(st.used, used1, moreIndex) && Fresh(used1, more) && Marks(used1, st2.used, more)
    requires Zeroed(st.disk, st2.disk, more)
    ensures Kept(st, st2, index) && AllZero(st2.disk, more)
  {
  }

  /** The current block `b`, filled and written, holds the new sectors; nothing foreign changed. */
  lemma FilledBlock(st: Store, st1: Store, data: seq<nat>, index: seq<nat>, moreIndex: seq<nat>,
                    b: nat, buf: PtrBlock, left: nat)
    requires StoreOk(st) && AllUsed(st, index) && Distinct(index)
    requires Opened(st, st1.used, data, index, moreIndex)
    requires StoreOk(st1) && st1.disk == st.disk
    requires b == (index + moreIndex)[BlockNo(|data|)] && b < |st.disk|
    requires Slot(|data|) > 0 ==> buf == Unpack(st.disk[b])
    ensures var i := Slot(|data|);
            var f := FillBlock(st1, buf, i, left);
            var more := Taken(st1.used, PER_BLOCK - i, left);
            var disk2 := f.st.disk[b := Pack(f.buf)];
            && f.next == i + |more|
            && Fresh(st1.used, more) && Distinct(more) && Marks(st1.used, f.st.used, more)
            && Placed(st.disk, disk2, data, index, b, more)
            && AllZero(disk2, more) && Kept(st, Store(disk2, f.st.used), index)
            && f.st.used[b]
  {
    hide Unpack, Pack, Placed, Fresh, Marks, Zeroed, Kept, AllZero, Distinct, FillBlock, Taken, Own;
    var i := Slot(|data|);
    var f := FillBlock(st1, buf, i, left);
    var more := Taken(st1.used, PER_BLOCK - i, left);
    FillMarks(st1, buf, i, left);
    FillSlots(st1, buf, i, left);
    FilledPlaced(st, st1, data, index, moreIndex, b, f.st.disk, buf, f.buf, more);
    ZeroedKeeps(st, st1.used, f.st, index, moreIndex, more);
    OpenedApart(st, st1.used, data, index, moreIndex, more, b);
    BlockIsOwn(st, st1.used, f.st.used, data, index, moreIndex, more, BlockNo(|data|));
    OwnWriteKeeps(st, f.st, index, more, b, Pack(f.buf));
  }

  /** The pointer blocks are this file's own and end up in use. */
  lemma BlockIsOwn(st: Store, used1: seq<bool>, used2: seq<bool>, data: seq<nat>, index: seq<nat>, moreIndex: seq<nat>,
                   more: seq<nat>, j: nat)
    requires Opened(st, used1, data, index, moreIndex) && AllUsed(st, index) && Marks(used1, used2, more)
    requires j < |index| + |moreIndex|
    ensures Own(st, index, (index + moreIndex)[j])
    ensures (index + moreIndex)[j] < |used2| && used2[(index + moreIndex)[j]]
  {
    var b := (index + moreIndex)[j];
    if j < |index| { assert b == index[j]; } else { assert b == moreIndex[j - |index|]; }
  }

  ghost function Min(a: nat, b: nat): nat { if a < b then a else b }

  /** The pointer blocks that opening the current single-indirect block adds. */
  ghost function IndirectNew(used: seq<bool>, n: nat): seq<nat>
    requires DIRECT <= n < DOUBLE_START && (Slot(n) == 0 ==> FirstFree(used, 0).Some?)
  {
    if Slot(n) == 0 then [FirstFree(used, 0).value] else []
  }

  lemma IndirectOpens(g: Growth, data: seq<nat>, index: seq<nat>)
    requires GrowthOk(g) && g.status == Ok
    requires Holds(g.st, g.node, data, index) && DIRECT <= |data| < DOUBLE_START
    requires Slot(|data|) == 0 ==> FirstFree(g.st.used, 0).Some?
    ensures DIRECT <= g.node.ptrIdx < DIRECT + INDIRECT && g.node.indirIdx == Slot(|data|)
    ensures var o := OpenBlock(g, g.node.indirIdx == 0);
            var moreIndex := IndirectNew(g.st.used, |data|);
            var b := o.node.ptrs[g.node.ptrIdx];
            && o.status == Ok && o.st.disk == g.st.disk && o.left == g.left && o.dbl == g.dbl
            && Opened(g.st, o.st.used, data, index, moreIndex)
            && b == (index + moreIndex)[BlockNo(|data|)] && b < |g.st.disk|
            && (Slot(|data|) > 0 ==> o.inner == Unpack(g.st.disk[b]))
            && (forall k :: 0 <= k < DIRECT ==> o.node.ptrs[k] == g.node.ptrs[k])
            && |index + moreIndex| <= INDIRECT && IndexPtrs(g.st.disk, o.node, index + moreIndex)
  {
    hide Unpack;
    IndexCountStep(|data|, 1);
    if Slot(|data|) > 0 {
      assert g.node.ptrs[DIRECT + BlockNo(|data|)] == index[BlockNo(|data|)];
      assert index[BlockNo(|data|)] < |g.st.disk|;
    }
  }

  lemma IndirectFree(g: Growth, n: nat)
    requires GrowthOk(g) && g.status == Ok && DIRECT <= n < DOUBLE_START && DIRECT <= g.node.ptrIdx < DIRECT + INDIRECT
    requires g.node.indirIdx == Slot(n)
    requires Free(g.st.used) >= Min(g.left, PER_BLOCK - Slot(n)) + if Slot(n) == 0 then 1 else 0
    ensures Slot(n) == 0 ==> FirstFree(g.st.used, 0).Some?
    ensures var o := OpenBlock(g, g.node.indirIdx == 0);
            o.status == Ok ==> FillBlock(o.st, o.inner, Slot(n), g.left).ok
  {
    FirstFreeIff(g.st.used);
    if Slot(n) == 0 && FirstFree(g.st.used, 0).Some? {
      CountTake(g.st.used, FirstFree(g.st.used, 0).value, |g.st.used|);
    }
    var o := OpenBlock(g, g.node.indirIdx == 0);
    FillFree(o.st, o.inner, Slot(n), g.left);
  }

  lemma IndirectExtends(g: Growth, data: seq<nat>, index: seq<nat>) returns (more: seq<nat>, moreIndex: seq<nat>)
    requires GrowthOk(g) && g.status == Ok && g.left > 0
    requires Holds(g.st, g.node, data, index) && DIRECT <= |data| < DOUBLE_START
    requires Free(g.st.used) >= Min(g.left, PER_BLOCK - Slot(|data|)) + if Slot(|data|) == 0 then 1 else 0
    ensures DIRECT <= g.node.ptrIdx < DIRECT + INDIRECT
    ensures var r := IndirectStep(g);
            && r.status == Ok && r.left == g.left - |more|
            && |more| == Min(g.left, PER_BLOCK - Slot(|data|))
            && |moreIndex| == (if Slot(|data|) == 0 then 1 else 0)
            && Extends(g.st, r.st, r.node, data, index, more, moreIndex)
  {
    hide Unpack, Pack, Placed, Fresh, Marks, Kept, AllZero, PointsTo, FillBlock, Extends, Free;
    var i, idx := Slot(|data|), g.node.ptrIdx;
    assert g.node.indirIdx == i && DIRECT <= idx < DIRECT + INDIRECT;
    IndirectFree(g, |data|);
    IndirectOpens(g, data, index);
    var o := OpenBlock(g, i == 0);
    var b := o.node.ptrs[idx];
    moreIndex := IndirectNew(g.st.used, |data|);
    more := Taken(o.st.used, PER_BLOCK - i, o.left);
    FilledBlock(g.st, o.st, data, index, moreIndex, b, o.inner, o.left);
    var r := IndirectStep(g);
    IndirectCursor(g.node, r.node, |data|, |more|);
    assert IndexPtrs(r.st.disk, r.node, index + moreIndex);
    BlockExtends(g.st, g.node, o.st.used, r.st, r.node, data, index, more, moreIndex);
  }

  lemma IndirectCursor(node: Node, node2: Node, n: nat, c: nat)
    requires Cursor(node, n) && DIRECT <= n < DOUBLE_START && 1 <= c <= PER_BLOCK - Slot(n)
    requires node2.dblIdx == node.dblIdx
    requires if node.indirIdx + c == PER_BLOCK then node2.indirIdx == 0 && node2.ptrIdx == node.ptrIdx + 1
             else node2.indirIdx == node.indirIdx + c && node2.ptrIdx == node.ptrIdx
    ensures Cursor(node2, n + c)
  {
  }

  // ---------------------------------------------------------------- second-level blocks

  /** The pointer blocks that opening the current second-level block adds: the root and the block, the
      block alone, or none. */
  ghost function DoubleNew(used: seq<bool>, n: nat): (r: seq<nat>)
    requires DOUBLE_START <= n < MAX_SECTORS && Free(used) >= DoubleNewCount(n)
    ensures |r| == DoubleNewCount(n)
  {
    FirstFreeIff(used);
    if Slot(n) != 0 then []
    else
      var s := FirstFree(used, 0).value;
      CountTake(used, s, |used|);
      FirstFreeIff(used[s := true]);
      if n == DOUBLE_START then [s, FirstFree(used[s := true], 0).value] else [s]
  }

  function DoubleNewCount(n: nat): nat
    requires DOUBLE_START <= n < MAX_SECTORS
  {
    if n == DOUBLE_START then 2 else if Slot(n) == 0 then 1 else 0
  }

  /** Two free sectors taken one after the other. */
  lemma TakeTwo(used: seq<bool>, s: nat, t: nat)
    requires s < |used| && !used[s] && t < |used| && !used[s := true][t]
    ensures Fresh(used, [s, t]) && Distinct([s, t]) && Marks(used, used[s := true][t := true], [s, t])
  {
  }

  /** The root block is found or allocated; its buffer lists the second-level blocks there are. */
  lemma RootOpens(g: Growth, data: seq<nat>, index: seq<nat>)
    requires GrowthOk(g) && g.status == Ok && Holds(g.st, g.node, data, index)
    requires DOUBLE_START <= |data| < MAX_SECTORS && (|data| == DOUBLE_START ==> FirstFree(g.st.used, 0).Some?)
    ensures g.node.ptrIdx == 14
    ensures (g.node.indirIdx == 0 && g.node.dblIdx == 0) <==> |data| == DOUBLE_START
    ensures var o := OpenBlock(g, |data| == DOUBLE_START);
            && o.status == Ok && o.st.disk == g.st.disk && o.left == g.left
            && o.node == g.node.(ptrs := g.node.ptrs[14 := o.node.ptrs[14]])
            && (if |data| == DOUBLE_START
                then o.node.ptrs[14] == FirstFree(g.st.used, 0).value && o.st.used == g.st.used[o.node.ptrs[14] := true]
                     && |index| == INDIRECT
                else |index| > INDIRECT && o.node.ptrs[14] == index[INDIRECT] && o.st == g.st)
            && (forall j :: INDIRECT < j < |index| ==> o.inner[j - INDIRECT - 1] == index[j])
  {
    hide Unpack;
    IndexCountStep(|data|, 1);
    if |data| > DOUBLE_START {
      assert g.node.ptrs[14] == index[INDIRECT];
      forall j | INDIRECT < j < |index|
        ensures Unpack(g.st.disk[index[INDIRECT]])[j - INDIRECT - 1] == index[j]
      {
        assert PtrIn(g.st.disk, index[INDIRECT], j - INDIRECT - 1, index[j]);
      }
    }
  }

  /** The buffers and the store when the current second-level block is about to be filled. */
  datatype Turn = Turn(st: Store, inner: PtrBlock, dbl: PtrBlock)

  ghost function TurnOf(o: Growth): Turn
    requires GrowthOk(o) && o.status == Ok
    requires if o.node.dblIdx == 0 then FirstFree(o.st.used, 0).Some? else o.inner[o.node.indirIdx] < |o.st.disk|
  {
    if o.node.dblIdx == 0 then
      var s := FirstFree(o.st.used, 0).value;
      Turn(Take(o.st, s), o.inner[o.node.indirIdx := s], o.dbl)
    else Turn(o.st, o.inner, Unpack(o.st.disk[o.inner[o.node.indirIdx]]))
  }

  /** Opening the current second-level block succeeds. */
  ghost predicate Ready(g: Growth, n: nat) {
    && GrowthOk(g) && g.status == Ok && g.node.ptrIdx == 14
    && (n == DOUBLE_START ==> FirstFree(g.st.used, 0).Some?)
    && (var o := OpenBlock(g, n == DOUBLE_START);
        && o.status == Ok
        && if o.node.dblIdx == 0 then FirstFree(o.st.used, 0).Some? else o.inner[o.node.indirIdx] < |o.st.disk|)
  }

  ghost function ReadyTurn(g: Growth, n: nat): Turn
    requires Ready(g, n)
  {
    TurnOf(OpenBlock(g, n == DOUBLE_START))
  }

  lemma BlockOpens(g: Growth, data: seq<nat>, index: seq<nat>)
    requires GrowthOk(g) && g.status == Ok && Holds(g.st, g.node, data, index)
    requires DOUBLE_START <= |data| < MAX_SECTORS && Free(g.st.used) >= DoubleNewCount(|data|)
    ensures Ready(g, |data|)
    ensures var t := ReadyTurn(g, |data|);
            var moreIndex := DoubleNew(g.st.used, |data|);
            && StoreOk(t.st) && t.st.disk == g.st.disk
            && Fresh(g.st.used, moreIndex) && Distinct(moreIndex) && Marks(g.st.used, t.st.used, moreIndex)
            && Free(t.st.used) == Free(g.st.used) - DoubleNewCount(|data|)
  {
    hide Unpack, Holds, Marks, Fresh, Distinct;
    FirstFreeIff(g.st.used);
    RootOpens(g, data, index);
    var o := OpenBlock(g, |data| == DOUBLE_START);
    FirstFreeIff(o.st.used);
    assert Cursor(g.node, |data|) && AllUsed(g.st, index) by { HoldsParts(g.st, g.node, data, index); }
    if |data| == DOUBLE_START {
      var s := FirstFree(g.st.used, 0).value;
      CountTake(g.st.used, s, |g.st.used|);
      var t := FirstFree(o.st.used, 0).value;
      CountTake(o.st.used, t, |o.st.used|);
      TakeTwo(g.st.used, s, t);
    } else if Slot(|data|) == 0 {
      var s := FirstFree(g.st.used, 0).value;
      CountTake(g.st.used, s, |g.st.used|);
      TakeOne(g.st.used, s);
    } else {
      TakeNone(g.st.used);
      IndexCountFor(g.st, g.node, data, index);
      assert o.inner[o.node.indirIdx] == index[BlockNo(|data|)];
    }
  }

  lemma TakeNone(used: seq<bool>)
    ensures Fresh(used, []) && Distinct<nat>([]) && Marks(used, used, [])
  {
  }

  lemma HoldsParts(st: Store, node: Node, data: seq<nat>, index: seq<nat>)
    requires Holds(st, node, data, index)
    ensures Cursor(node, |data|) && AllUsed(st, data) && AllUsed(st, index) && StoreOk(st) && |data| <= MAX_SECTORS
    ensures Distinct(data) && Distinct(index) && Disjoint(data, index)
  {
  }

  lemma IndexCountFor(st: Store, node: Node, data: seq<nat>, index: seq<nat>)
    requires Holds(st, node, data, index) && DIRECT <= |data| < MAX_SECTORS
    ensures |index| == if |data| == DOUBLE_START then BlockNo(|data|) - 1
                       else if Slot(|data|) == 0 then BlockNo(|data|) else BlockNo(|data|) + 1
  {
    IndexCountStep(|data|, 1);
  }

  /** The root's buffer, with the current second-level block in place, lists the blocks in order. */
  lemma BuffersOpen(g: Growth, data: seq<nat>, index: seq<nat>)
    requires GrowthOk(g) && g.status == Ok && Holds(g.st, g.node, data, index)
    requires DOUBLE_START <= |data| < MAX_SECTORS && Free(g.st.used) >= DoubleNewCount(|data|)
    requires Ready(g, |data|)
    ensures var o := OpenBlock(g, |data| == DOUBLE_START);
            var t := ReadyTurn(g, |data|);
            var index1 := index + DoubleNew(g.st.used, |data|);
            && |index1| == BlockNo(|data|) + 1 == INDIRECT + 2 + g.node.indirIdx
            && o.node.ptrs[14] == index1[INDIRECT]
            && (forall j :: INDIRECT < j < |index1| ==> t.inner[j - INDIRECT - 1] == index1[j])
            && index1[INDIRECT] < |g.st.disk| && index1[BlockNo(|data|)] < |g.st.disk|
            && (Slot(|data|) > 0 ==> t.dbl == Unpack(g.st.disk[index1[BlockNo(|data|)]]))
            && (forall j :: 0 <= j < INDIRECT ==> o.node.ptrs[DIRECT + j] == index1[j])
            && (forall k :: 0 <= k < DIRECT ==> o.node.ptrs[k] == g.node.ptrs[k])
  {
    hide Unpack;
    RootOpens(g, data, index);
    IndexCountFor(g.st, g.node, data, index);
    var o := OpenBlock(g, |data| == DOUBLE_START);
    var t := TurnOf(o);
    var moreIndex := DoubleNew(g.st.used, |data|);
    var index1 := index + moreIndex;
    forall j | INDIRECT < j < |index1|
      ensures t.inner[j - INDIRECT - 1] == index1[j]
    {
      if j < |index| { assert index1[j] == index[j]; }
    }
    if |data| > DOUBLE_START { assert index1[INDIRECT] == index[INDIRECT] < |g.st.disk|; }
    if Slot(|data|) > 0 { assert index1[BlockNo(|data|)] == index[BlockNo(|data|)] < |g.st.disk|; }
  }

  /** Confined to one second-level block, the loop turns once. */
  lemma OneTurn(o: Growth)
    requires GrowthOk(o) && o.status == Ok && 0 < o.left <= PER_BLOCK - o.node.dblIdx
    requires if o.node.dblIdx == 0 then FirstFree(o.st.used, 0).Some? else o.inner[o.node.indirIdx] < |o.st.disk|
    requires TurnOf(o).inner[o.node.indirIdx] < |o.st.disk|
    requires FillBlock(TurnOf(o).st, TurnOf(o).dbl, o.node.dblIdx, o.left).ok
    ensures var t := TurnOf(o);
            var f := FillBlock(t.st, t.dbl, o.node.dblIdx, o.left);
            var (d, i) := DoubleLoop(o, o.node.indirIdx);
            && d.status == Ok && d.left == 0 && d.inner == t.inner
            && d.st == WriteSector(f.st, t.inner[o.node.indirIdx], Pack(f.buf))
            && d.node == o.node.(dblIdx := if f.next == PER_BLOCK then 0 else f.next)
            && i == o.node.indirIdx + if f.next == PER_BLOCK then 1 else 0
  {
    hide Unpack, Pack, FillBlock;
    var b := DoubleBlock(o, o.node.indirIdx);
    assert b.status == Ok && b.left == 0;
  }

  lemma DoubleCursor(node: Node, node2: Node, n: nat, c: nat)
    requires Cursor(node, n) && DOUBLE_START <= n < MAX_SECTORS && 1 <= c <= PER_BLOCK - Slot(n)
    requires var full := node.dblIdx + c == PER_BLOCK;
             var i := node.indirIdx + if full then 1 else 0;
             && node2.dblIdx == (if full then 0 else node.dblIdx + c)
             && (if i == PER_BLOCK then node2.indirIdx == 0 && node2.ptrIdx == 15
                 else node2.indirIdx == i && node2.ptrIdx == node.ptrIdx)
    ensures Cursor(node2, n + c)
  {
  }

  /** Writing the root block on top keeps the filled block in place. */
  lemma RootPlaced(st: Store, used1: seq<bool>, disk2: seq<Sector>, data: seq<nat>, index: seq<nat>,
                   moreIndex: seq<nat>, more: seq<nat>, root: Sector)
    requires StoreOk(st) && AllUsed(st, index) && Distinct(index)
    requires DOUBLE_START <= |data| < MAX_SECTORS && Opened(st, used1, data, index, moreIndex)
    requires |disk2| == |st.disk| && (index + moreIndex)[INDIRECT] < |st.disk|
    requires Placed(st.disk, disk2, data, index, (index + moreIndex)[BlockNo(|data|)], more)
    ensures Placed(st.disk, disk2[(index + moreIndex)[INDIRECT] := root], data, index,
                   (index + moreIndex)[BlockNo(|data|)], more)
  {
    var index1 := index + moreIndex;
    UsedNotFresh(st, index, moreIndex);
    DistinctConcat(index, moreIndex);
    assert index1[INDIRECT] != index1[BlockNo(|data|)];
    forall j | 0 <= j < |index| && j != INDIRECT
      ensures index[j] != index1[INDIRECT]
    {
      assert index1[j] == index[j];
    }
  }

  /** The pointers to pointer blocks once the root buffer is on the disk. */
  lemma RootPtrs(disk2: seq<Sector>, node: Node, inner: PtrBlock, index1: seq<nat>)
    requires INDIRECT < |index1| <= INDIRECT + 1 + PER_BLOCK && index1[INDIRECT] < |disk2|
    requires node.ptrs[14] == index1[INDIRECT]
    requires forall j :: 0 <= j < INDIRECT ==> node.ptrs[DIRECT + j] == index1[j]
    requires forall j :: INDIRECT < j < |index1| ==> inner[j - INDIRECT - 1] == index1[j]
    ensures IndexPtrs(disk2[index1[INDIRECT] := Pack(inner)], node, index1)
  {
    UnpackPack(inner);
    hide Pack, Unpack;
  }

  /** What a confined double-indirect step leaves behind. */
  lemma DoubleStepIs(g: Growth, data: seq<nat>, index: seq<nat>, index1: seq<nat>)
    requires g.left > 0 && Holds(g.st, g.node, data, index)
    requires DOUBLE_START <= |data| < MAX_SECTORS && g.left <= PER_BLOCK - Slot(|data|)
    requires Free(g.st.used) >= g.left + DoubleNewCount(|data|)
    requires Ready(g, |data|) && index1 == index + DoubleNew(g.st.used, |data|)
    requires |index1| == BlockNo(|data|) + 1 && index1[INDIRECT] < |g.st.disk| && index1[BlockNo(|data|)] < |g.st.disk|
    requires StoreOk(ReadyTurn(g, |data|).st) && |ReadyTurn(g, |data|).st.disk| == |g.st.disk|
    ensures var t := ReadyTurn(g, |data|);
            var f := FillBlock(t.st, t.dbl, Slot(|data|), g.left);
            var r := DoubleStep(g);
            && r.status == Ok && r.left == 0 && f.ok && f.next == Slot(|data|) + g.left
            && r.st == Store(f.st.disk[index1[BlockNo(|data|)] := Pack(f.buf)]
                                      [index1[INDIRECT] := Pack(t.inner)], f.st.used)
            && r.node.ptrs == OpenBlock(g, |data| == DOUBLE_START).node.ptrs
            && Cursor(r.node, |data| + g.left)
  {
    hide Unpack, Pack, Holds, Marks, Fresh, Distinct, DoubleLoop, DoubleBlock, FillBlock;
    BlockOpens(g, data, index);
    BuffersOpen(g, data, index);
    RootOpens(g, data, index);
    HoldsParts(g.st, g.node, data, index);
    var o := OpenBlock(g, |data| == DOUBLE_START);
    var t := TurnOf(o);
    FillFree(t.st, t.dbl, Slot(|data|), g.left);
    OneTurn(o);
    var r := DoubleStep(g);
    DoubleCursor(g.node, r.node, |data|, g.left);
  }

  lemma DoubleExtends(g: Growth, data: seq<nat>, index: seq<nat>) returns (more: seq<nat>, moreIndex: seq<nat>)
    requires GrowthOk(g) && g.status == Ok && g.left > 0 && Holds(g.st, g.node, data, index)
    requires DOUBLE_START <= |data| < MAX_SECTORS && g.left <= PER_BLOCK - Slot(|data|)
    requires Free(g.st.used) >= g.left + DoubleNewCount(|data|)
    ensures g.node.ptrIdx == 14
    ensures var r := DoubleStep(g);
            && r.status == Ok && r.left == 0 && |more| == g.left && |moreIndex| == DoubleNewCount(|data|)
            && Extends(g.st, r.st, r.node, data, index, more, moreIndex)
  {
    hide Unpack, Pack, Holds, Marks, Fresh, Distinct, DoubleStep, FillBlock, Placed, AllZero, Kept, Extends, AllUsed,
         IndexPtrs, Cursor, OpenBlock, ReadyTurn, Disjoint, FirstFree, Count;
    BlockOpens(g, data, index);
    BuffersOpen(g, data, index);
    HoldsParts(g.st, g.node, data, index);
    var t := ReadyTurn(g, |data|);
    moreIndex := DoubleNew(g.st.used, |data|);
    more := Taken(t.st.used, PER_BLOCK - Slot(|data|), g.left);
    var index1 := index + moreIndex;
    DoubleStepIs(g, data, index, index1);
    var r := DoubleStep(g);
    var b, root := index1[BlockNo(|data|)], index1[INDIRECT];
    var f := FillBlock(t.st, t.dbl, Slot(|data|), g.left);
    assert Opened(g.st, t.st.used, data, index, moreIndex);
    FilledBlock(g.st, t.st, data, index, moreIndex, b, t.dbl, g.left);
    var disk2 := f.st.disk[b := Pack(f.buf)];
    RootPlaced(g.st, t.st.used, disk2, data, index, moreIndex, more, Pack(t.inner));
    RootPtrs(disk2, r.node, t.inner, index1);
    assert root in index1;
    OpenedApart(g.st, t.st.used, data, index, moreIndex, more, root);
    BlockIsOwn(g.st, t.st.used, f.st.used, data, index, moreIndex, more, INDIRECT);
    OwnWriteKeeps(g.st, Store(disk2, f.st.used), index, more, root, Pack(t.inner));
    BlockExtends(g.st, g.node, t.st.used, r.st, r.node, data, index, more, moreIndex);
  }
}
