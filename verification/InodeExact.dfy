/**
 The limits of `inode_grow`.  Its double-indirect loop allocates and reads second-level blocks through
 an index it never advances, so a growth that reaches a second such block destroys the first.  This
 module proves that the caller's conditions of `InodeTheorems.CanGrow` are exact.
 */
module InodeExact {
  import opened DiskModel
  import opened BoolSeq
  import opened InodeLayout
  import opened InodeGrow
  import opened InodeGrowLaws
  import opened InodeSteps
  import opened InodeTheorems

  /** The same free map, and the same contents of every sector in use. */
  ghost predicate SameInUse(st: Store, st0: Store) {
    && st0.used == st.used && |st0.disk| == |st.disk|
    && forall s :: 0 <= s < |st.used| && s < |st.disk| && st.used[s] ==> st0.disk[s] == st.disk[s]
  }

  lemma HoldsSameInUse(st: Store, st0: Store, node: Node, data: seq<nat>, index: seq<nat>)
    requires Holds(st, node, data, index) && SameInUse(st, st0)
    ensures Holds(st0, node, data, index)
  {
    hide Unpack;
    IndexCountBound(|data|);
    forall k | DIRECT <= k < |data|
      ensures BlockNo(k) < |index| && PtrIn(st0.disk, index[BlockNo(k)], Slot(k), data[k])
    {
      BlockNoBound(k, |data|);
      assert PtrIn(st.disk, index[BlockNo(k)], Slot(k), data[k]);
    }
  }

  /** The call does what it is for: it ends normally with `m` sectors appended to the file. */
  ghost predicate GrowsRight(st: Store, node: Node, data: seq<nat>, index: seq<nat>, m: nat,
                             inner: PtrBlock, dbl: PtrBlock)
    requires StoreOk(st) && NodeOk(node)
  {
    var r := Grow(st, node, m, inner, dbl);
    && r.status == Ok
    && exists more, moreIndex :: |more| == m && Extends(st, r.st, r.node, data, index, more, moreIndex)
  }

  // ---------------------------------------------------------------- room is needed

  /** Whatever the code does: appending `m` sectors takes room for them and for their pointer blocks. */
  lemma ExtendsNeedsRoom(st: Store, st': Store, node': Node, data: seq<nat>, index: seq<nat>,
                         more: seq<nat>, moreIndex: seq<nat>)
    requires Extends(st, st', node', data, index, more, moreIndex) && |index| == IndexCount(|data|)
    ensures |data| + |more| <= MAX_SECTORS
    ensures Free(st.used) + Total(|data|) >= Total(|data| + |more|)
  {
    FreeAfterGrowth(st, st', node', data, index, more, moreIndex);
    hide Free;
  }

  // ---------------------------------------------------------------- crossing destroys a block

  /** Every free sector is zero. */
  ghost predicate FreeIsZero(st: Store) {
    |st.disk| == |st.used| && forall s :: 0 <= s < |st.used| && !st.used[s] ==> st.disk[s] == ZeroSector()
  }

  /** `s` is one of the sectors named by slots `lo + 1 .. hi`, exclusive, of the root buffer. */
  ghost predicate Named(inner: PtrBlock, s: nat, lo: nat, hi: nat)
    requires hi <= PER_BLOCK
  {
    exists j :: lo < j < hi && inner[j] == s
  }

  /** A free sector is zero unless the loop wrote it through a stale slot. */
  ghost predicate ZeroOrNamed(st: Store, inner: PtrBlock, lo: nat, hi: nat)
    requires hi <= PER_BLOCK
  {
    && |st.disk| == |st.used|
    && forall s :: 0 <= s < |st.used| && !st.used[s] ==> st.disk[s] == ZeroSector() || Named(inner, s, lo, hi)
  }

  /** The first block's slot names a sector that holds no pointers, or that a later slot names too. */
  ghost predicate Ruined(disk: seq<Sector>, inner: PtrBlock, lo: nat, hi: nat, root: nat)
    requires lo < hi <= PER_BLOCK
  {
    && inner[lo] < |disk| && inner[lo] != root
    && (disk[inner[lo]] == ZeroSector() || Named(inner, inner[lo], lo, hi))
  }

  /** A turn after the first: it takes a new sector for the first block's slot and writes elsewhere. */
  lemma LaterTurn(g: Growth, i: nat, root: nat)
    requires GrowthOk(g) && g.status == Ok && g.left > 0 && g.node.dblIdx == 0 && g.node.indirIdx < i < PER_BLOCK
    requires ZeroOrNamed(g.st, g.inner, g.node.indirIdx, i)
    requires root < |g.st.used| && g.st.used[root]
    ensures var b := DoubleBlock(g, i);
            b.status == Ok ==>
              && ZeroOrNamed(b.st, b.inner, g.node.indirIdx, i + 1)
              && Ruined(b.st.disk, b.inner, g.node.indirIdx, i + 1, root)
              && b.st.used[root]
  {
    hide Pack, Unpack;
    var lo := g.node.indirIdx;
    var b := DoubleBlock(g, i);
    if b.status == Ok {
      var s := FirstFree(g.st.used, 0).value;
      var st := Take(g.st, s);
      var inner := g.inner[lo := s];
      FillMarks(st, g.dbl, 0, g.left);
      var more := Taken(st.used, PER_BLOCK, g.left);
      var f := FillBlock(st, g.dbl, 0, g.left);
      assert b.inner == inner && b.st == WriteSector(f.st, inner[i], Pack(f.buf));
      NamedStays(g.inner, inner, lo, i);
      assert Named(inner, inner[i], lo, i + 1);
      hide Named, FillBlock, Taken;
      forall t | 0 <= t < |b.st.used| && (t == s || !b.st.used[t])
        ensures b.st.disk[t] == ZeroSector() || Named(inner, t, lo, i + 1)
      {
        assert !g.st.used[t] && t !in more;
        assert t != inner[i] ==> b.st.disk[t] == g.st.disk[t];
      }
    }
  }

  lemma NamedStays(inner: PtrBlock, inner': PtrBlock, lo: nat, i: nat)
    requires lo < i < PER_BLOCK && inner' == inner[lo := inner'[lo]]
    ensures forall s: nat :: Named(inner, s, lo, i) ==> Named(inner', s, lo, i + 1)
  {
    forall s: nat | Named(inner, s, lo, i)
      ensures Named(inner', s, lo, i + 1)
    {
      var j :| lo < j < i && inner[j] == s;
      assert inner'[j] == s;
    }
  }

  /** Once past the first block, the first block's slot is ruined when the loop ends. */
  lemma {:induction false} CrossedLoop(g: Growth, i: nat, root: nat) returns (hi: nat)
    requires GrowthOk(g) && g.status == Ok && g.left > 0 && g.node.dblIdx == 0 && g.node.indirIdx < i < PER_BLOCK
    requires ZeroOrNamed(g.st, g.inner, g.node.indirIdx, i)
    requires root < |g.st.used| && g.st.used[root]
    ensures i < hi <= PER_BLOCK && PER_BLOCK * (hi - 1) < PER_BLOCK * i + g.left
    ensures var d := DoubleLoop(g, i).0;
            d.status == Ok ==> Ruined(d.st.disk, d.inner, g.node.indirIdx, hi, root)
    decreases g.left
  {
    hide ZeroOrNamed, Ruined, DoubleBlock;
    LaterTurn(g, i, root);
    hi := i + 1;
    var b := DoubleBlock(g, i);
    if b.status == Ok && b.node.dblIdx == PER_BLOCK {
      var g' := b.(node := b.node.(dblIdx := 0));
      if g'.left > 0 && i + 1 < PER_BLOCK {
        hi := CrossedLoop(g', i + 1, root);
      }
    }
  }

  /** The first turn of a crossing growth fills its block and leaves the free sectors zero. */
  lemma FirstTurn(o: Growth, root: nat)
    requires GrowthOk(o) && o.status == Ok && o.left > PER_BLOCK - o.node.dblIdx && FreeIsZero(o.st)
    requires if o.node.dblIdx == 0 then FirstFree(o.st.used, 0).Some?
             else o.inner[o.node.indirIdx] < |o.st.disk| && o.st.used[o.inner[o.node.indirIdx]]
    requires root < |o.st.used| && o.st.used[root]
    ensures var b := DoubleBlock(o, o.node.indirIdx);
            b.status == Ok ==>
              && b.node.dblIdx == PER_BLOCK && b.left == o.left - (PER_BLOCK - o.node.dblIdx)
              && ZeroOrNamed(b.st, b.inner, o.node.indirIdx, o.node.indirIdx + 1) && b.st.used[root]
  {
    hide Pack, Unpack;
    var lo := o.node.indirIdx;
    var b := DoubleBlock(o, lo);
    if b.status == Ok {
      var t := TurnOf(o);
      FillMarks(t.st, t.dbl, o.node.dblIdx, o.left);
      var more := Taken(t.st.used, PER_BLOCK - o.node.dblIdx, o.left);
      var f := FillBlock(t.st, t.dbl, o.node.dblIdx, o.left);
      assert b.st == WriteSector(f.st, t.inner[lo], Pack(f.buf));
      forall s | 0 <= s < |b.st.used| && !b.st.used[s]
        ensures b.st.disk[s] == ZeroSector()
      {
        assert !o.st.used[s] && s !in more && s != t.inner[lo];
      }
    }
  }

  /** An inode whose root block has a ruined slot holds no file that reaches those blocks. */
  lemma RuinedHoldsNothing(disk1: seq<Sector>, st: Store, node: Node, data: seq<nat>, index: seq<nat>,
                           inner: PtrBlock, lo: nat, hi: nat)
    requires node.ptrs[14] < |disk1| && st.disk == disk1[node.ptrs[14] := Pack(inner)]
    requires lo < hi <= PER_BLOCK && Ruined(disk1, inner, lo, hi, node.ptrs[14])
    requires DOUBLE_START + PER_BLOCK * lo + 1 < |data| && DOUBLE_START + PER_BLOCK * (hi - 1) < |data|
    ensures !Holds(st, node, data, index)
  {
    if Holds(st, node, data, index) {
      UnpackPack(inner);
      UnpackZero();
      hide Pack, Unpack;
      IndexCountBound(|data|);
      SlotNamed(st, node, data, index, inner, lo);
      if Named(inner, inner[lo], lo, hi) {
        var j :| lo < j < hi && inner[j] == inner[lo];
        SlotNamed(st, node, data, index, inner, j);
      } else {
        FirstSlots(st, node, data, index, lo);
      }
      assert false;
    }
  }

  /** The first two sectors of a second-level block are its first two slots. */
  lemma FirstSlots(st: Store, node: Node, data: seq<nat>, index: seq<nat>, j: nat)
    requires Holds(st, node, data, index) && j < PER_BLOCK && DOUBLE_START + PER_BLOCK * j + 1 < |data|
    requires INDIRECT + 1 + j < |index|
    ensures var k := DOUBLE_START + PER_BLOCK * j;
            && PtrIn(st.disk, index[INDIRECT + 1 + j], 0, data[k])
            && PtrIn(st.disk, index[INDIRECT + 1 + j], 1, data[k + 1])
            && data[k] != data[k + 1]
  {
    hide Unpack;
    var k := DOUBLE_START + PER_BLOCK * j;
    assert BlockNo(k) == BlockNo(k + 1) == INDIRECT + 1 + j && Slot(k) == 0 && Slot(k + 1) == 1;
    assert PtrIn(st.disk, index[BlockNo(k)], Slot(k), data[k]);
    assert PtrIn(st.disk, index[BlockNo(k + 1)], Slot(k + 1), data[k + 1]);
  }

  lemma UnpackZero()
    ensures forall i :: 0 <= i < PER_BLOCK ==> Unpack(ZeroSector())[i] == 0
  {
  }

  /** The root block's slot `j` is the file's pointer block for that stretch. */
  lemma SlotNamed(st: Store, node: Node, data: seq<nat>, index: seq<nat>, inner: PtrBlock, j: nat)
    requires Holds(st, node, data, index) && j < PER_BLOCK && DOUBLE_START + PER_BLOCK * j < |data|
    requires node.ptrs[14] < |st.disk| && Unpack(st.disk[node.ptrs[14]]) == inner
    ensures INDIRECT + 1 + j < |index| && index[INDIRECT + 1 + j] == inner[j]
  {
    hide Unpack;
    IndexCountBound(|data|);
    BlockNoBound(DOUBLE_START + PER_BLOCK * j, |data|);
    assert BlockNo(DOUBLE_START + PER_BLOCK * j) == INDIRECT + 1 + j;
    assert PtrIn(st.disk, index[INDIRECT], j, index[INDIRECT + 1 + j]);
  }

  // ---------------------------------------------------------------- whole calls

  lemma FreeIsZeroAfter(st: Store, st': Store, node': Node, data: seq<nat>, index: seq<nat>,
                        more: seq<nat>, moreIndex: seq<nat>)
    requires FreeIsZero(st) && Extends(st, st', node', data, index, more, moreIndex) && AllUsed(st, index)
    ensures FreeIsZero(st')
  {
  }

  /** Up to the double-indirect region nothing goes wrong. */
  lemma {:induction false} Approach(g: Growth, data: seq<nat>, index: seq<nat>)
      returns (g': Growth, more: seq<nat>, moreIndex: seq<nat>)
    requires GrowthOk(g) && g.status == Ok && Holds(g.st, g.node, data, index) && FreeIsZero(g.st)
    requires |data| <= DOUBLE_START < |data| + g.left
    requires Free(g.st.used) + Total(|data|) >= Total(|data| + g.left)
    ensures GrowthOk(g') && g'.status == Ok && GrowLoop(g) == GrowLoop(g')
    ensures Extends(g.st, g'.st, g'.node, data, index, more, moreIndex) && FreeIsZero(g'.st)
    ensures |data| + |more| == DOUBLE_START && g'.left == g.left - |more|
    ensures Free(g'.st.used) + Total(DOUBLE_START) >= Total(|data| + g.left)
    decreases g.left
  {
    hide Free, Extends, Holds, FreeIsZero, FirstFree, DirectStep, IndirectStep, Total, IndexCount;
    if |data| == DOUBLE_START {
      ExtendsNothing(g.st, g.node, data, index);
      return g, [], [];
    }
    var more1, index1 := ApproachStep(g, data, index);
    var r := LoopStep(g);
    HoldsParts(g.st, g.node, data, index);
    FreeIsZeroAfter(g.st, r.st, r.node, data, index, more1, index1);
    RoomAfter(g.st, r.st, r.node, data, index, more1, index1, g.left);
    var more2, index2;
    g', more2, index2 := Approach(r, data + more1, index + index1);
    ExtendsTrans(g.st, r.st, r.node, g'.st, g'.node, data, index, more1, index1, more2, index2);
    more, moreIndex := more1 + more2, index1 + index2;
  }

  lemma ApproachStep(g: Growth, data: seq<nat>, index: seq<nat>) returns (more: seq<nat>, moreIndex: seq<nat>)
    requires GrowthOk(g) && g.status == Ok && g.left > 0 && Holds(g.st, g.node, data, index)
    requires |data| < DOUBLE_START <= |data| + g.left
    requires Free(g.st.used) + Total(|data|) >= Total(|data| + g.left)
    ensures |index| == IndexCount(|data|) && g.node.ptrIdx < NUM_PTRS
    ensures var r := LoopStep(g);
            && r.status == Ok && r.left == g.left - |more| && 0 < |more| && |data| + |more| <= DOUBLE_START
            && Extends(g.st, r.st, r.node, data, index, more, moreIndex)
  {
    assert |index| == IndexCount(|data|);
    hide Free, Extends, Holds, FirstFree, DirectStep, IndirectStep;
    if |data| < DIRECT {
      DirectExtends(g, data, index);
      more, moreIndex := [FirstFree(g.st.used, 0).value], [];
    } else {
      IndirectRoom(Free(g.st.used), |data|, g.left);
      more, moreIndex := IndirectExtends(g, data, index);
    }
  }

  lemma RoomAfter(st: Store, st': Store, node': Node, data: seq<nat>, index: seq<nat>,
                  more: seq<nat>, moreIndex: seq<nat>, m: nat)
    requires Extends(st, st', node', data, index, more, moreIndex) && |index| == IndexCount(|data|)
    requires Free(st.used) + Total(|data|) >= Total(|data| + m)
    ensures Holds(st', node', data + more, index + moreIndex)
    ensures Free(st'.used) + Total(|data + more|) >= Total(|data| + m)
  {
    FreeAfterGrowth(st, st', node', data, index, more, moreIndex);
    hide Free;
  }

  /** The loop, when the growth crosses its first block. */
  lemma CrossingRuins(o: Growth, root: nat) returns (hi: nat)
    requires GrowthOk(o) && o.status == Ok && o.left > PER_BLOCK - o.node.dblIdx && FreeIsZero(o.st)
    requires if o.node.dblIdx == 0 then FirstFree(o.st.used, 0).Some?
             else o.inner[o.node.indirIdx] < |o.st.disk| && o.st.used[o.inner[o.node.indirIdx]]
    requires root < |o.st.used| && o.st.used[root] && o.node.indirIdx + 1 < PER_BLOCK
    ensures o.node.indirIdx < hi <= PER_BLOCK
    ensures PER_BLOCK * (hi - 1) < PER_BLOCK * o.node.indirIdx + o.node.dblIdx + o.left
    ensures var d := DoubleLoop(o, o.node.indirIdx).0;
            d.status == Ok ==> Ruined(d.st.disk, d.inner, o.node.indirIdx, hi, root)
  {
    hide ZeroOrNamed, Ruined, DoubleBlock, FreeIsZero;
    var lo := o.node.indirIdx;
    FirstTurn(o, root);
    hi := lo + 1;
    var b := DoubleBlock(o, lo);
    if b.status == Ok {
      hi := CrossedLoop(b.(node := b.node.(dblIdx := 0)), lo + 1, root);
    }
  }

  /** A growth that starts behind the double-indirect pointer and crosses leaves no usable inode. */
  lemma CrossingStep(g: Growth, data: seq<nat>, index: seq<nat>, data': seq<nat>, index': seq<nat>)
    requires GrowthOk(g) && g.status == Ok && Holds(g.st, g.node, data, index) && FreeIsZero(g.st)
    requires DOUBLE_START <= |data| < MAX_SECTORS && |data| + g.left <= MAX_SECTORS
    requires g.left > PER_BLOCK - Slot(|data|) && Free(g.st.used) >= DoubleNewCount(|data|)
    requires |data'| == |data| + g.left
    ensures g.node.ptrIdx == 14
    ensures DoubleStep(g).status == Ok ==> !Holds(DoubleStep(g).st, DoubleStep(g).node, data', index')
  {
    assert Cursor(g.node, |data|);
    hide Pack, Unpack, Holds, Free, FreeIsZero, Ruined, DoubleLoop, OpenBlock;
    OpenKeepsZero(g, data, index);
    RootOpens(g, data, index);
    var o := OpenBlock(g, |data| == DOUBLE_START);
    var hi := CrossingRuins(o, o.node.ptrs[14]);
    var d := DoubleLoop(o, o.node.indirIdx).0;
    if d.status == Ok {
      var r := DoubleStep(g);
      RuinedHoldsNothing(d.st.disk, r.st, r.node, data', index', d.inner, o.node.indirIdx, hi);
    }
  }

  /** Opening the root keeps free sectors zero, and the current block's sector is in use. */
  lemma OpenKeepsZero(g: Growth, data: seq<nat>, index: seq<nat>)
    requires GrowthOk(g) && g.status == Ok && Holds(g.st, g.node, data, index) && FreeIsZero(g.st)
    requires DOUBLE_START <= |data| < MAX_SECTORS && Free(g.st.used) >= DoubleNewCount(|data|)
    ensures Ready(g, |data|)
    ensures var o := OpenBlock(g, |data| == DOUBLE_START);
            && FreeIsZero(o.st) && o.node.ptrs[14] < |o.st.used| && o.st.used[o.node.ptrs[14]]
            && (o.node.dblIdx != 0 ==> o.st.used[o.inner[o.node.indirIdx]])
  {
    hide Unpack;
    BlockOpens(g, data, index);
    RootOpens(g, data, index);
    IndexCountFor(g.st, g.node, data, index);
    var o := OpenBlock(g, |data| == DOUBLE_START);
    if o.node.dblIdx != 0 {
      assert o.inner[o.node.indirIdx] == index[BlockNo(|data|)];
    }
  }

  lemma Crossing(n: nat, m: nat)
    requires n + m <= MAX_SECTORS && !Confined(n, m)
    ensures n + m > DOUBLE_START && m > 0
    ensures n < DOUBLE_START ==> !Confined(DOUBLE_START, n + m - DOUBLE_START)
    ensures n >= DOUBLE_START ==> n < MAX_SECTORS && m > PER_BLOCK - Slot(n)
  {
  }

  lemma DoubleFirst(free: nat, n: nat, m: nat)
    requires DOUBLE_START <= n < MAX_SECTORS && m > 0 && free + Total(n) >= Total(n + m)
    ensures free >= DoubleNewCount(n)
  {
    IndexCountStep(n, 1);
    TotalMonotone(n + 1, m - 1);
  }

  /** With zeros in the free sectors, a growth that crosses fails, whatever the buffers held. */
  lemma CrossingFails(st: Store, node: Node, data: seq<nat>, index: seq<nat>, m: nat, inner: PtrBlock, dbl: PtrBlock)
    requires Holds(st, node, data, index) && NodeOk(node) && FreeIsZero(st)
    requires |data| + m <= MAX_SECTORS && !Confined(|data|, m)
    requires Free(st.used) + Total(|data|) >= Total(|data| + m)
    ensures !GrowsRight(st, node, data, index, m, inner, dbl)
  {
    hide Free, FreeIsZero, Confined, Holds, Total, Slot, DoubleStep, Extends, Cursor;
    HoldsParts(st, node, data, index);
    Crossing(|data|, m);
    var g := Growth(st, node, inner, dbl, m, Ok);
    var at, atIndex := data, index;
    if |data| < DOUBLE_START {
      var more, moreIndex;
      g, more, moreIndex := Approach(g, data, index);
      at, atIndex := data + more, index + moreIndex;
      ExtendsHolds(st, g.st, g.node, data, index, more, moreIndex);
      Crossing(DOUBLE_START, g.left);
    }
    DoubleFirst(Free(g.st.used), |at|, g.left);
    var r := Grow(st, node, m, inner, dbl);
    forall more: seq<nat>, moreIndex: seq<nat> | |more| == m && r.status == Ok
      ensures !Extends(st, r.st, r.node, data, index, more, moreIndex)
    {
      CrossingStep(g, at, atIndex, data + more, index + moreIndex);
      EndsWithDouble(g);
      if Extends(st, r.st, r.node, data, index, more, moreIndex) {
        ExtendsHolds(st, r.st, r.node, data, index, more, moreIndex);
      }
    }
  }

  lemma {:induction false} CountAll(used: seq<bool>, n: nat)
    requires n <= |used| && forall k :: 0 <= k < n ==> !used[k]
    ensures Count(used, n, false) == n
    decreases n
  {
    if n > 0 { CountAll(used, n - 1); }
  }

  /** On an empty disk of 2000 sectors a new file cannot grow by 129 sectors more than the single-indirect pointers
      reach, although the sectors are there and the inode could address them. */
  lemma CrossingHappens(ptrs: Ptrs, inner: PtrBlock, dbl: PtrBlock)
    ensures var st, m := Store(seq(2000, _ => ZeroSector()), seq(2000, _ => false)), DOUBLE_START + 129;
            && Holds(st, Node(ptrs, 0, 0, 0), [], []) && m <= MAX_SECTORS && Free(st.used) >= Total(m)
            && !GrowsRight(st, Node(ptrs, 0, 0, 0), [], [], m, inner, dbl)
  {
    var st, m := Store(seq(2000, _ => ZeroSector()), seq(2000, _ => false)), DOUBLE_START + 129;
    CountAll(st.used, 2000);
    CrossingFails(st, Node(ptrs, 0, 0, 0), [], [], m, inner, dbl);
  }

  lemma EndsWithDouble(g: Growth)
    requires GrowthOk(g) && g.status == Ok && g.left > 0 && g.node.ptrIdx == 14
    ensures GrowLoop(g) == DoubleStep(g)
  {
    hide DoubleStep;
  }

  lemma ExtendsHolds(st: Store, st': Store, node': Node, data: seq<nat>, index: seq<nat>,
                     more: seq<nat>, moreIndex: seq<nat>)
    requires Extends(st, st', node', data, index, more, moreIndex)
    ensures Holds(st', node', data + more, index + moreIndex)
  {
  }

  lemma CursorIsNodeOk(node: Node, n: nat)
    requires Cursor(node, n) && n <= MAX_SECTORS
    ensures NodeOk(node)
  {
  }

  /** Under the caller's conditions the call works, whatever free sectors and buffers held. */
  lemma CanGrowSuffices(st: Store, node: Node, data: seq<nat>, index: seq<nat>, m: nat, inner: PtrBlock, dbl: PtrBlock)
    requires Holds(st, node, data, index) && NodeOk(node) && CanGrow(st.used, |data|, m)
    ensures GrowsRight(st, node, data, index, m, inner, dbl)
  {
    hide Holds, CanGrow, Extends;
    HoldsParts(st, node, data, index);
    var more, moreIndex := GrowLoopExtends(Growth(st, node, inner, dbl, m, Ok), data, index);
    var r := Grow(st, node, m, inner, dbl);
    assert |more| == m && Extends(st, r.st, r.node, data, index, more, moreIndex);
  }

  /** Zeros in every free sector. */
  ghost function Wiped(st: Store): (st0: Store)
    requires StoreOk(st)
    ensures StoreOk(st0) && SameInUse(st, st0) && FreeIsZero(st0)
  {
    Store(seq(|st.disk|, s requires 0 <= s < |st.disk| => if st.used[s] then st.disk[s] else ZeroSector()), st.used)
  }

  /** Growing a file works for every content of the free sectors and of the uninitialised buffers if and
      only if the file stays addressable, the growth is confined to one second-level block, and the free
      map has room for the data and the pointer blocks. */
  lemma GrowExact(st: Store, node: Node, data: seq<nat>, index: seq<nat>, m: nat)
    requires Holds(st, node, data, index)
    ensures NodeOk(node)
    ensures (forall st0: Store, inner: PtrBlock, dbl: PtrBlock ::
               StoreOk(st0) && SameInUse(st, st0) ==> GrowsRight(st0, node, data, index, m, inner, dbl))
            <==> CanGrow(st.used, |data|, m)
  {
    HoldsParts(st, node, data, index);
    CursorIsNodeOk(node, |data|);
    if CanGrow(st.used, |data|, m) {
      forall st0: Store, inner: PtrBlock, dbl: PtrBlock | StoreOk(st0) && SameInUse(st, st0)
        ensures GrowsRight(st0, node, data, index, m, inner, dbl)
      {
        HoldsSameInUse(st, st0, node, data, index);
        CanGrowSuffices(st0, node, data, index, m, inner, dbl);
      }
    } else {
      var st0 := Wiped(st);
      var any: PtrBlock := seq(PER_BLOCK, _ => 0);
      HoldsSameInUse(st, st0, node, data, index);
      WipedFails(st0, node, data, index, m, any, any);
    }
  }

  lemma WipedFails(st: Store, node: Node, data: seq<nat>, index: seq<nat>, m: nat, inner: PtrBlock, dbl: PtrBlock)
    requires Holds(st, node, data, index) && NodeOk(node) && FreeIsZero(st) && !CanGrow(st.used, |data|, m)
    ensures !GrowsRight(st, node, data, index, m, inner, dbl)
  {
    if GrowsRight(st, node, data, index, m, inner, dbl) {
      var r := Grow(st, node, m, inner, dbl);
      var more, moreIndex :| |more| == m && Extends(st, r.st, r.node, data, index, more, moreIndex);
      ExtendsNeedsRoom(st, r.st, r.node, data, index, more, moreIndex);
      CrossingFails(st, node, data, index, m, inner, dbl);
    }
  }
}
