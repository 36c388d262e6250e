/**
 The file system in the source's own form: inodes, the free map and the buffer cache as objects, and
 the operations on them as loops.  Metadata goes straight to the disk, data through the cache.
 */
module FileSystemModel {
  import opened Wrappers
  import opened DiskModel
  import opened BoolSeq
  import opened BitmapModel
  import opened FreeMapModel
  import opened CacheModel
  import opened InodeLayout
  import opened InodeGrow

  /** Sectors for `size` bytes. */
  function BytesToSectors(size: nat): nat {
    (size + SECTOR_SIZE - 1) / SECTOR_SIZE
  }

  class Inode {
    var sector: nat
    var openCnt: nat
    var removed: bool
    var denyWriteCnt: nat
    var length: nat
    var lengthShown: nat
    var ptrs: Ptrs
    var ptrIdx: nat
    var indirIdx: nat
    var dblIdx: nat

    function Pointers(): Node
      reads this
    {
      Node(ptrs, ptrIdx, indirIdx, dblIdx)
    }

    constructor (sector: nat)
      ensures this.sector == sector && openCnt == 1 && !removed && denyWriteCnt == 0
      ensures length == 0 && lengthShown == 0 && ptrIdx == 0 && indirIdx == 0 && dblIdx == 0
    {
      this.sector := sector;
      openCnt, removed, denyWriteCnt := 1, false, 0;
      length, lengthShown := 0, 0;
      ptrs := seq(NUM_PTRS, _ => 0);
      ptrIdx, indirIdx, dblIdx := 0, 0, 0;
    }
  }

  class FileSystem {
    const cache: BufferCache
    const freeMap: Bitmap

    /** The free map has one bit per sector. */
    ghost predicate Ok()
      reads this, cache, freeMap, freeMap.bits
    {
      freeMap.Valid() && |cache.disk| == freeMap.bitCnt <= MAX_DISK
    }

    ghost function St(): (st: Store)
      requires Ok()
      reads this, cache, freeMap, freeMap.bits
      ensures StoreOk(st)
    {
      Store(cache.disk, freeMap.Contents())
    }

    constructor (cache: BufferCache)
      requires |cache.disk| <= MAX_DISK
      ensures Ok() && this.cache == cache && fresh(freeMap) && fresh(freeMap.bits)
      ensures freeMap.Contents() == seq(|cache.disk|, _ => false)
    {
      this.cache := cache;
      freeMap := new Bitmap(|cache.disk|);
    }

    /** `free_map_allocate (1, ...)`. */
    method AllocateSector() returns (r: Option<nat>)
      requires Ok()
      modifies freeMap.bits
      ensures Ok() && r == FirstFree(old(St()).used, 0)
      ensures r.None? ==> St() == old(St())
      ensures r.Some? ==> St() == Take(old(St()), r.value)
    {
      ghost var used := freeMap.Contents();
      r := Allocate(freeMap, 1, true);
      OneFreeRun(used);
      if r.Some? {
        FirstRunIsFirstFree(used, r.value);
        assert SetRange(used, r.value, 1, true) == used[r.value := true];
      }
    }

    method DiskWrite(s: nat, data: Sector)
      requires Ok() && s < |cache.disk|
      modifies cache`disk
      ensures Ok() && St() == WriteSector(old(St()), s, data)
    {
      cache.disk := cache.disk[s := data];
    }

    /** The loop that fills a pointer block with new data sectors. */
    method Fill(buf: PtrBlock, i: nat, left: nat) returns (buf': PtrBlock, next: nat, left': nat, ok: bool)
      requires Ok() && i <= PER_BLOCK
      modifies cache`disk, freeMap.bits
      ensures Ok() && FillBlock(old(St()), buf, i, left) == Filled(St(), buf', next, left', ok)
    {
      hide FillBlock, FirstFree, Unpacked;
      ghost var goal := FillBlock(St(), buf, i, left);
      buf', next, left', ok := buf, i, left, true;
      while next < PER_BLOCK && left' > 0
        invariant Ok() && next <= PER_BLOCK && ok
        invariant FillBlock(St(), buf', next, left') == goal
      {
        FillBlockTurn(St(), buf', next, left');
        var s := AllocateSector();
        if s.None? { return buf', next, left', false; }
        buf' := buf'[next := s.value];
        DiskWrite(s.value, ZeroSector());
        next := next + 1;
        left' := left' - 1;
      }
      FillBlockEnd(St(), buf', next, left');
    }

    /** The state of a growth in progress: the store, the inode with the loop's own pointer index, the
        two stack buffers and the sectors still wanted. */
    ghost predicate At(g: Growth, inode: Inode, idx: nat, inner: PtrBlock, dbl: PtrBlock, left: nat, status: Status)
      reads this, cache, freeMap, freeMap.bits, inode
    {
      Ok() && g == Growth(St(), inode.Pointers().(ptrIdx := idx), inner, dbl, left, status)
    }

    /** Allocates the pointer block `ptrs[idx]`, or reads it into `inner`. */
    method Open(inode: Inode, idx: nat, isNew: bool, inner: PtrBlock, ghost g: Growth)
        returns (inner': PtrBlock, status: Status)
      requires At(g, inode, idx, inner, g.dbl, g.left, Status.Ok) && GrowthOk(g) && idx < NUM_PTRS
      modifies freeMap.bits, inode`ptrs
      ensures At(OpenBlock(g, isNew), inode, idx, inner', g.dbl, g.left, status)
    {
      inner', status := inner, Status.Ok;
      if isNew {
        var s := AllocateSector();
        if s.None? { return inner, NoSpace; }
        inode.ptrs := inode.ptrs[idx := s.value];
      } else if inode.ptrs[idx] >= |cache.disk| {
        return inner, Panic;
      } else {
        inner' := Unpack(cache.disk[inode.ptrs[idx]]);
      }
    }

    method StepDirect(inode: Inode, idx: nat, ghost g: Growth) returns (status: Status)
      requires At(g, inode, idx, g.inner, g.dbl, g.left, Status.Ok) && GrowthOk(g) && g.left > 0 && idx < DIRECT
      modifies cache`disk, freeMap.bits, inode`ptrs
      ensures var r := DirectStep(g);
              if status == Status.Ok then At(r, inode, idx + 1, g.inner, g.dbl, g.left - 1, status)
              else At(r, inode, idx, g.inner, g.dbl, g.left, status)
    {
      var s := AllocateSector();
      if s.None? { return NoSpace; }
      inode.ptrs := inode.ptrs[idx := s.value];
      DiskWrite(s.value, ZeroSector());
      return Status.Ok;
    }

    method StepIndirect(inode: Inode, idx: nat, inner: PtrBlock, left: nat, ghost g: Growth)
        returns (idx': nat, inner': PtrBlock, left': nat, status: Status)
      requires At(g, inode, idx, inner, g.dbl, left, Status.Ok) && GrowthOk(g) && left > 0
      requires DIRECT <= idx < DIRECT + INDIRECT
      modifies cache`disk, freeMap.bits, inode`ptrs, inode`indirIdx
      ensures At(IndirectStep(g), inode, idx', inner', g.dbl, left', status)
    {
      idx', left' := idx, left;
      inner', status := Open(inode, idx, inode.indirIdx == 0, inner, g);
      if status != Status.Ok { return; }
      var next, ok;
      inner', next, left', ok := Fill(inner', inode.indirIdx, left);
      if !ok { return idx, inner', left', NoSpace; }
      inode.indirIdx := next;
      DiskWrite(inode.ptrs[idx], Pack(inner'));
      if inode.indirIdx == PER_BLOCK {
        inode.indirIdx := 0;
        idx' := idx + 1;
      }
    }

    /** One turn of the loop over second-level blocks, up to the write of the block. */
    method TurnDouble(inode: Inode, i: nat, inner: PtrBlock, dbl: PtrBlock, left: nat, ghost g: Growth)
        returns (inner': PtrBlock, dbl': PtrBlock, left': nat, status: Status)
      requires At(g, inode, 14, inner, dbl, left, Status.Ok) && GrowthOk(g) && left > 0 && i < PER_BLOCK
      modifies cache`disk, freeMap.bits, inode`dblIdx
      ensures At(DoubleBlock(g, i), inode, 14, inner', dbl', left', status)
    {
      inner', dbl', left', status := inner, dbl, left, Status.Ok;
      if inode.dblIdx == 0 {
        var s := AllocateSector();
        if s.None? { return inner, dbl, left, NoSpace; }
        inner' := inner'[inode.indirIdx := s.value];
      } else if inner'[inode.indirIdx] >= |cache.disk| {
        return inner, dbl, left, Panic;
      } else {
        dbl' := Unpack(cache.disk[inner'[inode.indirIdx]]);
      }
      var next, ok;
      dbl', next, left', ok := Fill(dbl', inode.dblIdx, left);
      if !ok { return inner', dbl', left', NoSpace; }
      if inner'[i] >= |cache.disk| { return inner', dbl', left', Panic; }
      inode.dblIdx := next;
      DiskWrite(inner'[i], Pack(dbl'));
    }

    method StepDouble(inode: Inode, inner: PtrBlock, dbl: PtrBlock, left: nat, ghost g: Growth)
        returns (idx': nat, inner': PtrBlock, dbl': PtrBlock, left': nat, status: Status)
      requires At(g, inode, 14, inner, dbl, left, Status.Ok) && GrowthOk(g) && left > 0
      modifies cache`disk, freeMap.bits, inode`ptrs, inode`indirIdx, inode`dblIdx
      ensures At(DoubleStep(g), inode, idx', inner', dbl', left', status)
    {
      hide OpenBlock, DoubleBlock, DoubleLoop, Unpacked, Pack, Unpack;
      idx', dbl', left' := 14, dbl, left;
      inner', status := Open(inode, 14, inode.indirIdx == 0 && inode.dblIdx == 0, inner, g);
      if status != Status.Ok { return; }
      ghost var o := OpenBlock(g, inode.indirIdx == 0 && inode.dblIdx == 0);
      ghost var d := o;
      var i := inode.indirIdx;
      while i < PER_BLOCK && left' > 0
        invariant At(d, inode, 14, inner', dbl', left', Status.Ok) && GrowthOk(d) && i <= PER_BLOCK
        invariant status == Status.Ok && idx' == 14
        invariant DoubleLoop(d, i) == DoubleLoop(o, o.node.indirIdx)
      {
        DoubleLoopTurn(d, i);
        ghost var b := DoubleBlock(d, i);
        inner', dbl', left', status := TurnDouble(inode, i, inner', dbl', left', d);
        if status != Status.Ok { return; }
        if inode.dblIdx == PER_BLOCK {
          inode.dblIdx := 0;
          d := b.(node := b.node.(dblIdx := 0));
          i := i + 1;
        } else {
          d := b;
        }
      }
      DoubleLoopEnd(d, i);
      inode.indirIdx := i;
      DiskWrite(inode.ptrs[14], Pack(inner'));
      if inode.indirIdx == PER_BLOCK {
        inode.indirIdx := 0;
        idx' := 15;
      }
    }

    /** `inode_grow`: its result is `true` on every path, a failed allocation's `-1` included. */
    method GrowInode(inode: Inode, length: nat, stackInner: PtrBlock, stackDbl: PtrBlock)
        returns (r: bool, status: Status)
      requires Ok() && NodeOk(inode.Pointers()) && inode.length <= length
      modifies cache`disk, freeMap.bits, inode`ptrs, inode`ptrIdx, inode`indirIdx, inode`dblIdx
      ensures Ok() && r
      ensures var g := Grow(old(St()), old(inode.Pointers()), BytesToSectors(length) - BytesToSectors(inode.length),
                            stackInner, stackDbl);
              g.st == St() && g.node == inode.Pointers() && g.status == status
    {
      hide LoopStep, DirectStep, IndirectStep, DoubleStep, Unpacked, GrowLoop;
      var sectors: nat := BytesToSectors(length) - BytesToSectors(inode.length);
      var inner, dbl := stackInner, stackDbl;
      var idx: nat := inode.ptrIdx;
      r, status := true, Status.Ok;
      ghost var start := Growth(St(), inode.Pointers(), inner, dbl, sectors, Status.Ok);
      ghost var g := start;
      while idx < NUM_PTRS && sectors > 0
        invariant At(g, inode, idx, inner, dbl, sectors, Status.Ok) && GrowthOk(g)
        invariant GrowLoop(g) == GrowLoop(start)
        invariant inode.ptrIdx == old(inode.ptrIdx) && status == Status.Ok
        decreases sectors
      {
        GrowLoopTurn(g);
        ghost var next := LoopStep(g);
        if idx < DIRECT {
          status := StepDirect(inode, idx, g);
          if status != Status.Ok { return; }
          idx, sectors := idx + 1, sectors - 1;
        } else if idx < DIRECT + INDIRECT {
          var idx', left';
          idx', inner, left', status := StepIndirect(inode, idx, inner, sectors, g);
          if status != Status.Ok { return; }
          idx, sectors := idx', left';
        } else {
          var idx', left';
          idx', inner, dbl, left', status := StepDouble(inode, inner, dbl, sectors, g);
          if status != Status.Ok { return; }
          idx, sectors := idx', left';
        }
        g := next;
      }
      GrowLoopEnd(g);
      inode.ptrIdx := idx;
    }
  }

  // The recursive functions of the growth, one turn of a loop at a time.

  lemma GrowLoopTurn(g: Growth)
    requires GrowthOk(g) && g.status == Status.Ok && g.node.ptrIdx < NUM_PTRS && g.left > 0
    ensures LoopStep(g) == if g.node.ptrIdx < DIRECT then DirectStep(g)
                           else if g.node.ptrIdx < DIRECT + INDIRECT then IndirectStep(g) else DoubleStep(g)
    ensures GrowLoop(g) == if LoopStep(g).status == Status.Ok then GrowLoop(LoopStep(g)) else LoopStep(g)
  {
    hide DirectStep, IndirectStep, DoubleStep;
  }

  lemma GrowLoopEnd(g: Growth)
    requires GrowthOk(g) && g.status == Status.Ok && (g.node.ptrIdx == NUM_PTRS || g.left == 0)
    ensures GrowLoop(g) == g
  {
  }

  lemma DoubleLoopTurn(g: Growth, i: nat)
    requires GrowthOk(g) && g.status == Status.Ok && i < PER_BLOCK && g.left > 0
    ensures var b := DoubleBlock(g, i);
            DoubleLoop(g, i) == if b.status != Status.Ok then (b, i)
                                else if b.node.dblIdx == PER_BLOCK then
                                  DoubleLoop(b.(node := b.node.(dblIdx := 0)), i + 1)
                                else DoubleLoop(b, i)
  {
    hide DoubleBlock;
  }

  lemma DoubleLoopEnd(g: Growth, i: nat)
    requires GrowthOk(g) && g.status == Status.Ok && i <= PER_BLOCK && (i == PER_BLOCK || g.left == 0)
    ensures DoubleLoop(g, i) == (g, i)
  {
  }

  lemma FillBlockTurn(st: Store, buf: PtrBlock, i: nat, left: nat)
    requires StoreOk(st) && i < PER_BLOCK && left > 0
    ensures var s := FirstFree(st.used, 0);
            FillBlock(st, buf, i, left) ==
            if s.None? then Filled(st, buf, i, left, false)
            else FillBlock(WriteSector(Take(st, s.value), s.value, ZeroSector()), buf[i := s.value], i + 1, left - 1)
  {
  }

  lemma FillBlockEnd(st: Store, buf: PtrBlock, i: nat, left: nat)
    requires StoreOk(st) && i <= PER_BLOCK && (i == PER_BLOCK || left == 0)
    ensures FillBlock(st, buf, i, left) == Filled(st, buf, i, left, true)
  {
  }

  /** A run of length one is a clear position. */
  lemma OneFreeRun(used: seq<bool>)
    ensures (exists i: nat :: Run(used, i, 1, false)) <==> FirstFree(used, 0).Some?
  {
    if FirstFree(used, 0).Some? {
      assert Run(used, FirstFree(used, 0).value, 1, false);
    } else {
      forall i: nat
        ensures !Run(used, i, 1, false)
      {
        assert i < |used| ==> used[i];
      }
    }
  }

  lemma FirstRunIsFirstFree(used: seq<bool>, s: nat)
    requires Run(used, s, 1, false) && forall i :: 0 <= i < s ==> !Run(used, i, 1, false)
    ensures FirstFree(used, 0) == Some(s)
  {
    forall k | 0 <= k < s
      ensures used[k]
    {
      assert !Run(used, k, 1, false);
    }
    FirstFreeIsLeast(used, 0, s);
  }
}
