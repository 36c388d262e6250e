/** Growth that fails: it takes sectors until none is left, and gives none back. */
module InodeFail {
  import opened Wrappers
  import opened DiskModel
  import opened InodeLayout
  import opened InodeGrow

  /** Every sector that was in use still is. */
  ghost predicate StillUsed(st: Store, st': Store) {
    |st'.used| == |st.used| && forall s :: 0 <= s < |st.used| && st.used[s] ==> st'.used[s]
  }

  ghost predicate AllUsed(st: Store) {
    forall s :: 0 <= s < |st.used| ==> st.used[s]
  }

  /** Nothing is given back, and space runs out only when every sector is in use. */
  ghost predicate TakesAll(st: Store, st': Store, ranOut: bool) {
    StillUsed(st, st') && (ranOut ==> AllUsed(st'))
  }

  lemma {:induction false} FillTakes(st: Store, buf: PtrBlock, i: nat, left: nat)
    requires StoreOk(st) && i <= PER_BLOCK
    ensures var f := FillBlock(st, buf, i, left); TakesAll(st, f.st, !f.ok)
    decreases left
  {
    if i < PER_BLOCK && left > 0 && FirstFree(st.used, 0).Some? {
      var s := FirstFree(st.used, 0).value;
      var next := WriteSector(Take(st, s), s, ZeroSector());
      FillTakes(next, buf[i := s], i + 1, left - 1);
    }
  }

  lemma IndirectTakes(g: Growth)
    requires GrowthOk(g) && g.status == Ok && g.left > 0 && DIRECT <= g.node.ptrIdx < DIRECT + INDIRECT
    ensures TakesAll(g.st, IndirectStep(g).st, IndirectStep(g).status == NoSpace)
  {
    hide FillBlock, Pack, Unpack;
    var o := OpenBlock(g, g.node.indirIdx == 0);
    if o.status == Ok { FillTakes(o.st, o.inner, o.node.indirIdx, o.left); }
  }

  lemma BlockTakes(g: Growth, i: nat)
    requires GrowthOk(g) && g.status == Ok && i < PER_BLOCK && g.left > 0
    ensures TakesAll(g.st, DoubleBlock(g, i).st, DoubleBlock(g, i).status == NoSpace)
  {
    hide FillBlock, Pack, Unpack;
    var s := FirstFree(g.st.used, 0);
    if g.node.dblIdx == 0 {
      if s.Some? { FillTakes(Take(g.st, s.value), g.dbl, 0, g.left); }
    } else if g.inner[g.node.indirIdx] < |g.st.disk| {
      FillTakes(g.st, Unpack(g.st.disk[g.inner[g.node.indirIdx]]), g.node.dblIdx, g.left);
    }
  }

  lemma {:induction false} DoubleLoopTakes(g: Growth, i: nat)
    requires GrowthOk(g) && g.status == Ok && i <= PER_BLOCK
    ensures TakesAll(g.st, DoubleLoop(g, i).0.st, DoubleLoop(g, i).0.status == NoSpace)
    decreases g.left
  {
    if i < PER_BLOCK && g.left > 0 {
      hide DoubleBlock;
      BlockTakes(g, i);
      var b := DoubleBlock(g, i);
      if b.status == Ok {
        if b.node.dblIdx == PER_BLOCK {
          DoubleLoopTakes(b.(node := b.node.(dblIdx := 0)), i + 1);
        } else {
          DoubleLoopTakes(b, i);
        }
      }
    }
  }

  lemma DoubleTakes(g: Growth)
    requires GrowthOk(g) && g.status == Ok && g.left > 0 && g.node.ptrIdx == 14
    ensures TakesAll(g.st, DoubleStep(g).st, DoubleStep(g).status == NoSpace)
  {
    hide DoubleLoop, Pack, Unpack;
    var o := OpenBlock(g, g.node.indirIdx == 0 && g.node.dblIdx == 0);
    if o.status == Ok { DoubleLoopTakes(o, o.node.indirIdx); }
  }

  lemma StepTakes(g: Growth)
    requires GrowthOk(g) && g.status == Ok && g.left > 0 && g.node.ptrIdx < NUM_PTRS
    ensures TakesAll(g.st, LoopStep(g).st, LoopStep(g).status == NoSpace)
  {
    hide IndirectStep, DoubleStep, FirstFree;
    if g.node.ptrIdx < DIRECT {
    } else if g.node.ptrIdx < DIRECT + INDIRECT {
      IndirectTakes(g);
    } else {
      DoubleTakes(g);
    }
  }

  lemma {:induction false} LoopTakes(g: Growth)
    requires GrowthOk(g) && g.status == Ok
    ensures TakesAll(g.st, GrowLoop(g).st, GrowLoop(g).status == NoSpace)
    decreases g.left
  {
    if g.node.ptrIdx < NUM_PTRS && g.left > 0 {
      hide LoopStep;
      StepTakes(g);
      if LoopStep(g).status == Ok { LoopTakes(LoopStep(g)); }
    }
  }

  /** Growth of any inode, in any state of the disk: it never gives back a sector; it reports that there is no space
      only once every sector is in use; and if it does not end normally, the inode's place is as before. */
  lemma FailedGrowth(st: Store, node: Node, m: nat, inner: PtrBlock, dbl: PtrBlock)
    requires StoreOk(st) && NodeOk(node)
    ensures var r := Grow(st, node, m, inner, dbl);
            && StillUsed(st, r.st)
            && (r.status == NoSpace ==> AllUsed(r.st))
            && (r.status != Ok ==> r.node.ptrIdx == node.ptrIdx)
  {
    hide GrowLoop;
    LoopTakes(Growth(st, node, inner, dbl, m, Ok));
  }
}
