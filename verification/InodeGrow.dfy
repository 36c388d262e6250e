/**
 Growing a file.  The functions follow the source's loops statement by statement, with the two
 stack buffers it never initialises as explicit arguments (`inner`, `dbl`).
 */
module InodeGrow {
  import opened Wrappers
  import opened DiskModel
  import opened InodeLayout

  // ---------------------------------------------------------------- the code

  /** First free sector at or after `i`: what scanning the free map for one clear bit finds. */
  function FirstFree(used: seq<bool>, i: nat): (r: Option<nat>)
    requires i <= |used|
    ensures r.Some? ==> i <= r.value < |used| && !used[r.value]
    ensures r.None? <==> forall k :: i <= k < |used| ==> used[k]
    decreases |used| - i
  {
    if i == |used| then None else if !used[i] then Some(i) else FirstFree(used, i + 1)
  }

  /** It is the least one. */
  lemma {:induction false} FirstFreeIsLeast(used: seq<bool>, i: nat, s: nat)
    requires i <= s < |used| && !used[s] && forall k :: i <= k < s ==> used[k]
    ensures FirstFree(used, i) == Some(s)
    decreases s - i
  {
    if i < s { FirstFreeIsLeast(used, i + 1, s); }
  }

  lemma {:induction false} NoneBefore(used: seq<bool>, i: nat)
    requires i <= |used| && FirstFree(used, i).Some?
    ensures forall j :: i <= j < FirstFree(used, i).value ==> used[j]
    decreases |used| - i
  {
    if used[i] { NoneBefore(used, i + 1); }
  }

  function Take(st: Store, s: nat): Store
    requires s < |st.used|
  {
    st.(used := st.used[s := true])
  }

  function WriteSector(st: Store, s: nat, data: Sector): Store
    requires s < |st.disk|
  {
    st.(disk := st.disk[s := data])
  }

  datatype Filled = Filled(st: Store, buf: PtrBlock, next: nat, left: nat, ok: bool)

  /** The innermost loop: allocate data sectors into slots `i ..` of a pointer block until the block
      is full or no sector is wanted; stop at once when the free map has none left. */
  function FillBlock(st: Store, buf: PtrBlock, i: nat, left: nat): (f: Filled)
    requires StoreOk(st) && i <= PER_BLOCK
    ensures StoreOk(f.st) && |f.st.disk| == |st.disk|
    ensures i <= f.next <= PER_BLOCK && f.left + f.next == left + i
    ensures f.ok ==> f.next == PER_BLOCK || f.left == 0
    decreases left
  {
    if i == PER_BLOCK || left == 0 then Filled(st, buf, i, left, true)
    else
      var s := FirstFree(st.used, 0);
      if s.None? then Filled(st, buf, i, left, false)
      else FillBlock(WriteSector(Take(st, s.value), s.value, ZeroSector()), buf[i := s.value], i + 1, left - 1)
  }

  datatype Status = Ok | NoSpace | Panic

  datatype Growth = Growth(st: Store, node: Node, inner: PtrBlock, dbl: PtrBlock, left: nat, status: Status)

  ghost predicate GrowthOk(g: Growth) {
    StoreOk(g.st) && NodeOk(g.node)
  }

  function DirectStep(g: Growth): (r: Growth)
    requires GrowthOk(g) && g.status == Ok && g.left > 0 && g.node.ptrIdx < DIRECT
    ensures GrowthOk(r) && (r.status == Ok ==> r.left < g.left)
  {
    var s := FirstFree(g.st.used, 0);
    if s.None? then g.(status := NoSpace)
    else
      g.(st := WriteSector(Take(g.st, s.value), s.value, ZeroSector()),
         node := g.node.(ptrs := g.node.ptrs[g.node.ptrIdx := s.value], ptrIdx := g.node.ptrIdx + 1),
         left := g.left - 1)
  }

  /** Allocate the pointer block that `ptrs[ptrIdx]` names, or read it back. */
  function OpenBlock(g: Growth, fresh_: bool): (r: Growth)
    requires GrowthOk(g) && g.node.ptrIdx < NUM_PTRS
    ensures GrowthOk(r) && r.left == g.left && r.node == g.node.(ptrs := r.node.ptrs)
    ensures r.status == Ok ==> r.node.ptrs[g.node.ptrIdx] < |r.st.disk|
  {
    var idx := g.node.ptrIdx;
    if fresh_ then
      var s := FirstFree(g.st.used, 0);
      if s.None? then g.(status := NoSpace)
      else g.(st := Take(g.st, s.value), node := g.node.(ptrs := g.node.ptrs[idx := s.value]), status := Ok)
    else
      var b := ReadPtrs(g.st.disk, g.node.ptrs[idx]);
      if b.None? then g.(status := Panic) else g.(inner := b.value, status := Ok)
  }

  function IndirectStep(g: Growth): (r: Growth)
    requires GrowthOk(g) && g.status == Ok && g.left > 0 && DIRECT <= g.node.ptrIdx < DIRECT + INDIRECT
    ensures GrowthOk(r) && (r.status == Ok ==> r.left < g.left)
  {
    var idx := g.node.ptrIdx;
    var o := OpenBlock(g, g.node.indirIdx == 0);
    if o.status != Ok then o
    else
      var f := FillBlock(o.st, o.inner, o.node.indirIdx, o.left);
      if !f.ok then o.(st := f.st, inner := f.buf, left := f.left, status := NoSpace)
      else
        var st := WriteSector(f.st, o.node.ptrs[idx], Pack(f.buf));
        var node := if f.next == PER_BLOCK then o.node.(indirIdx := 0, ptrIdx := idx + 1)
                    else o.node.(indirIdx := f.next);
        Growth(st, node, f.buf, o.dbl, f.left, Ok)
  }

  /** The loop over second-level blocks.  `i` is the loop's own counter; the allocation and the read
      go through `inner[node.indirIdx]`, which the loop never advances, the write through `inner[i]`. */
  function DoubleLoop(g: Growth, i: nat): (r: (Growth, nat))
    requires GrowthOk(g) && g.status == Ok && i <= PER_BLOCK
    ensures GrowthOk(r.0) && r.1 <= PER_BLOCK && r.0.left <= g.left
    ensures r.0.node == g.node.(dblIdx := r.0.node.dblIdx) && |r.0.st.disk| == |g.st.disk|
    ensures r.0.status == Ok && i < PER_BLOCK && g.left > 0 ==> r.0.left < g.left
    ensures r.0.status == Ok ==> r.1 == PER_BLOCK || r.0.left == 0
    decreases g.left
  {
    if i == PER_BLOCK || g.left == 0 then (g, i)
    else
      var b := DoubleBlock(g, i);
      if b.status != Ok then (b, i)
      else if b.node.dblIdx == PER_BLOCK then DoubleLoop(b.(node := b.node.(dblIdx := 0)), i + 1)
      else DoubleLoop(b, i)
  }

  /** One turn of that loop, up to the write of the second-level block. */
  function DoubleBlock(g: Growth, i: nat): (r: Growth)
    requires GrowthOk(g) && g.status == Ok && i < PER_BLOCK && g.left > 0
    ensures StoreOk(r.st) && |r.st.disk| == |g.st.disk|
    ensures r.node == g.node.(dblIdx := r.node.dblIdx) && r.node.dblIdx <= PER_BLOCK
    ensures r.left <= g.left && (r.status == Ok ==> r.left < g.left)
    ensures r.status == Ok ==> r.node.dblIdx + r.left == g.node.dblIdx + g.left
    ensures r.status == Ok ==> r.node.dblIdx == PER_BLOCK || r.left == 0
    ensures r.status != Ok ==> r.node == g.node
  {
    var at := g.node.indirIdx;
    var s := FirstFree(g.st.used, 0);
    if g.node.dblIdx == 0 && s.None? then g.(status := NoSpace)
    else if g.node.dblIdx != 0 && g.inner[at] >= |g.st.disk| then g.(status := Panic)
    else
      var st := if g.node.dblIdx == 0 then Take(g.st, s.value) else g.st;
      var inner := if g.node.dblIdx == 0 then g.inner[at := s.value] else g.inner;
      var dbl := if g.node.dblIdx == 0 then g.dbl else Unpack(g.st.disk[g.inner[at]]);
      var f := FillBlock(st, dbl, g.node.dblIdx, g.left);
      if !f.ok then Growth(f.st, g.node, inner, f.buf, f.left, NoSpace)
      else if inner[i] >= |f.st.disk| then Growth(f.st, g.node, inner, f.buf, f.left, Panic)
      else Growth(WriteSector(f.st, inner[i], Pack(f.buf)), g.node.(dblIdx := f.next), inner, f.buf, f.left, Ok)
  }

  function DoubleStep(g: Growth): (r: Growth)
    requires GrowthOk(g) && g.status == Ok && g.left > 0 && g.node.ptrIdx == 14
    ensures GrowthOk(r) && (r.status == Ok ==> r.left < g.left)
    ensures r.status == Ok ==> r.node.ptrIdx == NUM_PTRS || r.left == 0
  {
    var o := OpenBlock(g, g.node.indirIdx == 0 && g.node.dblIdx == 0);
    if o.status != Ok then o
    else
      var (d, i) := DoubleLoop(o, o.node.indirIdx);
      if d.status != Ok then d
      else
        var st := WriteSector(d.st, d.node.ptrs[14], Pack(d.inner));
        var node := if i == PER_BLOCK then d.node.(indirIdx := 0, ptrIdx := 15) else d.node.(indirIdx := i);
        d.(st := st, node := node)
  }

  /** One turn of the outer loop: the step for the region `ptrIdx` is in. */
  function LoopStep(g: Growth): (r: Growth)
    requires GrowthOk(g) && g.status == Ok && g.left > 0 && g.node.ptrIdx < NUM_PTRS
    ensures GrowthOk(r) && (r.status == Ok ==> r.left < g.left)
  {
    if g.node.ptrIdx < DIRECT then DirectStep(g)
    else if g.node.ptrIdx < DIRECT + INDIRECT then IndirectStep(g)
    else DoubleStep(g)
  }

  /** The outer loop over the inode's pointers. */
  function GrowLoop(g: Growth): (r: Growth)
    requires GrowthOk(g) && g.status == Ok
    ensures GrowthOk(r)
    decreases g.left
  {
    if g.node.ptrIdx == NUM_PTRS || g.left == 0 then g
    else
      var next := LoopStep(g);
      if next.status == Ok then GrowLoop(next) else next
  }

  /** Growth by `sectors`.  A failed allocation leaves the function in the middle, before the new
      `ptrIdx` is stored. */
  function Grow(st: Store, node: Node, sectors: nat, inner: PtrBlock, dbl: PtrBlock): (r: Growth)
    requires StoreOk(st) && NodeOk(node)
    ensures GrowthOk(r)
  {
    var end := GrowLoop(Growth(st, node, inner, dbl, sectors, Ok));
    if end.status == Ok then end else end.(node := end.node.(ptrIdx := node.ptrIdx))
  }
}
