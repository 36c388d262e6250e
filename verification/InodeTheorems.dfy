/** When growing a file works: exactly when it fits, stays in one second-level block and there is room. */
module InodeTheorems {
  import opened Wrappers
  import opened DiskModel
  import opened InodeLayout
  import opened InodeGrow
  import opened InodeGrowLaws
  import opened InodeSteps

  /** Sectors a file of `n` data sectors occupies, pointer blocks included. */
  function Total(n: nat): nat { n + IndexCount(n) }

  lemma TotalMonotone(n: nat, m: nat)
    ensures Total(n) <= Total(n + m)
  {
  }

  /** The new sectors that lie behind the double-indirect pointer share one second-level block. */
  predicate Confined(n: nat, m: nat) {
    m == 0 || n + m <= DOUBLE_START ||
    (var first := if n < DOUBLE_START then DOUBLE_START else n;
     (first - DOUBLE_START) / PER_BLOCK == (n + m - 1 - DOUBLE_START) / PER_BLOCK)
  }

  /** What a caller of `inode_grow` would have to check: the file stays addressable, the growth is
      confined, and the free map has the sectors. */
  ghost predicate CanGrow(used: seq<bool>, n: nat, m: nat) {
    n + m <= MAX_SECTORS && Confined(n, m) && Free(used) + Total(n) >= Total(n + m)
  }

  lemma {:induction false} FreeAfter(used: seq<bool>, used': seq<bool>, s: seq<nat>)
    requires Fresh(used, s) && Distinct(s) && Marks(used, used', s)
    ensures Free(used') == Free(used) - |s|
    decreases |s|
  {
    if s == [] {
      assert used' == used;
    } else {
      var last, rest := s[|s| - 1], s[..|s| - 1];
      CountTake(used, last, |used|);
      assert s == rest + [last];
      forall k | 0 <= k < |used|
        ensures used'[k] <==> used[last := true][k] || k in rest
      {
      }
      FreeAfter(used[last := true], used', rest);
    }
  }

  /** A growth uses up exactly the sectors it added. */
  lemma FreeAfterGrowth(st: Store, st': Store, node': Node, data: seq<nat>, index: seq<nat>,
                        more: seq<nat>, moreIndex: seq<nat>)
    requires Extends(st, st', node', data, index, more, moreIndex)
    ensures Free(st'.used) + |more| + |moreIndex| == Free(st.used)
  {
    assert Distinct(more + moreIndex) by { ExtendsDistinct(st, st', node', data, index, more, moreIndex); }
    FreeAfter(st.used, st'.used, more + moreIndex);
  }

  lemma ExtendsDistinct(st: Store, st': Store, node': Node, data: seq<nat>, index: seq<nat>,
                        more: seq<nat>, moreIndex: seq<nat>)
    requires Extends(st, st', node', data, index, more, moreIndex)
    ensures Distinct(more + moreIndex) && Fresh(st.used, more + moreIndex)
  {
    var a, b := data + more, index + moreIndex;
    forall i, j | 0 <= i < j < |more|
      ensures more[i] != more[j]
    {
      assert a[|data| + i] == more[i] && a[|data| + j] == more[j];
    }
    forall i, j | 0 <= i < j < |moreIndex|
      ensures moreIndex[i] != moreIndex[j]
    {
      assert b[|index| + i] == moreIndex[i] && b[|index| + j] == moreIndex[j];
    }
    forall i, j | 0 <= i < |more| && 0 <= j < |moreIndex|
      ensures more[i] != moreIndex[j]
    {
      assert a[|data| + i] == more[i] && b[|index| + j] == moreIndex[j];
    }
    DistinctConcat(more, moreIndex);
  }

  // One step of the outer loop under `CanGrow`: it adds something, and what is left stays confined.

  ghost predicate Stepped(g: Growth, r: Growth, data: seq<nat>, index: seq<nat>, more: seq<nat>, moreIndex: seq<nat>) {
    && r.status == Ok && r.left == g.left - |more| && |more| > 0
    && Extends(g.st, r.st, r.node, data, index, more, moreIndex)
    && Confined(|data| + |more|, r.left)
  }

  lemma StepInDirect(g: Growth, data: seq<nat>, index: seq<nat>) returns (more: seq<nat>, moreIndex: seq<nat>)
    requires GrowthOk(g) && g.status == Ok && g.left > 0 && Holds(g.st, g.node, data, index)
    requires CanGrow(g.st.used, |data|, g.left)
    requires |data| < DIRECT
    ensures g.node.ptrIdx < NUM_PTRS && Stepped(g, LoopStep(g), data, index, more, moreIndex)
  {
    hide Extends, Free, Holds, DirectStep;
    DirectRoom(Free(g.st.used), |data|, g.left);
    DirectExtends(g, data, index);
    more, moreIndex := [FirstFree(g.st.used, 0).value], [];
  }

  lemma StepInIndirect(g: Growth, data: seq<nat>, index: seq<nat>) returns (more: seq<nat>, moreIndex: seq<nat>)
    requires GrowthOk(g) && g.status == Ok && g.left > 0 && Holds(g.st, g.node, data, index)
    requires CanGrow(g.st.used, |data|, g.left)
    requires DIRECT <= |data| < DOUBLE_START
    ensures g.node.ptrIdx < NUM_PTRS && Stepped(g, LoopStep(g), data, index, more, moreIndex)
  {
    hide Extends, Free, Holds, IndirectStep, FillBlock, Confined;
    IndirectRoom(Free(g.st.used), |data|, g.left);
    ConfinedOn(|data|, g.left);
    more, moreIndex := IndirectExtends(g, data, index);
  }

  lemma StepInDouble(g: Growth, data: seq<nat>, index: seq<nat>) returns (more: seq<nat>, moreIndex: seq<nat>)
    requires GrowthOk(g) && g.status == Ok && g.left > 0 && Holds(g.st, g.node, data, index)
    requires CanGrow(g.st.used, |data|, g.left)
    requires DOUBLE_START <= |data|
    ensures g.node.ptrIdx < NUM_PTRS && Stepped(g, LoopStep(g), data, index, more, moreIndex)
  {
    hide Extends, Free, Holds, DoubleStep, DoubleLoop, Confined;
    DoubleRoom(Free(g.st.used), |data|, g.left);
    more, moreIndex := DoubleExtends(g, data, index);
  }

  lemma StepExtends(g: Growth, data: seq<nat>, index: seq<nat>) returns (more: seq<nat>, moreIndex: seq<nat>)
    requires GrowthOk(g) && g.status == Ok && g.left > 0 && Holds(g.st, g.node, data, index)
    requires CanGrow(g.st.used, |data|, g.left)
    ensures g.node.ptrIdx < NUM_PTRS && Stepped(g, LoopStep(g), data, index, more, moreIndex)
    ensures |index| == IndexCount(|data|)
  {
    assert |index| == IndexCount(|data|);
    hide *;
    if |data| < DIRECT {
      more, moreIndex := StepInDirect(g, data, index);
    } else if |data| < DOUBLE_START {
      more, moreIndex := StepInIndirect(g, data, index);
    } else {
      more, moreIndex := StepInDouble(g, data, index);
    }
  }

  // What the caller's conditions mean for the step at hand, region by region.

  lemma DirectRoom(free: nat, n: nat, m: nat)
    requires n < DIRECT && 0 < m && Confined(n, m) && free + Total(n) >= Total(n + m)
    ensures free > 0 && Confined(n + 1, m - 1)
  {
  }

  lemma IndirectRoom(free: nat, n: nat, m: nat)
    requires DIRECT <= n < DOUBLE_START && 0 < m && free + Total(n) >= Total(n + m)
    ensures var c := Min(m, PER_BLOCK - Slot(n));
            c > 0 && free >= c + (if Slot(n) == 0 then 1 else 0)
  {
    var c := Min(m, PER_BLOCK - Slot(n));
    IndexCountStep(n, c);
    TotalMonotone(n + c, m - c);
  }

  lemma ConfinedOn(n: nat, m: nat)
    requires DIRECT <= n < DOUBLE_START && 0 < m && Confined(n, m)
    ensures Confined(n + Min(m, PER_BLOCK - Slot(n)), m - Min(m, PER_BLOCK - Slot(n)))
  {
  }

  lemma DoubleRoom(free: nat, n: nat, m: nat)
    requires DOUBLE_START <= n && 0 < m && n + m <= MAX_SECTORS && Confined(n, m) && free + Total(n) >= Total(n + m)
    ensures m <= PER_BLOCK - Slot(n) && free >= m + DoubleNewCount(n) && Confined(n + m, 0)
  {
    IndexCountStep(n, m);
  }

  /** Sufficiency, over all iterations of the loop. */
  lemma {:induction false} GrowLoopExtends(g: Growth, data: seq<nat>, index: seq<nat>)
      returns (more: seq<nat>, moreIndex: seq<nat>)
    requires GrowthOk(g) && g.status == Ok && Holds(g.st, g.node, data, index)
    requires CanGrow(g.st.used, |data|, g.left)
    ensures var r := GrowLoop(g);
            && r.status == Ok && r.left == 0 && |more| == g.left
            && Extends(g.st, r.st, r.node, data, index, more, moreIndex)
    decreases g.left
  {
    hide Free, Holds, Extends, CanGrow, GrowLoop, LoopStep;
    GrowLoopTurn(g);
    if g.left == 0 {
      ExtendsNothing(g.st, g.node, data, index);
      return [], [];
    }
    var more1, index1 := StepExtends(g, data, index);
    var r := LoopStep(g);
    CanGrowOn(g.st, r.st, r.node, data, index, more1, index1, g.left);
    var more2, index2 := GrowLoopExtends(r, data + more1, index + index1);
    var end := GrowLoop(g);
    ExtendsTrans(g.st, r.st, r.node, end.st, end.node, data, index, more1, index1, more2, index2);
    more, moreIndex := more1 + more2, index1 + index2;
  }

  lemma GrowLoopTurn(g: Growth)
    requires GrowthOk(g) && g.status == Ok
    ensures g.left == 0 ==> GrowLoop(g) == g
    ensures g.left > 0 && g.node.ptrIdx < NUM_PTRS && LoopStep(g).status == Ok ==> GrowLoop(g) == GrowLoop(LoopStep(g))
  {
    hide LoopStep;
  }

  /** After part of a growth the rest of it can still be done. */
  lemma CanGrowOn(st: Store, st': Store, node': Node, data: seq<nat>, index: seq<nat>,
                  more: seq<nat>, moreIndex: seq<nat>, m: nat)
    requires Extends(st, st', node', data, index, more, moreIndex) && |more| <= m
    requires CanGrow(st.used, |data|, m) && Confined(|data| + |more|, m - |more|)
    requires |index| == IndexCount(|data|)
    ensures Holds(st', node', data + more, index + moreIndex)
    ensures CanGrow(st'.used, |data + more|, m - |more|)
  {
    FreeAfterGrowth(st, st', node', data, index, more, moreIndex);
    hide Free;
  }
}
