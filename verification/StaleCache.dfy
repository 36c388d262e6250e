/**
 Released sectors stay in the buffer cache.  These lemmas say what that does to a file that is given such a sector:
 why `FileIO` speaks of new sectors that were cached, and asks that no new pointer block be dirty there.
 */
module StaleCache {
  import opened Wrappers
  import opened DiskModel
  import opened CacheModel
  import opened InodeLayout
  import opened InodeGrow
  import opened InodeGrowLaws
  import opened InodeSteps
  import opened InodeTheorems
  import opened InodeExact
  import opened InodeRelease
  import opened FileContents
  import opened FileIO

  /** A new data sector reads as the zeros it was filled with if and only if it was not in the cache, or the
      cache happened to hold zeros: the zeros go straight to the disk, past the cached copy. */
  lemma NewSectorReadsZero(c: State, st: Store, st': Store, node': Node, data: seq<nat>, index: seq<nat>,
                           more: seq<nat>, moreIndex: seq<nat>, i: nat)
    requires c.disk == st.disk && Extends(st, st', node', data, index, more, moreIndex) && i < |more|
    ensures more[i] < |c.disk| == |st'.disk|
    ensures Logical(State(st'.disk, c.entries), more[i]) == ZeroSector()
            <==> !Cached(c, more[i]) || Logical(c, more[i]) == ZeroSector()
  {
    hide Holds;
    assert st'.disk[more[i]] == ZeroSector();
    assert FindFrom(c.entries, more[i], 0).Some? <==> Cached(c, more[i]);
  }

  /** A new sector that is in the cache shows the old copy.  If that waits to be written back it goes over the zeros,
      and the sector shows it for good; if it is clean it shows until it is dropped, and then zeros. */
  lemma OldCopy(c: State, t: State, u: State, k: nat)
    requires Shaped(c) && t.entries == c.entries && k < |c.disk| == |t.disk| && t.disk[k] == ZeroSector()
    requires Cached(c, k) && Shaped(u) && |u.disk| == |t.disk| && Spares(t, u, k)
    ensures Logical(t, k) == Logical(c, k) && Shaped(t)
    ensures !Clean(c, k) ==> FlushFrom(t, 0).disk[k] == Logical(c, k) && Logical(u, k) == Logical(c, k)
    ensures Clean(c, k) ==>
              && FlushFrom(t, 0).disk[k] == ZeroSector() && u.disk[k] == ZeroSector()
              && (Logical(u, k) == Logical(c, k) || Logical(u, k) == ZeroSector())
              && (!Cached(u, k) ==> Logical(u, k) == ZeroSector())
  {
    GrownShaped(c, t);
    NewSector(c, t, k);
    LogicalIs(u, k);
    if Clean(c, k) {
      FlushEffect(t, 0, k);
    } else {
      FlushOnDisk(t, k);
    }
  }

  /** An inode is written past the cache to a sector that may be a released one: after a write-behind pass it is still
      there if and only if no copy of the sector was dirty, or the copy happened to be the same. */
  lemma InodeSurvivesPass(c: State, s: nat, image: Sector)
    requires Shaped(c) && s < |c.disk|
    ensures var t := State(c.disk[s := image], c.entries);
            Shaped(t) && (FlushFrom(t, 0).disk[s] == image <==> Clean(c, s) || Logical(c, s) == image)
  {
    var t := State(c.disk[s := image], c.entries);
    GrownShaped(c, t);
    if e :| 0 <= e < |c.entries| && c.entries[e].sector == s {
      OverBlock(t, e);
      LogicalIs(c, s);
    } else {
      FlushEffect(t, 0, s);
    }
  }

  function EmptyNode(): Node {
    Node(seq(NUM_PTRS, _ => 0), 0, 0, 0)
  }

  /** Closing a removed file frees its data sector `x` and leaves the cache alone.  If `x` is then the lowest free
      sector, the first growth of a new file takes it, and the new file shows the bytes of the old one there. */
  lemma ReusedSector(c: State, used: seq<bool>, node: Node, data: seq<nat>, index: seq<nat>, sector: nat, i: nat,
                     inner: PtrBlock, dbl: PtrBlock)
    requires Holds(Store(c.disk, used), node, data, index) && i < |data| && Cached(c, data[i])
    requires sector < |used| && used[sector] && sector !in data && sector !in index
    ensures var x, r := data[i], CloseRemoved(Store(c.disk, used), node, sector, |data|);
            && x < |used| && r.Some? && |r.value| == |used| && !r.value[x]
            && ((forall k :: 0 <= k < x ==> r.value[k]) ==>
                  var g := Grow(Store(c.disk, r.value), EmptyNode(), 1, inner, dbl);
                  && g.status == Ok && g.node.ptrs[0] == x && g.st.disk == c.disk[x := ZeroSector()]
                  && Logical(State(g.st.disk, c.entries), x) == Logical(c, x))
  {
    var st := Store(c.disk, used);
    CloseReleasesExactly(st, node, data, index, sector);
    HoldsParts(st, node, data, index);
    hide Holds;
    var x, freed := data[i], CloseRemoved(st, node, sector, |data|).value;
    if forall k :: 0 <= k < x ==> freed[k] {
      FirstFreeIsLeast(freed, 0, x);
      FirstGrowth(Store(c.disk, freed), x, inner, dbl);
      assert FindFrom(c.entries, x, 0).Some?;
    }
  }

  /** An empty file that grows by one sector takes the lowest free one. */
  lemma FirstGrowth(st: Store, x: nat, inner: PtrBlock, dbl: PtrBlock)
    requires StoreOk(st) && FirstFree(st.used, 0) == Some(x)
    ensures var g := Grow(st, EmptyNode(), 1, inner, dbl);
            g.status == Ok && g.node.ptrs[0] == x && g.st == WriteSector(Take(st, x), x, ZeroSector())
  {
    hide FirstFree;
    var start := Growth(st, EmptyNode(), inner, dbl, 1, Ok);
    assert LoopStep(start).left == 0;
    assert GrowLoop(LoopStep(start)) == LoopStep(start);
  }

  function Ones(): Sector { seq(SECTOR_SIZE, _ => 1) }

  /** A cache that holds ones for sector 1, still to be written back, over a disk of three sectors. */
  function OnesCached(): State {
    State([ZeroSector(), ZeroSector(), ZeroSector()], [Entry(1, Ones(), true, true, false)])
  }

  /** An inode whose only data sector is sector 1. */
  function OneSector(): Node {
    Node(EmptyNode().ptrs[0 := 1], 1, 0, 0)
  }

  lemma OneSectorHolds()
    ensures Valid(OnesCached()) && Holds(Store(OnesCached().disk, [true, true, true]), OneSector(), [1], [])
  {
  }

  lemma OneSectorReleased()
    ensures StoreOk(Store(OnesCached().disk, [true, true, true])) && NodeOk(OneSector())
    ensures CloseRemoved(Store(OnesCached().disk, [true, true, true]), OneSector(), 2, 1) == Some([true, false, false])
  {
    OneSectorHolds();
    CloseReleasesExactly(Store(OnesCached().disk, [true, true, true]), OneSector(), [1], [], 2);
    hide Holds;
    var r := CloseRemoved(Store(OnesCached().disk, [true, true, true]), OneSector(), 2, 1);
    assert r.value == [true, false, false];
  }

  /** There is such a file, such a cache and such a disk: a new file shows ones where it was filled with zeros. */
  lemma ReuseHappens(inner: PtrBlock, dbl: PtrBlock)
    ensures var c, freed := OnesCached(), [true, false, false];
            && Valid(c) && Holds(Store(c.disk, [true, true, true]), OneSector(), [1], [])
            && CloseRemoved(Store(c.disk, [true, true, true]), OneSector(), 2, 1) == Some(freed)
            && var g := Grow(Store(c.disk, freed), EmptyNode(), 1, inner, dbl);
               g.node.ptrs[0] == 1 && |g.st.disk| == 3 && Logical(State(g.st.disk, c.entries), 1) == Ones()
  {
    hide Holds, Grow, CloseRemoved;
    var c := OnesCached();
    OneSectorHolds();
    OneSectorReleased();
    assert c.entries[0].sector == 1;
    ReusedSector(c, [true, true, true], OneSector(), [1], [], 2, 0, inner, dbl);
    LogicalIs(c, 1);
  }

  /** A write-behind pass over a pointer block of a file that is in the cache: the file's sector `k` is still found if
      and only if the copy was clean or happens to hold the same pointer. */
  lemma WriteBehindOverBlock(c: State, used: seq<bool>, node: Node, data: seq<nat>, index: seq<nat>, k: nat, e: nat)
    requires Shaped(c) && Holds(Store(c.disk, used), node, data, index) && DIRECT <= k < |data|
    requires BlockNo(k) < |index| && e < |c.entries| && c.entries[e].sector == index[BlockNo(k)]
    requires k >= DOUBLE_START ==> INDIRECT < |index| && Clean(c, index[INDIRECT])
    ensures Lookup(FlushFrom(c, 0).disk, node, k) == Some(data[k])
            <==> !c.entries[e].isDirty || Unpack(c.entries[e].data)[Slot(k)] == data[k]
  {
    hide Unpack;
    var disk := FlushFrom(c, 0).disk;
    var b := index[BlockNo(k)];
    OverBlock(c, e);
    IndexCountBound(|data|);
    assert PtrIn(c.disk, b, Slot(k), data[k]);
    if k >= DOUBLE_START {
      FlushEffect(c, 0, index[INDIRECT]);
      assert PtrIn(c.disk, index[INDIRECT], BlockNo(k) - INDIRECT - 1, b);
    }
    assert IndexOf(disk, node, k) == Some(b);
  }

  /** What a pass leaves on the disk where entry `e` belongs. */
  lemma OverBlock(c: State, e: nat)
    requires Shaped(c) && e < |c.entries|
    ensures var b := c.entries[e].sector;
            FlushFrom(c, 0).disk[b] == if c.entries[e].isDirty then c.entries[e].data else c.disk[b]
  {
    var b := c.entries[e].sector;
    LogicalIs(c, b);
    if c.entries[e].isDirty {
      assert Agrees(c, b);
      FlushOnDisk(c, b);
    } else {
      assert Clean(c, b);
      FlushEffect(c, 0, b);
    }
  }

  // ---------------------------------------------------------------- a pointer block that is overwritten

  function Zeros8(): seq<Sector> { seq(8, _ => ZeroSector()) }

  /** The free map of eight sectors of which the first, the last and those up to `k` are in use. */
  function UsedUpTo(k: nat): seq<bool> { seq(8, i => i == 0 || i == 7 || i <= k) }

  /** A cache that holds ones for sector 5, still to be written back. */
  function OnesAt5(): State {
    State(Zeros8(), [Entry(5, Ones(), true, true, false)])
  }

  /** An inode whose only data sector is sector 5. */
  function FileAt5(): Node {
    Node(EmptyNode().ptrs[0 := 5], 1, 0, 0)
  }

  function Before(): seq<bool> { [true, false, false, false, false, true, true, true] }

  lemma Holds5()
    ensures Valid(OnesAt5()) && Holds(Store(Zeros8(), Before()), FileAt5(), [5], [])
  {
  }

  /** Closing the file, whose inode is in sector 6, frees both sectors. */
  lemma Released5()
    ensures CloseRemoved(Store(Zeros8(), Before()), FileAt5(), 6, 1) == Some(UsedUpTo(0))
  {
    Holds5();
    CloseReleasesExactly(Store(Zeros8(), Before()), FileAt5(), [5], [], 6);
    hide Holds, CloseRemoved;
    assert CloseRemoved(Store(Zeros8(), Before()), FileAt5(), 6, 1).value == UsedUpTo(0);
  }

  lemma NextFree(k: nat)
    requires k < 6
    ensures FirstFree(UsedUpTo(k), 0) == Some(k + 1) && UsedUpTo(k)[k + 1 := true] == UsedUpTo(k + 1)
  {
    FirstFreeIsLeast(UsedUpTo(k), 0, k + 1);
  }

  /** A new file that has got the first `k` of five sectors, all of them direct. */
  function Direct(k: nat, inner: PtrBlock, dbl: PtrBlock): Growth
    requires k <= 4
  {
    Growth(Store(Zeros8(), UsedUpTo(k)), Node(seq(NUM_PTRS, i => if 0 <= i < k then i + 1 else 0), k, 0, 0),
           inner, dbl, 5 - k, Ok)
  }

  lemma DirectTurn(k: nat, inner: PtrBlock, dbl: PtrBlock)
    requires k < 4
    ensures LoopStep(Direct(k, inner, dbl)) == Direct(k + 1, inner, dbl)
  {
    hide FirstFree;
    NextFree(k);
    var g := Direct(k, inner, dbl);
    assert g.st.disk[k + 1 := ZeroSector()] == g.st.disk;
    assert g.node.ptrs[k := k + 1] == Direct(k + 1, inner, dbl).node.ptrs;
  }

  /** The file after its fifth sector, 6, whose number is in a new pointer block, 5. */
  function Five(inner: PtrBlock, dbl: PtrBlock): Growth {
    Growth(Store(Zeros8()[5 := Pack(inner[0 := 6])], UsedUpTo(6)),
           Node(Direct(4, inner, dbl).node.ptrs[4 := 5], 4, 1, 0), inner[0 := 6], dbl, 0, Ok)
  }

  lemma FillOne(inner: PtrBlock)
    ensures FillBlock(Store(Zeros8(), UsedUpTo(5)), inner, 0, 1)
            == Filled(Store(Zeros8(), UsedUpTo(6)), inner[0 := 6], 1, 0, true)
  {
    hide FirstFree;
    NextFree(5);
    assert Zeros8()[6 := ZeroSector()] == Zeros8();
  }

  lemma IndirectTurn(inner: PtrBlock, dbl: PtrBlock)
    ensures LoopStep(Direct(4, inner, dbl)) == Five(inner, dbl)
  {
    hide FirstFree, FillBlock, Pack;
    NextFree(4);
    FillOne(inner);
  }

  /** A new file grows by five sectors: 1 to 4 and 6, with pointer block 5. */
  lemma GrowsByFive(inner: PtrBlock, dbl: PtrBlock)
    ensures Grow(Store(Zeros8(), UsedUpTo(0)), EmptyNode(), 5, inner, dbl) == Five(inner, dbl)
  {
    hide LoopStep, Pack;
    DirectTurn(0, inner, dbl);
    DirectTurn(1, inner, dbl);
    DirectTurn(2, inner, dbl);
    DirectTurn(3, inner, dbl);
    IndirectTurn(inner, dbl);
    assert Direct(0, inner, dbl).node == EmptyNode();
    LoopTurn(Direct(0, inner, dbl));
    LoopTurn(Direct(1, inner, dbl));
    LoopTurn(Direct(2, inner, dbl));
    LoopTurn(Direct(3, inner, dbl));
    LoopTurn(Direct(4, inner, dbl));
    assert GrowLoop(Five(inner, dbl)) == Five(inner, dbl);
  }

  lemma LoopTurn(g: Growth)
    requires GrowthOk(g) && g.status == Ok && g.left > 0 && g.node.ptrIdx < NUM_PTRS
    ensures GrowLoop(g) == if LoopStep(g).status == Ok then GrowLoop(LoopStep(g)) else LoopStep(g)
  {
  }

  /** A pointer block is destroyed.  A file of one sector is removed and closed while its sector 5 waits in the cache to
      be written back.  A new file grows by five sectors and gets 5 as its pointer block; its fifth sector is then
      found.  After a write-behind pass it is not: the old bytes are in the pointer block's place. */
  lemma BlockDestroyed(inner: PtrBlock, dbl: PtrBlock)
    ensures var c, g := OnesAt5(), Grow(Store(Zeros8(), UsedUpTo(0)), EmptyNode(), 5, inner, dbl);
            && Valid(c) && Holds(Store(c.disk, Before()), FileAt5(), [5], [])
            && CloseRemoved(Store(c.disk, Before()), FileAt5(), 6, 1) == Some(UsedUpTo(0))
            && g.status == Ok && Lookup(g.st.disk, g.node, 4) == Some(6)
            && Shaped(State(g.st.disk, c.entries))
            && Lookup(FlushFrom(State(g.st.disk, c.entries), 0).disk, g.node, 4) == Some(0x0101_0101)
  {
    Holds5();
    Released5();
    GrowsByFive(inner, dbl);
    UnpackPack(inner[0 := 6]);
    var g := Five(inner, dbl);
    var t := State(g.st.disk, OnesAt5().entries);
    OverBlock(t, 0);
    hide Holds, CloseRemoved, Grow, Pack, FlushFrom;
    assert WordAt(Ones(), 0) == 0x0101_0101;
  }

  /** That growth is one `inode_grow` can do; what it lacks is a pointer block that is not dirty in the cache. */
  lemma BlockIsDirty(inner: PtrBlock, dbl: PtrBlock)
    ensures var st := Store(Zeros8(), UsedUpTo(0));
            && Holds(st, EmptyNode(), [], []) && CanGrow(st.used, 0, 5)
            && !NewBlocksClean(OnesAt5(), st, EmptyNode(), [], [], 5, inner, dbl)
  {
    var st := Store(Zeros8(), UsedUpTo(0));
    SixFree();
    assert Holds(st, EmptyNode(), [], []);
    CanGrowSuffices(st, EmptyNode(), [], [], 5, inner, dbl);
    GrowsByFive(inner, dbl);
    var r := Five(inner, dbl);
    hide Grow, Five, Pack;
    var more, moreIndex :| |more| == 5 && Extends(st, r.st, r.node, [], [], more, moreIndex);
    FirstBlock(st, r.st, r.node, more, moreIndex);
    FiveAt5(inner, dbl);
    assert OnesAt5().entries[0].sector == moreIndex[0];
    assert !AllClean(OnesAt5(), moreIndex);
  }

  lemma SixFree()
    ensures Free(UsedUpTo(0)) >= 6
  {
    FreshBound(UsedUpTo(0), [1, 2, 3, 4, 5, 6]);
  }

  lemma FirstBlock(st: Store, st': Store, node': Node, more: seq<nat>, moreIndex: seq<nat>)
    requires Extends(st, st', node', [], [], more, moreIndex) && |more| == 5
    ensures |moreIndex| == 1 && moreIndex[0] == node'.ptrs[4]
  {
    assert [] + more == more && [] + moreIndex == moreIndex;
  }

  lemma FiveAt5(inner: PtrBlock, dbl: PtrBlock)
    ensures Five(inner, dbl).node.ptrs[4] == 5
  {
  }
}
