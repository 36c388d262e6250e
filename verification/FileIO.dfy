/**
 Reading and writing a file through the buffer cache: what a write changes in the bytes of the file,
 what a read returns, what neither of them touches, and when the shown length follows the real one.
 */
module FileIO {
  import opened DiskModel
  import opened BitmapModel
  import opened CacheModel
  import opened InodeLayout
  import opened InodeGrow
  import opened InodeGrowLaws
  import opened InodeTheorems
  import opened InodeExact
  import opened FileSystemModel
  import opened FileContents
  import opened FileWriting

  // ---------------------------------------------------------------- a file in a file system

  /** The inode holds `data`, the length matches, and the file is intact beside the cache, except for data sectors at
      the positions in `stale`, whose copies may differ from the disk. */
  ghost predicate FileOkBut(fs: FileSystem, inode: Inode, data: seq<nat>, index: seq<nat>, stale: set<nat>)
    reads fs, fs.cache, fs.freeMap, fs.freeMap.bits, inode
  {
    && fs.Ok() && fs.cache.Ok() && Unpinned(fs.cache.Now())
    && Intact(fs.cache.Now(), fs.St().used, inode.Pointers(), data, index, stale)
    && |data| == BytesToSectors(inode.length)
  }

  ghost predicate FileOk(fs: FileSystem, inode: Inode, data: seq<nat>, index: seq<nat>)
    reads fs, fs.cache, fs.freeMap, fs.freeMap.bits, inode
  {
    FileOkBut(fs, inode, data, index, {})
  }

  /** The file's bytes as every user of the cache sees them. */
  ghost function Contents(fs: FileSystem, inode: Inode, data: seq<nat>): (r: seq<byte>)
    requires Covers(|fs.cache.disk|, data, inode.length)
    reads fs, fs.cache, inode
    ensures |r| == inode.length
  {
    FileBytes(fs.cache.Now(), data, inode.length)
  }

  lemma CoversFile(fs: FileSystem, inode: Inode, data: seq<nat>, index: seq<nat>, stale: set<nat>)
    requires FileOkBut(fs, inode, data, index, stale)
    ensures Covers(|fs.cache.disk|, data, inode.length)
    ensures Holds(fs.St(), inode.Pointers(), data, index)
  {
  }

  /** Nothing happens to any sector. */
  ghost predicate Untouched(c: State, t: State) {
    |t.disk| == |c.disk| && forall k :: 0 <= k < |c.disk| ==> Spares(c, t, k)
  }

  lemma UntouchedTrans(c: State, t: State, u: State)
    requires Untouched(c, t) && Untouched(t, u)
    ensures Untouched(c, u)
  {
    hide Spares;
    forall k | 0 <= k < |c.disk| ensures Spares(c, u, k) { SparesTrans(c, t, u, k); }
  }

  lemma UntouchedSelf(c: State)
    ensures Untouched(c, c)
  {
  }

  function MinInt(a: int, b: int): int { if a < b then a else b }

  // ---------------------------------------------------------------- reading

  ghost predicate AllShownAs(c: State, data: seq<nat>, length: nat, offset: nat, bytes: seq<byte>) {
    && Covers(|c.disk|, data, length) && offset + |bytes| <= length
    && forall q :: 0 <= q < |bytes| ==> ShownAs(c, data, length, offset + q, bytes[q])
  }

  /** How many bytes a read returns. */
  function ReadSize(shown: nat, offset: nat, size: int): nat {
    if shown <= offset || size <= 0 then 0 else MinInt(offset + size, shown) - offset
  }

  /** Reads up to `size` bytes at `offset`: the bytes of the file in that range, cut at the shown length, exactly for a
      file in order; nothing changes. */
  method ReadAt(fs: FileSystem, inode: Inode, size: int, offset: nat, ghost data: seq<nat>, ghost index: seq<nat>,
                ghost stale: set<nat>)
      returns (bytes: seq<byte>)
    requires FileOkBut(fs, inode, data, index, stale) && inode.lengthShown <= inode.length
    modifies fs.cache
    ensures FileOkBut(fs, inode, data, index, stale) && Untouched(old(fs.cache.Now()), fs.cache.Now())
    ensures Covers(|fs.cache.disk|, data, inode.length) && |fs.cache.disk| == |old(fs.cache.disk)|
    ensures |bytes| == ReadSize(inode.lengthShown, offset, size)
    ensures bytes != [] ==> AllShownAs(old(fs.cache.Now()), data, inode.length, offset, bytes)
    ensures stale == {} ==>
              && Contents(fs, inode, data) == old(FileBytes(fs.cache.Now(), data, inode.length))
              && bytes == if bytes == [] then [] else Contents(fs, inode, data)[offset..offset + |bytes|]
  {
    hide Intact, Unpacked, Valid, FileBytes, Untouched, Unpinned, Holds, Covers, Shaped, Logical, ByteToSector,
         AllShownAs;
    bytes := [];
    CoversFile(fs, inode, data, index, stale);
    ghost var c := fs.cache.Now();
    UntouchedSelf(c);
    if inode.lengthShown <= offset {
      return;
    }
    NothingRead(c, data, inode.length, offset);
    var left, at := size, offset;
    while left > 0
      invariant FileOkBut(fs, inode, data, index, stale) && Untouched(c, fs.cache.Now()) && |fs.cache.disk| == |c.disk|
      invariant offset <= at <= inode.lengthShown && at == offset + |bytes| && left == size - |bytes|
      invariant AllShownAs(c, data, inode.length, offset, bytes)
      invariant if size > 0 then left >= 0 else bytes == []
      decreases left
    {
      ghost var t := fs.cache.Now();
      var got := ReadNext(fs, inode, left, at, data, index, stale);
      UntouchedTrans(c, t, fs.cache.Now());
      if got == [] { break; }
      FileIntact(fs, inode, data, index, stale);
      MoreRead(c, t, data, inode.length, offset, bytes, got);
      bytes := bytes + got;
      left, at := left - |got|, at + |got|;
    }
    if stale == {} {
      FileKept(c, fs.cache.Now(), fs.St().used, inode.Pointers(), data, index, inode.length);
      ReadExactly(c, data, inode.length, offset, bytes);
    }
  }

  lemma FileIntact(fs: FileSystem, inode: Inode, data: seq<nat>, index: seq<nat>, stale: set<nat>)
    requires FileOkBut(fs, inode, data, index, stale)
    ensures Intact(fs.cache.Now(), fs.St().used, inode.Pointers(), data, index, stale)
  {
  }

  lemma NothingRead(c: State, data: seq<nat>, length: nat, offset: nat)
    requires Covers(|c.disk|, data, length) && offset <= length
    ensures AllShownAs(c, data, length, offset, [])
  {
  }

  lemma MoreRead(c: State, t: State, data: seq<nat>, length: nat, offset: nat, bytes: seq<byte>, got: seq<byte>)
    requires Shaped(c) && Untouched(c, t) && AllShownAs(c, data, length, offset, bytes)
    requires offset + |bytes| + |got| <= length && Covers(|t.disk|, data, length)
    requires got == FileBytes(t, data, length)[offset + |bytes|..offset + |bytes| + |got|]
    ensures AllShownAs(c, data, length, offset, bytes + got)
  {
    hide Spares, Shaped, ByteAt;
    forall q | 0 <= q < |bytes + got|
      ensures ShownAs(c, data, length, offset + q, (bytes + got)[q])
    {
      if q >= |bytes| {
        var p := offset + q;
        SectorOfByte(length, p);
        SparesShown(c, t, data, length, p);
        assert got[q - |bytes|] == FileBytes(t, data, length)[p];
      }
    }
  }

  /** A file in order is read exactly. */
  lemma ReadExactly(c: State, data: seq<nat>, length: nat, offset: nat, bytes: seq<byte>)
    requires AllShownAs(c, data, length, offset, bytes) && AllAgree(c, data, {})
    ensures bytes == FileBytes(c, data, length)[offset..offset + |bytes|]
  {
    hide Agrees, ByteAt;
    var part := FileBytes(c, data, length)[offset..offset + |bytes|];
    forall q | 0 <= q < |bytes|
      ensures bytes[q] == part[q]
    {
      SectorOfByte(length, offset + q);
      assert ShownAs(c, data, length, offset + q, bytes[q]);
    }
  }

  /** One turn of the read loop: as much as the sector at `at`, the shown length and `left` allow. */
  method ReadNext(fs: FileSystem, inode: Inode, left: nat, at: nat, ghost data: seq<nat>, ghost index: seq<nat>,
                  ghost stale: set<nat>)
      returns (got: seq<byte>)
    requires FileOkBut(fs, inode, data, index, stale) && at <= inode.lengthShown <= inode.length && left > 0
    modifies fs.cache
    ensures FileOkBut(fs, inode, data, index, stale) && Untouched(old(fs.cache.Now()), fs.cache.Now())
    ensures Covers(|old(fs.cache.disk)|, data, inode.length) && |fs.cache.disk| == |old(fs.cache.disk)|
    ensures |got| <= left && at + |got| <= inode.lengthShown && (got == [] <==> at == inode.lengthShown)
    ensures got == old(FileBytes(fs.cache.Now(), data, inode.length))[at..at + |got|]
  {
    hide Intact, Unpacked, FileBytes, Untouched, Unpinned, Holds, Covers, Shaped, Logical, ByteToSector;
    CoversFile(fs, inode, data, index, stale);
    UntouchedSelf(fs.cache.Now());
    if at < inode.length { ByteToSectorFinds(fs.St(), inode.Pointers(), data, index, inode.length, at); }
    var found := ByteToSector(fs.cache.disk, inode.Pointers(), inode.length, at);
    var sectorOfs := at % SECTOR_SIZE;
    var minLeft := MinInt(inode.lengthShown - at, SECTOR_SIZE - sectorOfs);
    var chunk := MinInt(left, minLeft);
    if chunk <= 0 { return []; }
    ChunkIs(fs.cache.Now(), data, inode.length, at, chunk);
    got := ReadChunk(fs, inode, found.sector, sectorOfs, chunk, data, index, at / SECTOR_SIZE, stale);
  }

  /** One cache read of a data sector. */
  method ReadChunk(fs: FileSystem, inode: Inode, sector: nat, ofs: nat, n: nat,
                   ghost data: seq<nat>, ghost index: seq<nat>, ghost i: nat, ghost stale: set<nat>)
      returns (bytes: seq<byte>)
    requires FileOkBut(fs, inode, data, index, stale) && i < |data| && sector == data[i] && ofs + n <= SECTOR_SIZE
    modifies fs.cache
    ensures FileOkBut(fs, inode, data, index, stale) && Untouched(old(fs.cache.Now()), fs.cache.Now())
    ensures |fs.cache.disk| == |old(fs.cache.disk)| && sector < |fs.cache.disk|
    ensures bytes == Logical(old(fs.cache.Now()), sector)[ofs..ofs + n]
  {
    hide Intact, Touches, View, Logical, Spares, Stuck, Shaped;
    CoversFile(fs, inode, data, index, stale);
    ghost var s := fs.cache.Now();
    NeverStuck(s);
    var r := fs.cache.Read(sector, ofs, n);
    FileSpared(s, fs.cache.Now(), fs.St().used, inode.Pointers(), data, index, stale);
    bytes := r.value;
  }

  lemma NeverStuck(s: State)
    requires Unpinned(s)
    ensures !Stuck(s)
  {
    assert |s.entries| >= MAX_CACHE_SIZE ==> !s.entries[0].isUsing;
  }

  lemma FileKept(c: State, t: State, used: seq<bool>, node: Node, data: seq<nat>, index: seq<nat>, length: nat)
    requires Intact(c, used, node, data, index, {}) && Untouched(c, t) && Shaped(t) && Covers(|c.disk|, data, length)
    ensures Intact(t, used, node, data, index, {}) && FileBytes(t, data, length) == FileBytes(c, data, length)
    ensures AllAgree(c, data, {})
  {
    hide Holds, Spares, Shaped, Logical, FileBytes, Agrees;
    FileSpared(c, t, used, node, data, index, {});
    SameFile(c, t, data, length);
  }

  // ---------------------------------------------------------------- growing

  /** Sectors a file of `length` bytes still needs to reach `end` bytes. */
  function Needed(length: nat, end: nat): nat {
    if end > length then BytesToSectors(end) - BytesToSectors(length) else 0
  }

  /** Nothing waits in the cache to be written over a sector that growth by `m` sectors takes for a pointer block. */
  ghost predicate NewBlocksClean(c: State, st: Store, node: Node, data: seq<nat>, index: seq<nat>, m: nat,
                                 inner: PtrBlock, dbl: PtrBlock)
  {
    StoreOk(st) && NodeOk(node) ==>
      var r := Grow(st, node, m, inner, dbl);
      forall more: seq<nat>, moreIndex: seq<nat> ::
        |more| == m && Extends(st, r.st, r.node, data, index, more, moreIndex) ==> AllClean(c, moreIndex)
  }

  /** A growth that needs no new pointer block needs no such care. */
  lemma NoBlocksNeeded(c: State, st: Store, node: Node, data: seq<nat>, index: seq<nat>, m: nat,
                       inner: PtrBlock, dbl: PtrBlock)
    requires Holds(st, node, data, index) && IndexCount(|data| + m) == IndexCount(|data|)
    ensures NewBlocksClean(c, st, node, data, index, m, inner, dbl)
  {
    hide Grow, IndexCount;
    if StoreOk(st) && NodeOk(node) {
      var r := Grow(st, node, m, inner, dbl);
      forall more: seq<nat>, moreIndex: seq<nat> |
        |more| == m && Extends(st, r.st, r.node, data, index, more, moreIndex)
        ensures AllClean(c, moreIndex)
      {
        ExtendsHolds(st, r.st, r.node, data, index, more, moreIndex);
        assert |index + moreIndex| == IndexCount(|data + more|);
      }
    }
  }

  /** Nor does one within the direct sectors. */
  lemma DirectNeedsNone(c: State, st: Store, node: Node, data: seq<nat>, index: seq<nat>, m: nat,
                        inner: PtrBlock, dbl: PtrBlock)
    requires Holds(st, node, data, index) && |data| + m <= DIRECT
    ensures NewBlocksClean(c, st, node, data, index, m, inner, dbl)
  {
    NoBlocksNeeded(c, st, node, data, index, m, inner, dbl);
  }

  /** Nothing waits in the cache to be written to a free sector. */
  ghost predicate FreeClean(c: State, used: seq<bool>) {
    forall k :: 0 <= k < |used| && !used[k] ==> Clean(c, k)
  }

  lemma FreeCleanSuffices(c: State, st: Store, node: Node, data: seq<nat>, index: seq<nat>, m: nat,
                          inner: PtrBlock, dbl: PtrBlock)
    requires FreeClean(c, st.used)
    ensures NewBlocksClean(c, st, node, data, index, m, inner, dbl)
  {
    hide Grow, Holds, Clean;
  }

  /** What a file takes on top of `own` was free, and is counted. */
  ghost predicate Takes(used: seq<bool>, used': seq<bool>, own: seq<nat>, own': seq<nat>) {
    && Free(used') + |own'| == Free(used) + |own|
    && forall i :: 0 <= i < |own'| ==> own'[i] in own || (own'[i] < |used| && !used[own'[i]])
  }

  lemma GrowthTakes(st: Store, st': Store, node': Node, data: seq<nat>, index: seq<nat>,
                    more: seq<nat>, moreIndex: seq<nat>)
    requires Extends(st, st', node', data, index, more, moreIndex)
    ensures Takes(st.used, st'.used, data + index, data + more + (index + moreIndex))
  {
    hide Holds, Marks, Kept, AllZero;
    FreeAfterGrowth(st, st', node', data, index, more, moreIndex);
    var own' := data + more + (index + moreIndex);
    forall i | 0 <= i < |own'|
      ensures own'[i] in data + index || (own'[i] < |st.used| && !st.used[own'[i]])
    {
      assert own'[i] in data || own'[i] in more || own'[i] in index || own'[i] in moreIndex;
    }
  }

  /** The growth at the head of a write. */
  method GrowFor(fs: FileSystem, inode: Inode, end: nat, stackInner: PtrBlock, stackDbl: PtrBlock,
                 ghost data: seq<nat>, ghost index: seq<nat>, ghost stale: set<nat>)
      returns (ghost data': seq<nat>, ghost index': seq<nat>)
    requires FileOkBut(fs, inode, data, index, stale)
    requires end > inode.length ==>
               && CanGrow(fs.St().used, |data|, Needed(inode.length, end))
               && NewBlocksClean(fs.cache.Now(), fs.St(), inode.Pointers(), data, index, Needed(inode.length, end),
                                 stackInner, stackDbl)
    modifies fs.cache`disk, fs.freeMap.bits, inode`ptrs, inode`ptrIdx, inode`indirIdx, inode`dblIdx, inode`length
    ensures FileOkBut(fs, inode, data', index', stale + NewStale(old(fs.cache.Now()), data', |data|))
    ensures inode.length == (if end > old(inode.length) then end else old(inode.length))
    ensures data <= data' && Grown(old(fs.cache.Now()), fs.cache.Now(), data, data')
    ensures Takes(old(fs.St()).used, fs.St().used, data + index, data' + index')
    ensures Leaves(old(fs.cache.Now()), old(fs.St()).used, fs.cache.Now(), fs.St().used, data' + index')
  {
    hide Intact, Extends, Valid, Unpacked, CanGrow, Grow, Spares, Leaves, Grown, NewBlocksClean, Takes;
    data', index' := data, index;
    ghost var c, st, node := fs.cache.Now(), fs.St(), inode.Pointers();
    IntactParts(c, st.used, node, data, index, stale);
    if end > inode.length {
      CursorIsNodeOk(node, |data|);
      ghost var m := Needed(inode.length, end);
      CanGrowSuffices(st, node, data, index, m, stackInner, stackDbl);
      var r, status := fs.GrowInode(inode, end, stackInner, stackDbl);
      ghost var more, moreIndex :|
        |more| == m && Extends(st, fs.St(), inode.Pointers(), data, index, more, moreIndex);
      NewBlocksAre(c, st, node, data, index, m, stackInner, stackDbl, more, moreIndex);
      data', index' := data + more, index + moreIndex;
      inode.length := end;
      GrowBesideCache(c, st, fs.St(), inode.Pointers(), data, index, more, moreIndex, stale);
      GrowLeaves(c, st, fs.St(), inode.Pointers(), data, index, more, moreIndex);
      GrowthTakes(st, fs.St(), inode.Pointers(), data, index, more, moreIndex);
    } else {
      assert Grown(c, c, data, data) by { NotGrown(c, data); }
      LeavesSelf(c, st.used, data' + index');
      TakesNothing(st.used, data + index);
      assert stale + NewStale(c, data, |data|) == stale;
    }
  }

  lemma NotGrown(c: State, data: seq<nat>)
    requires forall i :: 0 <= i < |data| ==> data[i] < |c.disk|
    ensures Grown(c, c, data, data)
  {
  }

  lemma IntactParts(c: State, used: seq<bool>, node: Node, data: seq<nat>, index: seq<nat>, stale: set<nat>)
    requires Intact(c, used, node, data, index, stale)
    ensures var st := Store(c.disk, used);
            && Holds(st, node, data, index) && Shaped(c) && AllAgree(c, data, stale) && AllClean(c, index)
            && Cursor(node, |data|) && AllUsed(st, data) && AllUsed(st, index) && StoreOk(st)
            && |data| <= MAX_SECTORS && Disjoint(data, index)
  {
  }

  lemma NewBlocksAre(c: State, st: Store, node: Node, data: seq<nat>, index: seq<nat>, m: nat,
                     inner: PtrBlock, dbl: PtrBlock, more: seq<nat>, moreIndex: seq<nat>)
    requires NewBlocksClean(c, st, node, data, index, m, inner, dbl) && StoreOk(st) && NodeOk(node) && |more| == m
    requires var r := Grow(st, node, m, inner, dbl); Extends(st, r.st, r.node, data, index, more, moreIndex)
    ensures AllClean(c, moreIndex)
  {
  }

  lemma TakesNothing(used: seq<bool>, own: seq<nat>)
    ensures Takes(used, used, own, own)
  {
  }

  lemma LeavesSelf(c: State, used: seq<bool>, own: seq<nat>)
    requires |c.disk| == |used|
    ensures Leaves(c, used, c, used, own)
  {
  }

  // ---------------------------------------------------------------- writing

  /** One turn of the chunk loop: as much of the buffer as the sector at `at` and the length allow. */
  method WriteNext(fs: FileSystem, inode: Inode, buffer: seq<byte>, offset: nat, at: nat,
                   ghost c: State, ghost data: seq<nat>, ghost index: seq<nat>, ghost stale: set<nat>)
      returns (chunk: nat)
    requires fs.Ok() && fs.cache.Ok() && Unpinned(fs.cache.Now()) && at < offset + |buffer|
    requires Progress(c, fs.cache.Now(), fs.St().used, inode.Pointers(), data, index, inode.length, stale, offset,
                      buffer, at)
    requires |data| == BytesToSectors(inode.length) && inode.lengthShown <= inode.length
    modifies fs.cache, inode`lengthShown
    ensures fs.Ok() && fs.cache.Ok() && Unpinned(fs.cache.Now()) && fs.St().used == old(fs.St().used)
    ensures 0 < chunk <= offset + |buffer| - at
    ensures inode.lengthShown == MinInt(inode.length, old(inode.lengthShown) + chunk)
    ensures Progress(c, fs.cache.Now(), fs.St().used, inode.Pointers(), data, index, inode.length, stale, offset,
                     buffer, at + chunk)
  {
    hide Progress, Logical, Stuck, Shaped, Unpacked, Touches, Stores, View, Valid, Unpinned, Holds;
    ghost var t := fs.cache.Now();
    ProgressHolds(c, t, fs.St().used, inode.Pointers(), data, index, inode.length, stale, offset, buffer, at);
    ByteToSectorFinds(fs.St(), inode.Pointers(), data, index, inode.length, at);
    var found := ByteToSector(fs.cache.disk, inode.Pointers(), inode.length, at);
    var sectorOfs := at % SECTOR_SIZE;
    var minLeft := MinInt(inode.length - at, SECTOR_SIZE - sectorOfs);
    chunk := MinInt(offset + |buffer| - at, minLeft);
    NeverStuck(t);
    SectorOfByte(inode.length, at);
    var ok := fs.cache.Write(found.sector, sectorOfs, buffer[at - offset..at - offset + chunk]);
    ProgressStep(c, t, fs.cache.Now(), fs.St().used, inode.Pointers(), data, index, inode.length, stale, offset, buffer,
                 at, chunk);
    inode.lengthShown := if inode.lengthShown + chunk > inode.length then inode.length else inode.lengthShown + chunk;
  }

  lemma ProgressHolds(c: State, t: State, used: seq<bool>, node: Node, data: seq<nat>, index: seq<nat>,
                      length: nat, stale: set<nat>, offset: nat, buffer: seq<byte>, at: nat)
    requires Progress(c, t, used, node, data, index, length, stale, offset, buffer, at)
    ensures offset <= at <= offset + |buffer| <= length && Covers(|t.disk|, data, length)
    ensures |t.disk| == |used| && Holds(Store(t.disk, used), node, data, index)
  {
  }

  /** The loop over chunks: it writes the whole buffer, and the shown length follows, up to the length. */
  method WriteChunks(fs: FileSystem, inode: Inode, buffer: seq<byte>, offset: nat,
                     ghost data: seq<nat>, ghost index: seq<nat>, ghost stale: set<nat>)
      returns (written: nat)
    requires FileOkBut(fs, inode, data, index, stale)
    requires inode.length >= offset + |buffer| && inode.lengthShown <= inode.length
    modifies fs.cache, inode`lengthShown
    ensures fs.Ok() && fs.cache.Ok() && Unpinned(fs.cache.Now()) && fs.St().used == old(fs.St().used)
    ensures written == |buffer| && inode.lengthShown == MinInt(inode.length, old(inode.lengthShown) + |buffer|)
    ensures Progress(old(fs.cache.Now()), fs.cache.Now(), fs.St().used, inode.Pointers(), data, index, inode.length,
                     stale, offset, buffer, offset + |buffer|)
  {
    hide Progress, Shaped, Unpinned, Valid, Intact;
    written := 0;
    ghost var c := fs.cache.Now();
    CoversFile(fs, inode, data, index, stale);
    NothingYet(c, fs.St().used, inode.Pointers(), data, index, inode.length, stale, offset, buffer);
    while written < |buffer|
      invariant fs.Ok() && fs.cache.Ok() && Unpinned(fs.cache.Now()) && fs.St().used == old(fs.St().used)
      invariant written <= |buffer| && inode.lengthShown == MinInt(inode.length, old(inode.lengthShown) + written)
      invariant Progress(c, fs.cache.Now(), fs.St().used, inode.Pointers(), data, index, inode.length, stale, offset,
                         buffer, offset + written)
    {
      var chunk := WriteNext(fs, inode, buffer, offset, offset + written, c, data, index, stale);
      written := written + chunk;
    }
  }

  /** The positions that are stale after a write: those that were, and new ones with clean copies, less those the write
      has reached. */
  ghost function StaleAfter(c: State, data: seq<nat>, known: nat, stale: set<nat>, offset: nat, size: nat): set<nat> {
    StaleAt(stale + NewStale(c, data, known), offset, offset + size)
  }

  /** Writes `buffer` at `offset`, growing the file first if it must, whatever the cache holds of the sectors it takes
      for data.  All bytes are written; the other bytes show what they showed, and exactly so in a file in order; the
      bytes of a gap show zeros or what the cache held; every sector of no concern to the write is left alone; the shown
      length grows by the bytes written, up to the length. */
  method WriteAt(fs: FileSystem, inode: Inode, buffer: seq<byte>, offset: nat, stackInner: PtrBlock, stackDbl: PtrBlock,
                 ghost data: seq<nat>, ghost index: seq<nat>, ghost stale: set<nat>)
      returns (written: nat, ghost data': seq<nat>, ghost index': seq<nat>)
    requires FileOkBut(fs, inode, data, index, stale) && inode.lengthShown <= inode.length
    requires inode.denyWriteCnt == 0 && offset + |buffer| > inode.length ==>
               && CanGrow(fs.St().used, |data|, Needed(inode.length, offset + |buffer|))
               && NewBlocksClean(fs.cache.Now(), fs.St(), inode.Pointers(), data, index,
                                 Needed(inode.length, offset + |buffer|), stackInner, stackDbl)
    modifies fs.cache, fs.freeMap.bits
    modifies inode`ptrs, inode`ptrIdx, inode`indirIdx, inode`dblIdx, inode`length, inode`lengthShown
    ensures inode.denyWriteCnt != 0 ==>
              && written == 0 && fs.cache.Now() == old(fs.cache.Now()) && fs.Ok() && fs.St() == old(fs.St())
              && inode.Pointers() == old(inode.Pointers()) && inode.length == old(inode.length)
              && inode.lengthShown == old(inode.lengthShown) && data' == data && index' == index
              && FileOkBut(fs, inode, data, index, stale)
    ensures inode.denyWriteCnt == 0 ==>
              && FileOkBut(fs, inode, data', index',
                           StaleAfter(old(fs.cache.Now()), data', |data|, stale, offset, |buffer|))
              && written == |buffer| && inode.lengthShown == MinInt(inode.length, old(inode.lengthShown) + |buffer|)
    ensures data <= data' && Covers(|old(fs.cache.disk)|, data, old(inode.length))
    ensures Covers(|fs.cache.disk|, data', inode.length)
    ensures stale == {} && offset <= old(inode.length) ==> FileOk(fs, inode, data', index')
    ensures inode.denyWriteCnt == 0 ==>
              && HoldsBuffer(fs.cache.Now(), data', inode.length, offset, buffer, offset + |buffer|)
              && OthersShown(old(fs.cache.Now()), fs.cache.Now(), data', inode.length, |data|, offset,
                             offset + |buffer|)
    ensures inode.denyWriteCnt == 0 && stale == {} ==>
              Written(old(FileBytes(fs.cache.Now(), data, inode.length)), offset, buffer, Contents(fs, inode, data'))
    ensures fs.Ok() && Leaves(old(fs.cache.Now()), old(fs.St()).used, fs.cache.Now(), fs.St().used, data' + index')
    ensures Takes(old(fs.St()).used, fs.St().used, data + index, data' + index')
  {
    hide Intact, Valid, Unpacked, CanGrow, NewBlocksClean, FileBytes, StaleAt, NewStale, Progress, Grown, Leaves,
         Shaped, Unpinned, Covers, Written, Takes, OthersShown, HoldsBuffer, Unwritten;
    written, data', index' := 0, data, index;
    ghost var c, used, was := fs.cache.Now(), fs.St().used, inode.length;
    CoversFile(fs, inode, data, index, stale);
    if inode.denyWriteCnt != 0 {
      LeavesSelf(c, used, data' + index');
      TakesNothing(used, data + index);
      return;
    }
    IntactParts(c, used, inode.Pointers(), data, index, stale);
    data', index' := GrowFor(fs, inode, offset + |buffer|, stackInner, stackDbl, data, index, stale);
    ghost var t, stale' := fs.cache.Now(), stale + NewStale(c, data', |data|);
    written := WriteChunks(fs, inode, buffer, offset, data', index', stale');
    ghost var u := fs.cache.Now();
    ProgressParts(t, u, fs.St().used, inode.Pointers(), data', index', inode.length, stale', offset, buffer,
                  offset + |buffer|);
    RestShown(c, t, u, data, data', inode.length, offset, offset + |buffer|);
    if stale == {} { Finished(c, u, data, data', was, inode.length, offset, buffer); }
    if stale == {} && offset <= was {
      NoGapNothingStale(c, data', was, inode.length, offset, |buffer|);
      assert {} + NewStale(c, data', |data|) == NewStale(c, data', |data|);
    }
    ChunksLeave(t, u, fs.St().used, data', index');
    LeavesTrans(c, used, t, fs.St().used, u, fs.St().used, data' + index');
  }

  lemma ChunksLeave(t: State, u: State, used: seq<bool>, data: seq<nat>, index: seq<nat>)
    requires |t.disk| == |u.disk| == |used| && forall k :: 0 <= k < |t.disk| && k !in data ==> Spares(t, u, k)
    ensures Leaves(t, used, u, used, data + index)
  {
    hide Spares;
  }

  /** From a file shown in full, a write leaves it shown in full if and only if it does not start past the end. */
  lemma ShownInFull(length: nat, offset: nat, size: nat)
    ensures var length' := if offset + size > length then offset + size else length;
            MinInt(length', length + size) == length' <==> offset <= length
  {
  }

  /** A read after a write, in the range that was written: exactly the bytes written. */
  method WriteThenRead(fs: FileSystem, inode: Inode, buffer: seq<byte>, offset: nat,
                       stackInner: PtrBlock, stackDbl: PtrBlock, ghost data: seq<nat>, ghost index: seq<nat>)
      returns (back: seq<byte>, ghost data': seq<nat>, ghost index': seq<nat>)
    requires FileOk(fs, inode, data, index) && inode.lengthShown == inode.length && offset <= inode.length
    requires inode.denyWriteCnt == 0
    requires offset + |buffer| > inode.length ==>
               && CanGrow(fs.St().used, |data|, Needed(inode.length, offset + |buffer|))
               && NewBlocksClean(fs.cache.Now(), fs.St(), inode.Pointers(), data, index,
                                 Needed(inode.length, offset + |buffer|), stackInner, stackDbl)
    modifies fs.cache, fs.freeMap.bits
    modifies inode`ptrs, inode`ptrIdx, inode`indirIdx, inode`dblIdx, inode`length, inode`lengthShown
    ensures back == buffer && FileOk(fs, inode, data', index') && inode.lengthShown == inode.length
  {
    hide Intact, Valid, Unpacked, CanGrow, NewBlocksClean, FileBytes, StaleAt, Leaves, OthersShown, HoldsBuffer;
    ShownInFull(inode.length, offset, |buffer|);
    var written;
    written, data', index' := WriteAt(fs, inode, buffer, offset, stackInner, stackDbl, data, index, {});
    ghost var now := Contents(fs, inode, data');
    back := ReadAt(fs, inode, |buffer|, offset, data', index', {});
    assert now[offset..offset + |buffer|] == buffer;
  }
}
