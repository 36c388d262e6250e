/**
 Any run of reads, writes, creations, removals and write-behind passes on any number of open files gives the answers of
 one plain byte array per file, although sectors pass from file to file with their old bytes still in the cache.
 */
module FileRun {
  import opened DiskModel
  import opened BitmapModel
  import opened CacheModel
  import opened InodeLayout
  import InodeGrow
  import opened InodeGrowLaws
  import opened InodeTheorems
  import opened InodeRelease
  import opened FileSystemModel
  import opened FileClose
  import opened FileContents
  import opened FileWriting
  import opened FileIO
  import opened OpenFiles

  /** One system call on file number `file`, or a write-behind pass.  `inner` and `dbl` are what the stack happens to
      hold, `ptrs` the pointers of a new inode, `image` what goes into its sector; `Close` is the last close of a file
      that was removed. */
  datatype Access = Read(file: nat, offset: nat, size: nat)
                  | Write(file: nat, offset: nat, bytes: seq<byte>, inner: PtrBlock, dbl: PtrBlock)
                  | Create(ptrs: Ptrs, image: Sector)
                  | Close(file: nat)
                  | WriteBehind

  // ---------------------------------------------------------------- plain byte arrays

  function PlainRead(f: seq<byte>, offset: nat, size: nat): seq<byte> {
    if |f| <= offset || size == 0 then [] else f[offset..MinInt(offset + size, |f|)]
  }

  function PlainWrite(f: seq<byte>, offset: nat, bytes: seq<byte>): seq<byte> {
    var g := if offset > |f| then f + seq(offset - |f|, _ => 0) else f;
    g[..offset] + bytes + if offset + |bytes| < |g| then g[offset + |bytes|..] else []
  }

  /** The access is on a file there is. */
  predicate OnFile(a: Access, count: nat) {
    a.Read? || a.Write? || a.Close? ==> a.file < count
  }

  /** The arrays that an access leaves, and its answer. */
  function PlainStep(fs: seq<seq<byte>>, a: Access): (seq<seq<byte>>, seq<byte>)
    requires OnFile(a, |fs|)
  {
    match a
    case Read(k, offset, size) => (fs, PlainRead(fs[k], offset, size))
    case Write(k, offset, bytes, _, _) => (fs[k := PlainWrite(fs[k], offset, bytes)], [])
    case Create(_, _) => (fs + [[]], [])
    case Close(k) => (Without(fs, k), [])
    case WriteBehind => (fs, [])
  }

  /** The arrays after a run, and all answers; an access to a file there is not ends it. */
  function PlainRun(fs: seq<seq<byte>>, run: seq<Access>): (seq<seq<byte>>, seq<seq<byte>>)
    decreases |run|
  {
    if run == [] || !OnFile(run[0], |fs|) then (fs, [])
    else
      var (fs', out) := PlainStep(fs, run[0]);
      var (end, outs) := PlainRun(fs', run[1..]);
      (end, [out] + outs)
  }

  // ---------------------------------------------------------------- the limits of the disk

  function LengthAfter(length: nat, a: Access): nat {
    if a.Write? && a.offset + |a.bytes| > length then a.offset + |a.bytes| else length
  }

  function LengthsAfter(lengths: seq<nat>, a: Access): seq<nat>
    requires OnFile(a, |lengths|)
  {
    match a
    case Write(k, _, _, _, _) => lengths[k := LengthAfter(lengths[k], a)]
    case Create(_, _) => lengths + [0]
    case Close(k) => Without(lengths, k)
    case _ => lengths
  }

  /** Sectors that a write to a file of `length` bytes takes, pointer blocks included. */
  function Cost(length: nat, a: Access): nat {
    var n, m := BytesToSectors(length), if a.Write? then Needed(length, a.offset + |a.bytes|) else 0;
    TotalMonotone(n, m);
    Total(n + m) - Total(n)
  }

  /** A write does not start behind the end, and its growth is one `inode_grow` can do with `free` sectors; if it takes
      pointer blocks, the free sectors are clean in the cache. */
  predicate WriteFits(free: nat, clean: bool, length: nat, a: Access) {
    a.Write? ==>
      var n, m := BytesToSectors(length), Needed(length, a.offset + |a.bytes|);
      && a.offset <= length && n + m <= MAX_SECTORS && Confined(n, m) && Cost(length, a) <= free
      && (clean || IndexCount(n + m) == IndexCount(n))
  }

  predicate AccessFits(free: nat, clean: bool, lengths: seq<nat>, a: Access) {
    && OnFile(a, |lengths|)
    && (a.Write? ==> WriteFits(free, clean, lengths[a.file], a))
    && (a.Create? ==> free > 0)
  }

  function FreeLeft(free: nat, clean: bool, lengths: seq<nat>, a: Access): nat
    requires AccessFits(free, clean, lengths, a)
  {
    match a
    case Write(k, _, _, _, _) => free - Cost(lengths[k], a)
    case Create(_, _) => free - 1
    case Close(k) => free + 1 + Total(BytesToSectors(lengths[k]))
    case _ => free
  }

  /** A write-behind pass cleans the cache; released sectors may be dirty in it. */
  function CleanAfter(clean: bool, a: Access): bool {
    if a.WriteBehind? then true else if a.Close? then false else clean
  }

  /** The accesses of the run fit, one after another. */
  predicate Fits(free: nat, clean: bool, lengths: seq<nat>, run: seq<Access>)
    decreases |run|
  {
    run == [] ||
    (&& AccessFits(free, clean, lengths, run[0])
     && Fits(FreeLeft(free, clean, lengths, run[0]), CleanAfter(clean, run[0]), LengthsAfter(lengths, run[0]),
             run[1..]))
  }

  // ---------------------------------------------------------------- the inodes

  /** The inode is that of the file, which is shown in full and may be written. */
  ghost predicate Matches(inode: Inode, f: File)
    reads inode
  {
    && inode.sector == f.sector && inode.Pointers() == f.node && inode.length == inode.lengthShown == f.length
    && inode.denyWriteCnt == 0
  }

  /** What holds of disk, cache and free map between accesses; if `clean`, nothing waits in the cache to be written to a
      free sector. */
  ghost predicate StoreInOrder(fs: FileSystem, clean: bool)
    reads fs, fs.cache, fs.freeMap, fs.freeMap.bits
  {
    fs.Ok() && fs.cache.Ok() && Unpinned(fs.cache.Now()) && (clean ==> FreeClean(fs.cache.Now(), fs.St().used))
  }

  /** The inodes are those of the files, all different, and the files are in order. */
  ghost predicate FilesOk(fs: FileSystem, inodes: seq<Inode>, files: seq<File>, clean: bool)
    reads fs, fs.cache, fs.freeMap, fs.freeMap.bits, inodes
  {
    && StoreInOrder(fs, clean)
    && AllInOrder(fs.cache.Now(), fs.St().used, files)
    && |files| == |inodes| && (forall i :: 0 <= i < |inodes| ==> Matches(inodes[i], files[i]))
    && (forall i, j :: 0 <= i < j < |inodes| ==> inodes[i] != inodes[j])
  }

  // ---------------------------------------------------------------- writing

  lemma WriteIsPlain(was: seq<byte>, offset: nat, bytes: seq<byte>, now: seq<byte>)
    requires Written(was, offset, bytes, now) && offset <= |was|
    ensures now == PlainWrite(was, offset, bytes)
    ensures |now| == if offset + |bytes| > |was| then offset + |bytes| else |was|
  {
    WrittenExactly(was, offset, bytes, now);
  }

  lemma FreeAfterWrite(used: seq<bool>, used': seq<bool>, c: State, t: State, f: File, g: File, a: Access)
    requires InOrder(c, used, f) && InOrder(t, used', g) && a.Write? && g.length == LengthAfter(f.length, a)
    requires Takes(used, used', f.data + f.index, g.data + g.index)
    ensures Free(used') + Cost(f.length, a) == Free(used)
  {
    hide Free, Total;
    OwnParts(c, used, f);
    OwnParts(t, used', g);
  }

  lemma BlocksClean(c: State, st: Store, f: File, m: nat, a: Access, clean: bool)
    requires a.Write? && c.disk == st.disk && InOrder(c, st.used, f)
    requires if clean then FreeClean(c, st.used) else IndexCount(|f.data| + m) == IndexCount(|f.data|)
    ensures NewBlocksClean(c, st, f.node, f.data, f.index, m, a.inner, a.dbl)
  {
    hide Holds, FreeClean, NewBlocksClean, IndexCount;
    if clean {
      FreeCleanSuffices(c, st, f.node, f.data, f.index, m, a.inner, a.dbl);
    } else {
      NoBlocksNeeded(c, st, f.node, f.data, f.index, m, a.inner, a.dbl);
    }
  }

  /** The inode's sector is not among those a write takes. */
  lemma SectorStays(c: State, used: seq<bool>, t: State, used': seq<bool>, f: File, data': seq<nat>, index': seq<nat>)
    requires InOrder(c, used, f) && Leaves(c, used, t, used', data' + index')
    requires Takes(used, used', f.data + f.index, data' + index')
    ensures f.sector < |used'| && used'[f.sector] && f.sector !in data' && f.sector !in index'
  {
    hide Intact, Covers, Spares, Free;
    var own := data' + index';
    forall i | 0 <= i < |own|
      ensures own[i] != f.sector
    {
      assert own[i] in f.data + f.index || (own[i] < |used| && !used[own[i]]);
    }
    assert forall k :: k in data' || k in index' ==> k in own;
  }

  /** One file is written: its bytes become those of a plain array. */
  method WriteOne(fs: FileSystem, inode: Inode, a: Access, ghost f: File, ghost clean: bool) returns (ghost g: File)
    requires StoreInOrder(fs, clean) && InOrder(fs.cache.Now(), fs.St().used, f) && Matches(inode, f)
    requires a.Write? && WriteFits(Free(fs.St().used), clean, f.length, a)
    modifies fs.cache, fs.freeMap.bits, inode
    ensures StoreInOrder(fs, clean) && InOrder(fs.cache.Now(), fs.St().used, g) && Matches(inode, g)
    ensures g.sector == f.sector && g.length == LengthAfter(f.length, a)
    ensures BytesOf(fs.cache.Now(), g) == PlainWrite(BytesOf(old(fs.cache.Now()), f), a.offset, a.bytes)
    ensures Leaves(old(fs.cache.Now()), old(fs.St()).used, fs.cache.Now(), fs.St().used, g.data + g.index)
    ensures Takes(old(fs.St()).used, fs.St().used, f.data + f.index, g.data + g.index)
  {
    hide Intact, Covers, FileBytes, Leaves, Takes, FreeClean, Free, Written, PlainWrite, Unpinned, Shaped,
         NewBlocksClean, OthersShown, HoldsBuffer, StaleAfter, Total, Confined, IndexCount;
    ghost var c, st, m := fs.cache.Now(), fs.St(), Needed(f.length, a.offset + |a.bytes|);
    TotalMonotone(BytesToSectors(f.length), m);
    BlocksClean(c, st, f, m, a, clean);
    ShownInFull(f.length, a.offset, |a.bytes|);
    ghost var data', index';
    var written;
    written, data', index' := WriteAt(fs, inode, a.bytes, a.offset, a.inner, a.dbl, f.data, f.index, {});
    g := File(f.sector, inode.Pointers(), data', index', inode.length);
    SectorStays(c, st.used, fs.cache.Now(), fs.St().used, f, data', index');
    if clean { FreeStaysClean(c, st.used, fs.cache.Now(), fs.St().used, g.node, data', index', {}); }
    WriteIsPlain(BytesOf(c, f), a.offset, a.bytes, BytesOf(fs.cache.Now(), g));
  }

  // ---------------------------------------------------------------- creating and removing

  /** A sector that is taken and written past the cache. */
  lemma TakenLeaves(c: State, used: seq<bool>, s: nat, image: Sector)
    requires |c.disk| == |used| && s < |used| && !used[s]
    ensures Leaves(c, used, State(c.disk[s := image], c.entries), used[s := true], [s])
    ensures FreeClean(c, used) ==> FreeClean(State(c.disk[s := image], c.entries), used[s := true])
  {
    var t := State(c.disk[s := image], c.entries);
    hide Spares;
    forall k | 0 <= k < |c.disk| && k !in [s]
      ensures Spares(c, t, k)
    {
      DiskSpares(c, t, k);
    }
  }

  lemma EmptyInOrder(c: State, used: seq<bool>, s: nat, ptrs: Ptrs)
    requires Shaped(c) && |c.disk| == |used| <= MAX_DISK && s < |used| && used[s]
    ensures InOrder(c, used, File(s, Node(ptrs, 0, 0, 0), [], [], 0))
  {
  }

  lemma OneTaken(used: seq<bool>, s: nat)
    requires s < |used| && !used[s]
    ensures Free(used[s := true]) + 1 == Free(used)
  {
    CountTake(used, s, |used|);
  }

  /** `filesys_create` of an empty file and its first open: the lowest free sector becomes its inode's. */
  method CreateOne(fs: FileSystem, ptrs: Ptrs, image: Sector, ghost files: seq<File>, ghost clean: bool)
      returns (inode: Inode, ghost f: File)
    requires StoreInOrder(fs, clean) && AllInOrder(fs.cache.Now(), fs.St().used, files) && Free(fs.St().used) > 0
    modifies fs.cache, fs.freeMap.bits
    ensures fresh(inode) && Matches(inode, f) && f.length == 0 && StoreInOrder(fs, clean)
    ensures AllInOrder(fs.cache.Now(), fs.St().used, files + [f])
    ensures AllBytes(fs.cache.Now(), files + [f]) == AllBytes(old(fs.cache.Now()), files) + [[]]
    ensures Free(fs.St().used) + 1 == old(Free(fs.St().used))
    ensures f.sector < |fs.cache.Now().disk| && fs.cache.Now().disk[f.sector] == image
    ensures f.sector < |old(fs.St().used)| && fs.St().used == old(fs.St().used)[f.sector := true]
    ensures !old(fs.St().used)[f.sector] && forall k :: 0 <= k < f.sector ==> old(fs.St().used)[k]
  {
    hide AllInOrder, FreeClean, Free, Leaves, Unpacked, InOrder, BytesOf, Shaped;
    ghost var c, used := fs.cache.Now(), fs.St().used;
    FirstFreeIff(used);
    InodeGrow.NoneBefore(used, 0);
    var s := fs.AllocateSector();
    fs.DiskWrite(s.value, image);
    inode := new Inode(s.value);
    inode.ptrs := ptrs;
    f := File(s.value, inode.Pointers(), [], [], 0);
    GrownShaped(c, fs.cache.Now());
    TakenLeaves(c, used, s.value, image);
    EmptyInOrder(fs.cache.Now(), fs.St().used, s.value, ptrs);
    OneTaken(used, s.value);
    OwnOfEmpty(f);
    EmptyBytes(fs.cache.Now(), f);
    FileJoins(c, used, fs.cache.Now(), fs.St().used, files, f);
  }

  lemma OwnOfEmpty(f: File)
    requires f.data == [] && f.index == []
    ensures Own(f) == [f.sector]
  {
  }

  lemma EmptyBytes(c: State, f: File)
    requires f.data == [] && f.length == 0
    ensures Covers(|c.disk|, f.data, f.length) && BytesOf(c, f) == []
  {
  }

  /** The last close of a removed file: its sectors are free again, their bytes stay in the cache. */
  method CloseOne(fs: FileSystem, inode: Inode, ghost files: seq<File>, ghost j: nat)
    requires StoreInOrder(fs, false) && AllInOrder(fs.cache.Now(), fs.St().used, files)
    requires j < |files| && Matches(inode, files[j])
    modifies fs.freeMap.bits
    ensures StoreInOrder(fs, false) && fs.cache.Now() == old(fs.cache.Now())
    ensures AllInOrder(fs.cache.Now(), fs.St().used, Without(files, j))
    ensures AllBytes(fs.cache.Now(), Without(files, j)) == Without(AllBytes(old(fs.cache.Now()), files), j)
    ensures Free(fs.St().used) == old(Free(fs.St().used)) + 1 + Total(BytesToSectors(files[j].length))
  {
    hide Free, Unpacked, Holds, Total, Intact, Covers, Without;
    ghost var st, f := fs.St(), files[j];
    IntactParts(fs.cache.Now(), st.used, f.node, f.data, f.index, {});
    CloseReleasesExactly(st, f.node, f.data, f.index, f.sector);
    var ok := Deallocate(fs, inode);
    OwnParts(fs.cache.Now(), st.used, f);
    hide Own, Disjoint;
    FreeAfterRelease(fs.cache.Now(), st.used, fs.St().used, f);
    FileLeaves(fs.cache.Now(), st.used, fs.St().used, files, j);
  }

  // ---------------------------------------------------------------- one access

  lemma AllUntouched(c: State, t: State)
    requires |t.disk| == |c.disk| && forall k :: 0 <= k < |c.disk| ==> Spares(c, t, k)
    ensures Untouched(c, t)
  {
    hide Spares;
  }

  method DoRead(fs: FileSystem, inodes: seq<Inode>, a: Access, ghost files: seq<File>, ghost clean: bool)
      returns (out: seq<byte>)
    requires FilesOk(fs, inodes, files, clean) && AccessFits(Free(fs.St().used), clean, LengthsOf(files), a)
    requires a.Read?
    modifies fs.cache
    ensures FilesOk(fs, inodes, files, CleanAfter(clean, a))
    ensures LengthsOf(files) == LengthsAfter(LengthsOf(files), a)
    ensures Free(fs.St().used) == FreeLeft(old(Free(fs.St().used)), clean, LengthsOf(files), a)
    ensures (AllBytes(fs.cache.Now(), files), out) == PlainStep(AllBytes(old(fs.cache.Now()), files), a)
  {
    hide Intact, Covers, FileBytes, Leaves, Takes, FreeClean, Free, PlainWrite, Unpinned, Shaped, Cost, Own, Disjoint,
         Untouched, FlushFrom, WriteFits, Spares, Agrees, Logical, Valid, Total, AllShownAs;
    ghost var c, used, f := fs.cache.Now(), fs.St().used, files[a.file];
    assert Matches(inodes[a.file], f) && InOrder(c, used, f);
    out := ReadAt(fs, inodes[a.file], a.size, a.offset, f.data, f.index, {});
    LeavesAll(c, fs.cache.Now(), used, files);
  }

  method DoWrite(fs: FileSystem, inodes: seq<Inode>, a: Access, ghost files: seq<File>, ghost clean: bool)
      returns (ghost files': seq<File>)
    requires FilesOk(fs, inodes, files, clean) && AccessFits(Free(fs.St().used), clean, LengthsOf(files), a)
    requires a.Write?
    modifies fs.cache, fs.freeMap.bits, inodes[a.file]
    ensures FilesOk(fs, inodes, files', CleanAfter(clean, a))
    ensures LengthsOf(files') == LengthsAfter(LengthsOf(files), a)
    ensures Free(fs.St().used) == FreeLeft(old(Free(fs.St().used)), clean, LengthsOf(files), a)
    ensures (AllBytes(fs.cache.Now(), files'), []) == PlainStep(AllBytes(old(fs.cache.Now()), files), a)
  {
    hide Intact, Covers, FileBytes, Leaves, Takes, FreeClean, Free, PlainWrite, Unpinned, Shaped, Cost, Own, Disjoint,
         Untouched, FlushFrom, WriteFits, Spares, Agrees, Logical, Valid, Total, AllShownAs;
    ghost var c, used, f := fs.cache.Now(), fs.St().used, files[a.file];
    assert Matches(inodes[a.file], f) && InOrder(c, used, f);
    ghost var g := WriteOne(fs, inodes[a.file], a, f, clean);
    files' := files[a.file := g];
    FreeAfterWrite(used, fs.St().used, c, fs.cache.Now(), f, g, a);
    OthersStay(c, used, fs.cache.Now(), fs.St().used, files, a.file, g);
  }

  method DoCreate(fs: FileSystem, inodes: seq<Inode>, a: Access, ghost files: seq<File>, ghost clean: bool)
      returns (inodes': seq<Inode>, ghost files': seq<File>)
    requires FilesOk(fs, inodes, files, clean) && AccessFits(Free(fs.St().used), clean, LengthsOf(files), a)
    requires a.Create?
    modifies fs.cache, fs.freeMap.bits
    ensures FilesOk(fs, inodes', files', CleanAfter(clean, a))
    ensures LengthsOf(files') == LengthsAfter(LengthsOf(files), a)
    ensures Free(fs.St().used) == FreeLeft(old(Free(fs.St().used)), clean, LengthsOf(files), a)
    ensures (AllBytes(fs.cache.Now(), files'), []) == PlainStep(AllBytes(old(fs.cache.Now()), files), a)
    ensures forall i :: 0 <= i < |inodes'| ==> inodes'[i] in inodes || fresh(inodes'[i])
  {
    hide StoreInOrder, AllInOrder, Free, Covers, BytesOf, Cost, WriteFits;
    var inode;
    ghost var f;
    inode, f := CreateOne(fs, a.ptrs, a.image, files, clean);
    inodes', files' := inodes + [inode], files + [f];
  }

  method DoClose(fs: FileSystem, inodes: seq<Inode>, a: Access, ghost files: seq<File>, ghost clean: bool)
      returns (inodes': seq<Inode>, ghost files': seq<File>)
    requires FilesOk(fs, inodes, files, clean) && AccessFits(Free(fs.St().used), clean, LengthsOf(files), a)
    requires a.Close?
    modifies fs.freeMap.bits
    ensures FilesOk(fs, inodes', files', CleanAfter(clean, a))
    ensures LengthsOf(files') == LengthsAfter(LengthsOf(files), a)
    ensures Free(fs.St().used) == FreeLeft(old(Free(fs.St().used)), clean, LengthsOf(files), a)
    ensures (AllBytes(fs.cache.Now(), files'), []) == PlainStep(AllBytes(old(fs.cache.Now()), files), a)
    ensures forall i :: 0 <= i < |inodes'| ==> inodes'[i] in inodes
  {
    hide AllInOrder, FreeClean, Unpinned, Free, Covers, BytesOf, Cost, WriteFits, Without, Total;
    assert Matches(inodes[a.file], files[a.file]);
    CloseOne(fs, inodes[a.file], files, a.file);
    inodes', files' := Without(inodes, a.file), Without(files, a.file);
    WithoutAt(inodes, a.file);
    WithoutAt(files, a.file);
    WithoutAt(LengthsOf(files), a.file);
  }

  method DoBehind(fs: FileSystem, inodes: seq<Inode>, a: Access, ghost files: seq<File>, ghost clean: bool)
    requires FilesOk(fs, inodes, files, clean) && AccessFits(Free(fs.St().used), clean, LengthsOf(files), a)
    requires a.WriteBehind?
    modifies fs.cache
    ensures FilesOk(fs, inodes, files, CleanAfter(clean, a))
    ensures LengthsOf(files) == LengthsAfter(LengthsOf(files), a)
    ensures Free(fs.St().used) == FreeLeft(old(Free(fs.St().used)), clean, LengthsOf(files), a)
    ensures (AllBytes(fs.cache.Now(), files), []) == PlainStep(AllBytes(old(fs.cache.Now()), files), a)
  {
    hide Intact, Covers, FileBytes, Leaves, Takes, FreeClean, Free, PlainWrite, Unpinned, Shaped, Cost, Own, Disjoint,
         Untouched, FlushFrom, WriteFits, Spares, Agrees, Logical, Valid, Total, AllShownAs;
    ghost var c, used := fs.cache.Now(), fs.St().used;
    PassCleans(c, used);
    fs.cache.WriteBehindLoop();
    AllUntouched(c, fs.cache.Now());
    LeavesAll(c, fs.cache.Now(), used, files);
  }

  /** One access: the answer and the contents of all files are those of plain arrays. */
  method Do(fs: FileSystem, inodes: seq<Inode>, a: Access, ghost files: seq<File>, ghost clean: bool)
      returns (out: seq<byte>, inodes': seq<Inode>, ghost files': seq<File>)
    requires FilesOk(fs, inodes, files, clean) && AccessFits(Free(fs.St().used), clean, LengthsOf(files), a)
    modifies fs.cache, fs.freeMap.bits, inodes
    ensures FilesOk(fs, inodes', files', CleanAfter(clean, a))
    ensures LengthsOf(files') == LengthsAfter(LengthsOf(files), a)
    ensures Free(fs.St().used) == FreeLeft(old(Free(fs.St().used)), clean, LengthsOf(files), a)
    ensures (AllBytes(fs.cache.Now(), files'), out) == PlainStep(AllBytes(old(fs.cache.Now()), files), a)
    ensures forall i :: 0 <= i < |inodes'| ==> inodes'[i] in inodes || fresh(inodes'[i])
  {
    hide StoreInOrder, AllInOrder, Matches, Free, Covers, FreeLeft, LengthsAfter, PlainStep, WriteFits;
    out, inodes', files' := [], inodes, files;
    match a
    case Read(_, _, _) => out := DoRead(fs, inodes, a, files, clean);
    case Write(_, _, _, _, _) => files' := DoWrite(fs, inodes, a, files, clean);
    case Create(_, _) => inodes', files' := DoCreate(fs, inodes, a, files, clean);
    case Close(_) => inodes', files' := DoClose(fs, inodes, a, files, clean);
    case WriteBehind => DoBehind(fs, inodes, a, files, clean);
  }

  // ---------------------------------------------------------------- every run

  /** After `n` accesses with answers `outs`, the rest of the run from `now` completes the run from `start`. */
  ghost predicate Continues(start: seq<seq<byte>>, run: seq<Access>, now: seq<seq<byte>>, n: nat,
                            outs: seq<seq<byte>>)
  {
    n <= |run| && PlainRun(start, run) == (PlainRun(now, run[n..]).0, outs + PlainRun(now, run[n..]).1)
  }

  lemma ContinuesFrom(start: seq<seq<byte>>, run: seq<Access>)
    ensures Continues(start, run, start, 0, [])
  {
    assert run[0..] == run;
    assert [] + PlainRun(start, run).1 == PlainRun(start, run).1;
  }

  lemma ContinuesStep(start: seq<seq<byte>>, run: seq<Access>, now: seq<seq<byte>>, n: nat, outs: seq<seq<byte>>)
    requires Continues(start, run, now, n, outs) && n < |run| && OnFile(run[n], |now|)
    ensures var (now', out) := PlainStep(now, run[n]);
            Continues(start, run, now', n + 1, outs + [out])
  {
    hide PlainStep;
    var (now', out) := PlainStep(now, run[n]);
    assert run[n..][0] == run[n] && run[n..][1..] == run[n + 1..];
    var rest := PlainRun(now', run[n + 1..]).1;
    assert outs + ([out] + rest) == outs + [out] + rest;
  }

  lemma ContinuesToEnd(start: seq<seq<byte>>, run: seq<Access>, now: seq<seq<byte>>, outs: seq<seq<byte>>)
    requires Continues(start, run, now, |run|, outs)
    ensures (now, outs) == PlainRun(start, run)
  {
    assert run[|run|..] == [];
    assert outs + [] == outs;
  }

  lemma FitsTurn(free: nat, clean: bool, lengths: seq<nat>, run: seq<Access>, n: nat)
    requires n < |run| && Fits(free, clean, lengths, run[n..])
    ensures AccessFits(free, clean, lengths, run[n])
    ensures Fits(FreeLeft(free, clean, lengths, run[n]), CleanAfter(clean, run[n]), LengthsAfter(lengths, run[n]),
                 run[n + 1..])
  {
    hide AccessFits, FreeLeft, LengthsAfter;
    assert run[n..][0] == run[n] && run[n..][1..] == run[n + 1..];
  }

  lemma FilesCovered(fs: FileSystem, inodes: seq<Inode>, files: seq<File>, clean: bool)
    requires FilesOk(fs, inodes, files, clean)
    ensures |files| == |inodes| && fs.Ok()
    ensures forall i :: 0 <= i < |files| ==> Covers(|fs.cache.disk|, files[i].data, files[i].length)
  {
    hide Intact, Covers;
  }

  /** Every run of reads, writes, creations, removals and write-behind passes within the limits of the disk: the answers
      and the final contents are those of one plain byte array per file. */
  method Run(fs: FileSystem, inodes: seq<Inode>, run: seq<Access>, ghost files: seq<File>, ghost clean: bool)
      returns (outs: seq<seq<byte>>, inodes': seq<Inode>, ghost files': seq<File>, ghost clean': bool)
    requires FilesOk(fs, inodes, files, clean) && Fits(Free(fs.St().used), clean, LengthsOf(files), run)
    modifies fs.cache, fs.freeMap.bits, inodes
    ensures FilesOk(fs, inodes', files', clean')
    ensures (AllBytes(fs.cache.Now(), files'), outs) == PlainRun(AllBytes(old(fs.cache.Now()), files), run)
  {
    hide FilesOk, AllInOrder, Free, PlainStep, PlainRun, Fits, AccessFits, FreeLeft, LengthsAfter, Continues, Covers,
         BytesOf;
    outs, inodes', files', clean' := [], inodes, files, clean;
    var n := 0;
    FilesCovered(fs, inodes, files, clean);
    ghost var start := AllBytes(fs.cache.Now(), files);
    ContinuesFrom(start, run);
    assert run[0..] == run;
    while n < |run|
      invariant n <= |run| && FilesOk(fs, inodes', files', clean') && fs.Ok() && |files'| == |inodes'|
      invariant forall i :: 0 <= i < |inodes'| ==> inodes'[i] in inodes || fresh(inodes'[i])
      invariant Fits(Free(fs.St().used), clean', LengthsOf(files'), run[n..])
      invariant forall i :: 0 <= i < |files'| ==> Covers(|fs.cache.disk|, files'[i].data, files'[i].length)
      invariant Continues(start, run, AllBytes(fs.cache.Now(), files'), n, outs)
    {
      FitsTurn(Free(fs.St().used), clean', LengthsOf(files'), run, n);
      AccessOnFile(Free(fs.St().used), clean', LengthsOf(files'), run[n]);
      ContinuesStep(start, run, AllBytes(fs.cache.Now(), files'), n, outs);
      var out;
      out, inodes', files' := Do(fs, inodes', run[n], files', clean');
      clean' := CleanAfter(clean', run[n]);
      FilesCovered(fs, inodes', files', clean');
      outs := outs + [out];
      n := n + 1;
    }
    ContinuesToEnd(start, run, AllBytes(fs.cache.Now(), files'), outs);
  }

  lemma AccessOnFile(free: nat, clean: bool, lengths: seq<nat>, a: Access)
    requires AccessFits(free, clean, lengths, a)
    ensures OnFile(a, |lengths|)
  {
  }
}
