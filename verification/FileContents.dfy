/**
 The bytes of a file as users of the buffer cache see them, and what cache operations and growth do to them.
 Nothing is asked of cached sectors that belong to no file: released sectors stay in the cache.
 */
module FileContents {
  import opened DiskModel
  import opened CacheModel
  import opened InodeLayout
  import opened InodeGrowLaws
  import opened InodeSteps
  import opened FileSystemModel

  // ---------------------------------------------------------------- the bytes of a file

  /** The data sectors are on the disk and enough for `length` bytes. */
  ghost predicate Covers(sectors: nat, data: seq<nat>, length: nat) {
    BytesToSectors(length) <= |data| && forall i :: 0 <= i < |data| ==> data[i] < sectors
  }

  lemma SectorOfByte(length: nat, p: nat)
    requires p < length
    ensures p / SECTOR_SIZE < BytesToSectors(length)
  {
  }

  ghost function ByteAt(c: State, data: seq<nat>, length: nat, p: nat): byte
    requires Covers(|c.disk|, data, length) && p < length
  {
    SectorOfByte(length, p);
    Logical(c, data[p / SECTOR_SIZE])[p % SECTOR_SIZE]
  }

  /** The contents of a file of `length` bytes whose data sectors are `data`. */
  ghost function FileBytes(c: State, data: seq<nat>, length: nat): (r: seq<byte>)
    requires Covers(|c.disk|, data, length)
    ensures |r| == length
    ensures forall p :: 0 <= p < length ==> r[p] == ByteAt(c, data, length, p)
  {
    seq(length, p requires 0 <= p < length => ByteAt(c, data, length, p))
  }

  /** Bytes of one sector are bytes of the file. */
  lemma ChunkIs(c: State, data: seq<nat>, length: nat, pos: nat, n: nat)
    requires Covers(|c.disk|, data, length) && pos + n <= length && pos % SECTOR_SIZE + n <= SECTOR_SIZE && n > 0
    ensures pos / SECTOR_SIZE < |data|
    ensures Logical(c, data[pos / SECTOR_SIZE])[pos % SECTOR_SIZE..pos % SECTOR_SIZE + n]
            == FileBytes(c, data, length)[pos..pos + n]
  {
    hide Logical;
    SectorOfByte(length, pos);
    var s, o := pos / SECTOR_SIZE, pos % SECTOR_SIZE;
    var chunk, part := Logical(c, data[s])[o..o + n], FileBytes(c, data, length)[pos..pos + n];
    forall k | 0 <= k < n
      ensures chunk[k] == part[k]
    {
      SameSector(pos, k);
      assert part[k] == ByteAt(c, data, length, pos + k);
    }
  }

  lemma SameSector(pos: nat, k: nat)
    requires pos % SECTOR_SIZE + k < SECTOR_SIZE
    ensures (pos + k) / SECTOR_SIZE == pos / SECTOR_SIZE && (pos + k) % SECTOR_SIZE == pos % SECTOR_SIZE + k
  {
  }

  /** Two states that show the same in a file's sectors show the same file. */
  lemma SameFile(c: State, t: State, data: seq<nat>, length: nat)
    requires |t.disk| == |c.disk| && Covers(|c.disk|, data, length)
    requires forall i :: 0 <= i < |data| ==> Logical(t, data[i]) == Logical(c, data[i])
    ensures FileBytes(t, data, length) == FileBytes(c, data, length)
  {
    hide Logical;
    forall p | 0 <= p < length
      ensures ByteAt(t, data, length, p) == ByteAt(c, data, length, p)
    {
      SectorOfByte(length, p);
    }
  }

  /** `b` is what the byte at `p` shows in `c` or, if the copy of its sector differs from the disk, what the disk
      holds. */
  ghost predicate ShownAs(c: State, data: seq<nat>, length: nat, p: nat, b: byte)
    requires Covers(|c.disk|, data, length) && p < length
  {
    SectorOfByte(length, p);
    var k := data[p / SECTOR_SIZE];
    b == ByteAt(c, data, length, p) || (!Agrees(c, k) && b == c.disk[k][p % SECTOR_SIZE])
  }

  /** The byte at `p` shows in `t` what it showed in `c`, in that sense. */
  ghost predicate Shown(c: State, t: State, data: seq<nat>, length: nat, p: nat)
    requires |t.disk| == |c.disk| && Covers(|c.disk|, data, length) && p < length
  {
    ShownAs(c, data, length, p, ByteAt(t, data, length, p))
  }

  lemma SparesShown(c: State, t: State, data: seq<nat>, length: nat, p: nat)
    requires Shaped(c) && |t.disk| == |c.disk| && Covers(|c.disk|, data, length) && p < length
    requires p / SECTOR_SIZE < |data| ==> Spares(c, t, data[p / SECTOR_SIZE])
    ensures Shown(c, t, data, length, p)
  {
    hide Agrees, Logical, Clean, Shaped;
    SectorOfByte(length, p);
    AgreesOrClean(c, data[p / SECTOR_SIZE]);
  }

  // ---------------------------------------------------------------- a file beside the cache

  /** Every data sector agrees with its copy, except those at the positions in `stale`. */
  ghost predicate AllAgree(c: State, data: seq<nat>, stale: set<nat>) {
    forall i :: 0 <= i < |data| && i !in stale ==> data[i] < |c.disk| && Agrees(c, data[i])
  }

  /** No copy of these sectors waits to be written back. */
  ghost predicate AllClean(c: State, index: seq<nat>) {
    forall i :: 0 <= i < |index| ==> Clean(c, index[i])
  }

  /** The pointers lead to `data` over `index`, the data sectors agree with their copies, and nothing waits to be
      written over a pointer block. */
  ghost predicate Intact(c: State, used: seq<bool>, node: Node, data: seq<nat>, index: seq<nat>, stale: set<nat>) {
    && Shaped(c) && |c.disk| == |used|
    && Holds(Store(c.disk, used), node, data, index)
    && AllAgree(c, data, stale) && AllClean(c, index)
  }

  /** A file does not depend on disk sectors other than its pointer blocks. */
  lemma HoldsSameIndex(st: Store, st': Store, node: Node, data: seq<nat>, index: seq<nat>)
    requires Holds(st, node, data, index) && st'.used == st.used && |st'.disk| == |st.disk|
    requires forall j :: 0 <= j < |index| ==> index[j] < |st.disk| && st'.disk[index[j]] == st.disk[index[j]]
    ensures Holds(st', node, data, index)
  {
    hide Unpack;
    IndexCountBound(|data|);
    forall k | DIRECT <= k < |data|
      ensures BlockNo(k) < |index| && PtrIn(st'.disk, index[BlockNo(k)], Slot(k), data[k])
    {
      BlockNoBound(k, |data|);
      assert PtrIn(st.disk, index[BlockNo(k)], Slot(k), data[k]);
    }
  }

  /** It depends on the free map only at its own sectors. */
  lemma HoldsSameUsed(st: Store, used': seq<bool>, node: Node, data: seq<nat>, index: seq<nat>)
    requires Holds(st, node, data, index) && |used'| == |st.used|
    requires AllUsed(st.(used := used'), data) && AllUsed(st.(used := used'), index)
    ensures Holds(st.(used := used'), node, data, index)
  {
  }

  /** Nothing happens to the sectors of `s`. */
  ghost predicate SparesAll(c: State, t: State, s: seq<nat>) {
    |t.disk| == |c.disk| && forall i :: 0 <= i < |s| && s[i] < |c.disk| ==> Spares(c, t, s[i])
  }

  lemma CleanStays(c: State, t: State, index: seq<nat>, i: nat)
    requires SparesAll(c, t, index) && AllClean(c, index) && i < |index| && index[i] < |c.disk|
    ensures Clean(t, index[i]) && t.disk[index[i]] == c.disk[index[i]]
  {
  }

  lemma AgreesStays(c: State, t: State, k: nat)
    requires k < |c.disk| == |t.disk| && Spares(c, t, k) && Agrees(c, k)
    ensures Agrees(t, k) && Logical(t, k) == Logical(c, k)
  {
  }

  /** A file to whose sectors nothing happens stays as it is. */
  lemma FileSpared(c: State, t: State, used: seq<bool>, node: Node, data: seq<nat>, index: seq<nat>, stale: set<nat>)
    requires Intact(c, used, node, data, index, stale) && Shaped(t)
    requires SparesAll(c, t, data) && SparesAll(c, t, index)
    ensures Intact(t, used, node, data, index, stale)
    ensures forall i :: 0 <= i < |data| && i !in stale ==> Logical(t, data[i]) == Logical(c, data[i])
  {
    hide Holds, Shaped, Spares, Agrees, Logical, Clean;
    var st := Store(c.disk, used);
    HoldsParts(st, node, data, index);
    forall i | 0 <= i < |index|
      ensures index[i] < |c.disk| && Clean(t, index[i]) && t.disk[index[i]] == c.disk[index[i]]
    {
      assert index[i] < |st.used|;
      CleanStays(c, t, index, i);
    }
    HoldsSameIndex(st, Store(t.disk, used), node, data, index);
    forall i | 0 <= i < |data| && i !in stale
      ensures Agrees(t, data[i]) && Logical(t, data[i]) == Logical(c, data[i])
    {
      AgreesStays(c, t, data[i]);
    }
  }

  /** A cache write to one of its data sectors: that sector now agrees with its copy too. */
  lemma FileStored(c: State, t: State, used: seq<bool>, node: Node, data: seq<nat>, index: seq<nat>, stale: set<nat>,
                   i: nat, bytes: Sector)
    requires Intact(c, used, node, data, index, stale) && i < |data| && Stores(c, t, data[i], bytes)
    ensures Intact(t, used, node, data, index, stale - {i})
    ensures forall j :: 0 <= j < |data| && j != i && j !in stale ==> Logical(t, data[j]) == Logical(c, data[j])
  {
    hide Holds, Shaped, Spares, Agrees, Logical, Clean;
    var st := Store(c.disk, used);
    HoldsParts(st, node, data, index);
    assert SparesAll(c, t, index) by { assert forall j :: 0 <= j < |index| ==> index[j] != data[i]; }
    forall j | 0 <= j < |index|
      ensures index[j] < |c.disk| && Clean(t, index[j]) && t.disk[index[j]] == c.disk[index[j]]
    {
      assert index[j] < |st.used|;
      CleanStays(c, t, index, j);
    }
    HoldsSameIndex(st, Store(t.disk, used), node, data, index);
    forall j | 0 <= j < |data| && j != i && j !in stale
      ensures Agrees(t, data[j]) && Logical(t, data[j]) == Logical(c, data[j])
    {
      assert data[j] != data[i];
      AgreesStays(c, t, data[j]);
    }
  }

  // ---------------------------------------------------------------- other files

  /** Sectors outside `own` are in use or free as before, and nothing happens to them. */
  ghost predicate Leaves(c: State, used: seq<bool>, c': State, used': seq<bool>, own: seq<nat>) {
    && |c'.disk| == |c.disk| == |used| == |used'|
    && forall k :: 0 <= k < |c.disk| && k !in own ==> used'[k] == used[k] && Spares(c, c', k)
  }

  lemma LeavesTrans(c: State, used: seq<bool>, c1: State, used1: seq<bool>, c2: State, used2: seq<bool>, own: seq<nat>)
    requires Leaves(c, used, c1, used1, own) && Leaves(c1, used1, c2, used2, own)
    ensures Leaves(c, used, c2, used2, own)
  {
    hide Spares;
    forall k | 0 <= k < |c.disk| && k !in own
      ensures Spares(c, c2, k)
    {
      SparesTrans(c, c1, c2, k);
    }
  }

  /** What leaves the sectors of another file alone leaves that file and its bytes alone. */
  lemma OtherFile(c: State, used: seq<bool>, c': State, used': seq<bool>, own: seq<nat>,
                  node: Node, data: seq<nat>, index: seq<nat>, length: nat, stale: set<nat>)
    requires Leaves(c, used, c', used', own) && Shaped(c') && Intact(c, used, node, data, index, stale)
    requires Disjoint(data, own) && Disjoint(index, own) && |data| == BytesToSectors(length)
    ensures Intact(c', used', node, data, index, stale)
    ensures Covers(|c.disk|, data, length) && forall p :: 0 <= p < length ==> Shown(c, c', data, length, p)
    ensures stale == {} ==> FileBytes(c', data, length) == FileBytes(c, data, length)
  {
    hide Holds, Shaped, Spares, Agrees, Logical, Clean, FileBytes, Shown;
    HoldsParts(Store(c.disk, used), node, data, index);
    assert forall i :: 0 <= i < |data| ==> data[i] !in own;
    assert forall i :: 0 <= i < |index| ==> index[i] !in own;
    FileSpared(c, c', used, node, data, index, stale);
    HoldsSameUsed(Store(c'.disk, used), used', node, data, index);
    forall p | 0 <= p < length ensures Shown(c, c', data, length, p) { SparesShown(c, c', data, length, p); }
    if stale == {} { SameFile(c, c', data, length); }
  }

  // ---------------------------------------------------------------- growing beside the cache

  /** Positions from `known` on whose sectors have clean copies in the cache: such a copy differs from the zeros that
      the growth puts on the disk, unless it holds zeros itself. */
  ghost function NewStale(c: State, data: seq<nat>, known: nat): set<nat> {
    set i | known <= i < |data| && Cached(c, data[i]) && Clean(c, data[i])
  }

  /** A sector that keeps its place on the disk, while the copies stay, is left alone. */
  lemma DiskSpares(c: State, t: State, k: nat)
    requires t.entries == c.entries && k < |c.disk| == |t.disk| && t.disk[k] == c.disk[k]
    ensures Spares(c, t, k) && Logical(t, k) == Logical(c, k)
  {
  }

  /** A new data sector shows zeros if it is not in the cache, and otherwise what the cache holds. */
  lemma NewSector(c: State, t: State, k: nat)
    requires Shaped(c) && t.entries == c.entries && k < |c.disk| == |t.disk| && t.disk[k] == ZeroSector()
    ensures Logical(t, k) == if Cached(c, k) then Logical(c, k) else ZeroSector()
    ensures !(Cached(c, k) && Clean(c, k)) ==> Agrees(t, k)
  {
    assert FindFrom(c.entries, k, 0).Some? <==> Cached(c, k);
  }

  lemma KeptAt(st: Store, st': Store, index: seq<nat>, more: seq<nat>, moreIndex: seq<nat>, k: nat)
    requires Kept(st, st', index) && Marks(st.used, st'.used, more + moreIndex)
    requires k < |st.disk| && k !in index && (st.used[k] || (k !in more && k !in moreIndex))
    ensures st'.disk[k] == st.disk[k] && (st.used[k] ==> st'.used[k])
    ensures k !in more && k !in moreIndex ==> st'.used[k] == st.used[k]
  {
    assert k in more + moreIndex <==> k in more || k in moreIndex;
  }

  /** The file's own old data: growth leaves it alone. */
  lemma OldDataSpared(c: State, st: Store, st': Store, node': Node, data: seq<nat>, index: seq<nat>,
                      more: seq<nat>, moreIndex: seq<nat>, i: nat)
    requires c.disk == st.disk && AllUsed(st, data) && Disjoint(data, index) && i < |data|
    requires Extends(st, st', node', data, index, more, moreIndex)
    ensures var t := State(st'.disk, c.entries);
            && |t.disk| == |c.disk| && data[i] < |c.disk| && t.disk[data[i]] == c.disk[data[i]]
            && Spares(c, t, data[i]) && Logical(t, data[i]) == Logical(c, data[i])
  {
    hide Holds, Marks, Spares, Logical;
    KeptAt(st, st', index, more, moreIndex, data[i]);
    DiskSpares(c, State(st'.disk, c.entries), data[i]);
  }

  lemma CleanConcat(c: State, t: State, s: seq<nat>, u: seq<nat>)
    requires t.entries == c.entries && AllClean(c, s) && AllClean(c, u)
    ensures AllClean(t, s + u)
  {
    forall i | 0 <= i < |s + u|
      ensures Clean(t, (s + u)[i])
    {
      assert (s + u)[i] == if i < |s| then s[i] else u[i - |s|];
    }
  }

  /** From `c` to `t` a file grows from `data` to `data'`: past the cache, old sectors stay and new ones are zeroed. */
  ghost predicate Grown(c: State, t: State, data: seq<nat>, data': seq<nat>) {
    && t.entries == c.entries && |t.disk| == |c.disk| && data <= data'
    && forall i :: 0 <= i < |data'| ==>
         data'[i] < |c.disk| && t.disk[data'[i]] == if i < |data| then c.disk[data'[i]] else ZeroSector()
  }

  /** Growing a file beside the cache, if nothing waits to be written over a pointer block: the file is intact, except
      for new data sectors with clean copies. */
  lemma GrowBesideCache(c: State, st: Store, st': Store, node': Node, data: seq<nat>, index: seq<nat>,
                        more: seq<nat>, moreIndex: seq<nat>, stale: set<nat>)
    requires Shaped(c) && c.disk == st.disk && StoreOk(st) && AllAgree(c, data, stale) && AllClean(c, index)
    requires AllUsed(st, data) && AllUsed(st, index) && Disjoint(data, index) && AllClean(c, moreIndex)
    requires Extends(st, st', node', data, index, more, moreIndex)
    ensures var t := State(st'.disk, c.entries);
            && Intact(t, st'.used, node', data + more, index + moreIndex, stale + NewStale(c, data + more, |data|))
            && Grown(c, t, data, data + more)
  {
    hide Holds, Marks, Spares, Logical, Agrees, Clean, Cached, Shaped;
    var t := State(st'.disk, c.entries);
    GrownShaped(c, t);
    CleanConcat(c, t, index, moreIndex);
    var all := data + more;
    forall i | 0 <= i < |data|
      ensures data[i] < |t.disk| && t.disk[data[i]] == c.disk[data[i]] && (i !in stale ==> Agrees(t, data[i]))
    {
      OldDataSpared(c, st, st', node', data, index, more, moreIndex, i);
      if i !in stale { AgreesStays(c, t, data[i]); }
    }
    forall i | 0 <= i < |more|
      ensures more[i] < |t.disk| && t.disk[more[i]] == ZeroSector()
      ensures !(Cached(c, more[i]) && Clean(c, more[i])) ==> Agrees(t, more[i])
    {
      NewSector(c, t, more[i]);
    }
    forall i | 0 <= i < |all|
      ensures all[i] < |t.disk| && t.disk[all[i]] == if i < |data| then c.disk[all[i]] else ZeroSector()
      ensures i !in stale + NewStale(c, all, |data|) ==> Agrees(t, all[i])
    {
      assert all[i] == if i < |data| then data[i] else more[i - |data|];
    }
  }

  lemma GrownShaped(c: State, t: State)
    requires Shaped(c) && t.entries == c.entries && |t.disk| == |c.disk|
    ensures Shaped(t)
  {
  }

  lemma GrowLeaves(c: State, st: Store, st': Store, node': Node, data: seq<nat>, index: seq<nat>,
                   more: seq<nat>, moreIndex: seq<nat>)
    requires c.disk == st.disk && StoreOk(st) && Extends(st, st', node', data, index, more, moreIndex)
    ensures Leaves(c, st.used, State(st'.disk, c.entries), st'.used, data + more + (index + moreIndex))
  {
    hide Holds, Marks, Spares;
    var own := data + more + (index + moreIndex);
    forall k | 0 <= k < |c.disk| && k !in own
      ensures st'.used[k] == st.used[k] && Spares(c, State(st'.disk, c.entries), k)
    {
      assert k !in data + more && k !in index + moreIndex;
      KeptAt(st, st', index, more, moreIndex, k);
      DiskSpares(c, State(st'.disk, c.entries), k);
    }
  }
}
