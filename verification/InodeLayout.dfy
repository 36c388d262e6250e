/**
 The indexed inode: four direct pointers, ten single-indirect ones and one double-indirect one.
 This module says what it means for an inode to hold a given list of data sectors.
 */
module InodeLayout {
  import opened Wrappers
  import opened DiskModel

  const NUM_PTRS := 15
  const DIRECT := 4
  const INDIRECT := 10

  /** First file sector reached through the double-indirect pointer. */
  const DOUBLE_START := DIRECT + INDIRECT * PER_BLOCK

  /** File sectors an inode can address. */
  const MAX_SECTORS := DOUBLE_START + PER_BLOCK * PER_BLOCK

  /** Sector numbers are 28 bits wide. */
  const MAX_DISK := 0x1000_0000

  /** The disk and its free map (true: in use). */
  datatype Store = Store(disk: seq<Sector>, used: seq<bool>)

  type Ptrs = p: seq<u32> | |p| == NUM_PTRS witness seq(NUM_PTRS, _ => 0)

  /** The pointers of an inode and the cursor saying where the next sector goes. */
  datatype Node = Node(ptrs: Ptrs, ptrIdx: nat, indirIdx: nat, dblIdx: nat)

  ghost predicate StoreOk(st: Store) {
    |st.disk| == |st.used| <= MAX_DISK
  }

  ghost predicate NodeOk(n: Node) {
    n.ptrIdx <= NUM_PTRS && n.indirIdx < PER_BLOCK && n.dblIdx < PER_BLOCK
  }

  /** Reading a pointer block; `None` where the disk driver asserts the sector number in range. */
  function ReadPtrs(disk: seq<Sector>, s: nat): Option<PtrBlock> {
    if s < |disk| then Some(Unpack(disk[s])) else None
  }

  datatype Found = At(sector: nat) | NoData | Fault

  /** The disk sector of byte `pos`, step for step as the source computes it. */
  function ByteToSector(disk: seq<Sector>, node: Node, length: nat, pos: nat): Found {
    if pos < length then
      if pos < SECTOR_SIZE * DIRECT then At(node.ptrs[pos / SECTOR_SIZE])
      else
        var newPos := pos - SECTOR_SIZE * DIRECT;
        if newPos < SECTOR_SIZE * (INDIRECT * PER_BLOCK) then
          var idx := DIRECT + newPos / SECTOR_SIZE / PER_BLOCK;
          var inner := ReadPtrs(disk, node.ptrs[idx]);
          if inner.None? then Fault
          else At(inner.value[newPos % (SECTOR_SIZE * PER_BLOCK) / SECTOR_SIZE])
        else
          var rest := newPos - SECTOR_SIZE * INDIRECT * PER_BLOCK;
          var idx := DIRECT + INDIRECT + rest / (SECTOR_SIZE * PER_BLOCK * PER_BLOCK);
          if idx != 14 then Fault
          else
            var inner := ReadPtrs(disk, node.ptrs[idx]);
            if inner.None? then Fault
            else
              var rest' := rest - (idx - DIRECT - INDIRECT) * SECTOR_SIZE * PER_BLOCK * PER_BLOCK;
              var dbl := ReadPtrs(disk, inner.value[rest' / SECTOR_SIZE / PER_BLOCK]);
              if dbl.None? then Fault
              else At(dbl.value[rest' % (SECTOR_SIZE * PER_BLOCK) / SECTOR_SIZE])
    else NoData
  }

  /** The sector that holds the pointer to file sector `k`, for `k` past the direct ones. */
  ghost function IndexOf(disk: seq<Sector>, node: Node, k: nat): Option<nat>
    requires DIRECT <= k < MAX_SECTORS
  {
    if k < DOUBLE_START then Some(node.ptrs[DIRECT + (k - DIRECT) / PER_BLOCK])
    else
      var root := ReadPtrs(disk, node.ptrs[14]);
      if root.None? then None else Some(root.value[(k - DOUBLE_START) / PER_BLOCK])
  }

  /** Slot of file sector `k` within its pointer block. */
  function Slot(k: nat): nat
    requires DIRECT <= k < MAX_SECTORS
  {
    if k < DOUBLE_START then (k - DIRECT) % PER_BLOCK else (k - DOUBLE_START) % PER_BLOCK
  }

  /** The disk sector of file sector `k`. */
  ghost function Lookup(disk: seq<Sector>, node: Node, k: nat): Option<nat> {
    if k < DIRECT then Some(node.ptrs[k])
    else if k < MAX_SECTORS then
      var b := IndexOf(disk, node, k);
      if b.None? || b.value >= |disk| then None else Some(Unpack(disk[b.value])[Slot(k)])
    else None
  }

  /** Reducing a position within a block and then to a sector is the same in either order. */
  lemma SlotOfByte(x: nat)
    ensures x % (SECTOR_SIZE * PER_BLOCK) / SECTOR_SIZE == x / SECTOR_SIZE % PER_BLOCK
  {
    var q, r := x / (SECTOR_SIZE * PER_BLOCK), x % (SECTOR_SIZE * PER_BLOCK);
    assert x == SECTOR_SIZE * (PER_BLOCK * q) + r;
    assert x / SECTOR_SIZE == PER_BLOCK * q + r / SECTOR_SIZE;
    assert 0 <= r / SECTOR_SIZE < PER_BLOCK;
  }

  lemma DoubleRootBound(x: nat)
    ensures x / (SECTOR_SIZE * PER_BLOCK * PER_BLOCK) == 0 <==> x / SECTOR_SIZE < PER_BLOCK * PER_BLOCK
  {
  }

  /** The byte-wise walk and the sector-wise lookup agree on every position. */
  lemma ByteToSectorIsLookup(disk: seq<Sector>, node: Node, length: nat, pos: nat)
    ensures ByteToSector(disk, node, length, pos) ==
            if pos >= length then NoData
            else if Lookup(disk, node, pos / SECTOR_SIZE).Some?
            then At(Lookup(disk, node, pos / SECTOR_SIZE).value) else Fault
  {
    if pos < length && pos >= SECTOR_SIZE * DIRECT {
      var k := pos / SECTOR_SIZE;
      var newPos := pos - SECTOR_SIZE * DIRECT;
      assert newPos / SECTOR_SIZE == k - DIRECT;
      if newPos < SECTOR_SIZE * (INDIRECT * PER_BLOCK) {
        SlotOfByte(newPos);
        assert k < DOUBLE_START;
      } else {
        var rest := newPos - SECTOR_SIZE * INDIRECT * PER_BLOCK;
        assert rest / SECTOR_SIZE == k - DOUBLE_START;
        SlotOfByte(rest);
        DoubleRootBound(rest);
      }
    }
  }

  // ---------------------------------------------------------------- pointer blocks of a file

  /** Single-indirect pointer blocks of a file of `n` sectors. */
  function Blocks1(n: nat): nat {
    if n <= DIRECT then 0
    else if n >= DOUBLE_START then INDIRECT
    else (n - DIRECT + PER_BLOCK - 1) / PER_BLOCK
  }

  /** Second-level pointer blocks of a file of `n` sectors. */
  function Blocks2(n: nat): nat {
    if n <= DOUBLE_START then 0 else (n - DOUBLE_START + PER_BLOCK - 1) / PER_BLOCK
  }

  /** Pointer blocks of a file of `n` sectors, the root of the double-indirect tree included. */
  function IndexCount(n: nat): nat {
    Blocks1(n) + if n > DOUBLE_START then 1 + Blocks2(n) else 0
  }

  lemma IndexCountBound(n: nat)
    requires n <= MAX_SECTORS
    ensures IndexCount(n) <= INDIRECT + 1 + PER_BLOCK && Blocks2(n) <= PER_BLOCK && Blocks1(n) <= INDIRECT
    ensures n > DOUBLE_START ==> IndexCount(n) == INDIRECT + 1 + Blocks2(n)
  {
  }

  /** Where the cursor stands after `n` sectors. */
  ghost predicate Cursor(node: Node, n: nat) {
    if n < DIRECT then node.ptrIdx == n && node.indirIdx == 0 && node.dblIdx == 0
    else if n < DOUBLE_START then
      node.ptrIdx == DIRECT + (n - DIRECT) / PER_BLOCK && node.indirIdx == (n - DIRECT) % PER_BLOCK && node.dblIdx == 0
    else if n < MAX_SECTORS then
      node.ptrIdx == 14 && node.indirIdx == (n - DOUBLE_START) / PER_BLOCK
      && node.dblIdx == (n - DOUBLE_START) % PER_BLOCK
    else node.ptrIdx == NUM_PTRS && node.indirIdx == 0 && node.dblIdx == 0
  }

  /** Every sector is on the disk and marked in use. */
  ghost predicate AllUsed(st: Store, s: seq<nat>) {
    forall i :: 0 <= i < |s| ==> s[i] < |st.used| && st.used[s[i]]
  }

  ghost predicate Disjoint(s: seq<nat>, t: seq<nat>) {
    forall i, j :: 0 <= i < |s| && 0 <= j < |t| ==> s[i] != t[j]
  }

  /** `node` holds the file whose data sectors are `data`, in order, with pointer blocks `index`:
      every lookup finds its sector, and all these sectors are in use and different. */
  ghost predicate Holds(st: Store, node: Node, data: seq<nat>, index: seq<nat>) {
    && StoreOk(st) && |data| <= MAX_SECTORS && |index| == IndexCount(|data|)
    && Cursor(node, |data|)
    && AllUsed(st, data) && AllUsed(st, index)
    && Distinct(data) && Distinct(index) && Disjoint(data, index)
    && PointsTo(st.disk, node, data, index)
  }

  /** Position of file sector `k`'s pointer block in the order in which a growing file needs them:
      the ten single-indirect blocks, the root of the double-indirect tree, its second level. */
  function BlockNo(k: nat): nat
    requires DIRECT <= k < MAX_SECTORS
  {
    if k < DOUBLE_START then (k - DIRECT) / PER_BLOCK else INDIRECT + 1 + (k - DOUBLE_START) / PER_BLOCK
  }

  lemma BlockNoBound(k: nat, n: nat)
    requires DIRECT <= k < n <= MAX_SECTORS
    ensures BlockNo(k) < IndexCount(n) && BlockNo(k) != INDIRECT
  {
  }

  /** Slot `slot` of the pointer block stored in sector `b`. */
  ghost predicate PtrIn(disk: seq<Sector>, b: nat, slot: nat, target: nat)
    requires slot < PER_BLOCK
  {
    b < |disk| && Unpack(disk[b])[slot] == target
  }

  /** The `j`-th pointer block is sector `index[j]`. */
  ghost predicate IndexPtrs(disk: seq<Sector>, node: Node, index: seq<nat>)
    requires |index| <= INDIRECT + 1 + PER_BLOCK
  {
    forall j :: 0 <= j < |index| ==>
      if j < INDIRECT then node.ptrs[DIRECT + j] == index[j]
      else if j == INDIRECT then node.ptrs[14] == index[j]
      else PtrIn(disk, index[INDIRECT], j - INDIRECT - 1, index[j])
  }

  /** File sector `k` is `data[k]`, reached directly or through its pointer block. */
  ghost predicate DataPtrs(disk: seq<Sector>, node: Node, data: seq<nat>, index: seq<nat>)
    requires |data| <= MAX_SECTORS && |index| == IndexCount(|data|)
  {
    && (forall k :: 0 <= k < |data| && k < DIRECT ==> node.ptrs[k] == data[k])
    && (forall k :: DIRECT <= k < |data| ==>
          (BlockNoBound(k, |data|); PtrIn(disk, index[BlockNo(k)], Slot(k), data[k])))
  }

  ghost predicate PointsTo(disk: seq<Sector>, node: Node, data: seq<nat>, index: seq<nat>)
    requires |data| <= MAX_SECTORS && |index| == IndexCount(|data|)
  {
    IndexCountBound(|data|);
    IndexPtrs(disk, node, index) && DataPtrs(disk, node, data, index)
  }

  /** On a file that holds `data`, looking up file sector `k` finds `data[k]`. */
  lemma LookupFinds(st: Store, node: Node, data: seq<nat>, index: seq<nat>, k: nat)
    requires Holds(st, node, data, index) && k < |data|
    ensures Lookup(st.disk, node, k) == Some(data[k])
  {
    if k >= DIRECT {
      BlockNoBound(k, |data|);
      IndexCountBound(|data|);
    }
  }

  /** Every byte of the file is found in the sector that was allocated for it, in order. */
  lemma ByteToSectorFinds(st: Store, node: Node, data: seq<nat>, index: seq<nat>, length: nat, pos: nat)
    requires Holds(st, node, data, index)
    requires |data| == (length + SECTOR_SIZE - 1) / SECTOR_SIZE
    ensures ByteToSector(st.disk, node, length, pos) ==
            if pos < length then At(data[pos / SECTOR_SIZE]) else NoData
  {
    ByteToSectorIsLookup(st.disk, node, length, pos);
    if pos < length { LookupFinds(st, node, data, index, pos / SECTOR_SIZE); }
  }
}
