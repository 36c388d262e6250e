/** Closing a removed file, in the source's form, against `InodeRelease`. */
module FileClose {
  import opened Wrappers
  import opened DiskModel
  import opened BoolSeq
  import opened BitmapModel
  import opened FreeMapModel
  import opened InodeLayout
  import opened InodeRelease
  import opened FileSystemModel

  /** `free_map_release (s, 1)`; `ok` is whether its assertion that the sector is in use holds. */
  method ReleaseSector(fs: FileSystem, s: nat) returns (ok: bool)
    requires fs.Ok()
    modifies fs.freeMap.bits
    ensures fs.Ok() && ok == (s < |old(fs.St()).used| && old(fs.St()).used[s])
    ensures fs.St() == if ok then old(fs.St()).(used := old(fs.St()).used[s := false]) else old(fs.St())
  {
    if s >= fs.freeMap.bitCnt { return false; }
    var free := fs.freeMap.Contains(s, 1, false);
    if free { return false; }
    ghost var used := fs.freeMap.Contents();
    Release(fs.freeMap, s, 1);
    assert SetRange(used, s, 1, false) == used[s := false];
    return true;
  }

  /** The sectors named by a pointer block, until `left` of them are released. */
  method ReleaseSlots(fs: FileSystem, block: PtrBlock, left: nat) returns (ok: bool, left': nat)
    requires fs.Ok() && left > 0
    modifies fs.freeMap.bits
    ensures fs.Ok() && fs.cache.disk == old(fs.cache.disk)
    ensures var c := if left < PER_BLOCK then left else PER_BLOCK;
            var r := ReleaseAll(old(fs.St()).used, block[..c]);
            left' <= left && (ok <==> r.Some?) && (ok ==> r == Some(fs.St().used) && left' == left - c)
  {
    hide Unpacked;
    ghost var c := if left < PER_BLOCK then left else PER_BLOCK;
    ghost var goal := ReleaseAll(fs.St().used, block[..c]);
    left' := left;
    var i := 0;
    while i < PER_BLOCK
      invariant fs.Ok() && i <= c && left' == left - i && left' > 0
      invariant ReleaseAll(fs.St().used, block[i..c]) == goal
    {
      assert block[i..c][1..] == block[i + 1..c];
      ok := ReleaseSector(fs, block[i]);
      if !ok { return; }
      left' := left' - 1;
      i := i + 1;
      if left' == 0 { break; }
    }
    assert block[i..c] == [];
    ok := true;
  }

  /** The double-indirect part: every second-level block's sectors, then the block itself. */
  method ReleaseDouble(fs: FileSystem, inner: PtrBlock, left: nat) returns (ok: bool, left': nat)
    requires fs.Ok() && left > 0
    modifies fs.freeMap.bits
    ensures fs.Ok() && fs.cache.disk == old(fs.cache.disk) && left' <= left
    ensures var d := DoubleOrder(fs.cache.disk, inner, 0, left);
            var r := if d.None? then None else ReleaseAll(old(fs.St()).used, d.value.0);
            (ok <==> r.Some?) && (ok ==> r == Some(fs.St().used) && left' == d.value.1)
  {
    hide Unpacked, Unpack, DoubleOrder, ReleaseAll;
    ghost var disk := fs.cache.disk;
    ghost var goal := DoubleFrom(fs.St().used, disk, inner, 0, left);
    left' := left;
    var i := 0;
    DoubleFromIs(fs.St().used, disk, inner, 0, left);
    while i < PER_BLOCK
      invariant fs.Ok() && i <= PER_BLOCK && 0 < left' <= left && fs.cache.disk == disk
      invariant DoubleFrom(fs.St().used, disk, inner, i, left') == goal
    {
      DoubleFromTurn(fs.St().used, disk, inner, i, left');
      if inner[i] >= |fs.cache.disk| { return false, left'; }
      ok, left' := ReleaseSlots(fs, Unpack(fs.cache.disk[inner[i]]), left');
      if !ok { return; }
      ok := ReleaseSector(fs, inner[i]);
      if !ok { return; }
      i := i + 1;
      if left' == 0 { break; }
    }
    DoubleFromEnd(fs.St().used, disk, inner, i, left');
    ok := true;
  }

  /** What releasing the second level from block `i` on leaves: the free map and the count still due. */
  ghost function DoubleFrom(used: seq<bool>, disk: seq<Sector>, inner: PtrBlock, i: nat, left: nat)
      : Option<(seq<bool>, nat)>
    requires i <= PER_BLOCK
  {
    var d := DoubleOrder(disk, inner, i, left);
    if d.None? then None
    else
      var r := ReleaseAll(used, d.value.0);
      if r.None? then None else Some((r.value, d.value.1))
  }

  lemma DoubleFromIs(used: seq<bool>, disk: seq<Sector>, inner: PtrBlock, i: nat, left: nat)
    requires i <= PER_BLOCK
    ensures var d := DoubleOrder(disk, inner, i, left);
            DoubleFrom(used, disk, inner, i, left) ==
            if d.None? || ReleaseAll(used, d.value.0).None? then None
            else Some((ReleaseAll(used, d.value.0).value, d.value.1))
  {
  }

  lemma DoubleFromEnd(used: seq<bool>, disk: seq<Sector>, inner: PtrBlock, i: nat, left: nat)
    requires i <= PER_BLOCK && (i == PER_BLOCK || left == 0)
    ensures DoubleFrom(used, disk, inner, i, left) == Some((used, left))
  {
  }

  /** Releasing a block's sectors and then the block, ahead of the rest. */
  lemma ReleaseBlockFirst(used: seq<bool>, chunk: seq<nat>, b: nat, rest: seq<nat>)
    ensures var r := ReleaseAll(used, chunk);
            ReleaseAll(used, chunk + [b] + rest) ==
            if r.None? || b >= |r.value| || !r.value[b] then None else ReleaseAll(r.value[b := false], rest)
  {
    assert chunk + [b] + rest == chunk + ([b] + rest);
    ReleaseAllConcat(used, chunk, [b] + rest);
    assert ([b] + rest)[1..] == rest;
  }

  lemma DoubleFromTurn(used: seq<bool>, disk: seq<Sector>, inner: PtrBlock, i: nat, left: nat)
    requires i < PER_BLOCK && left > 0
    ensures inner[i] >= |disk| ==> DoubleFrom(used, disk, inner, i, left).None?
    ensures inner[i] < |disk| ==>
              var c := if left < PER_BLOCK then left else PER_BLOCK;
              var r := ReleaseAll(used, Unpack(disk[inner[i]])[..c]);
              DoubleFrom(used, disk, inner, i, left) ==
              if r.None? || inner[i] >= |r.value| || !r.value[inner[i]] then None
              else DoubleFrom(r.value[inner[i] := false], disk, inner, i + 1, left - c)
  {
    hide Unpack, ReleaseAll;
    if inner[i] < |disk| {
      var c := if left < PER_BLOCK then left else PER_BLOCK;
      var rest := DoubleOrder(disk, inner, i + 1, left - c);
      if rest.Some? {
        ReleaseBlockFirst(used, Unpack(disk[inner[i]])[..c], inner[i], rest.value.0);
      }
    }
  }

  lemma ReleaseFromEnd(used: seq<bool>, disk: seq<Sector>, node: Node, idx: nat, left: nat)
    requires idx <= NUM_PTRS && (idx == NUM_PTRS || left == 0 || idx > node.ptrIdx)
    ensures ReleaseFrom(used, disk, node, idx, left) == Some(used)
  {
  }

  lemma ReleaseFromDirect(used: seq<bool>, disk: seq<Sector>, node: Node, idx: nat, left: nat)
    requires idx < DIRECT && idx <= node.ptrIdx && left > 0
    ensures var p := node.ptrs[idx];
            ReleaseFrom(used, disk, node, idx, left) ==
            if p >= |used| || !used[p] then None else ReleaseFrom(used[p := false], disk, node, idx + 1, left - 1)
  {
    var rest := Order(disk, node, idx + 1, left - 1);
    if rest.Some? { assert ([node.ptrs[idx]] + rest.value)[1..] == rest.value; }
  }

  lemma ReleaseFromIndirect(used: seq<bool>, disk: seq<Sector>, node: Node, idx: nat, left: nat)
    requires DIRECT <= idx < DIRECT + INDIRECT && idx <= node.ptrIdx && left > 0
    ensures node.ptrs[idx] >= |disk| ==> ReleaseFrom(used, disk, node, idx, left).None?
    ensures node.ptrs[idx] < |disk| ==>
              var c := if left < PER_BLOCK then left else PER_BLOCK;
              var p := node.ptrs[idx];
              var r := ReleaseAll(used, Unpack(disk[p])[..c]);
              ReleaseFrom(used, disk, node, idx, left) ==
              if r.None? || p >= |r.value| || !r.value[p] then None
              else ReleaseFrom(r.value[p := false], disk, node, idx + 1, left - c)
  {
    hide Unpack, ReleaseAll;
    if node.ptrs[idx] < |disk| {
      var c := if left < PER_BLOCK then left else PER_BLOCK;
      var rest := Order(disk, node, idx + 1, left - c);
      if rest.Some? {
        ReleaseBlockFirst(used, Unpack(disk[node.ptrs[idx]])[..c], node.ptrs[idx], rest.value);
      }
    }
  }

  lemma ReleaseFromDouble(used: seq<bool>, disk: seq<Sector>, node: Node, left: nat)
    requires 14 <= node.ptrIdx && left > 0
    ensures node.ptrs[14] >= |disk| ==> ReleaseFrom(used, disk, node, 14, left).None?
    ensures node.ptrs[14] < |disk| ==>
              var p := node.ptrs[14];
              var d := DoubleOrder(disk, Unpack(disk[p]), 0, left);
              var r := if d.None? then None else ReleaseAll(used, d.value.0);
              ReleaseFrom(used, disk, node, 14, left) ==
              if r.None? || p >= |r.value| || !r.value[p] then None else Some(r.value[p := false])
  {
    hide Unpack, ReleaseAll, DoubleOrder;
    if node.ptrs[14] < |disk| {
      var d := DoubleOrder(disk, Unpack(disk[node.ptrs[14]]), 0, left);
      if d.Some? {
        ReleaseBlockFirst(used, d.value.0, node.ptrs[14], []);
        ReleaseNone(ReleaseAll(used, d.value.0), node.ptrs[14]);
      }
    }
  }

  lemma ReleaseNone(r: Option<seq<bool>>, p: nat)
    ensures r.Some? && p < |r.value| ==> ReleaseAll(r.value[p := false], []) == Some(r.value[p := false])
  {
  }

  /** The deallocation in `inode_close`: the inode's sector, then everything its pointers reach.  `ok` is
      whether every assertion on the way held. */
  method Deallocate(fs: FileSystem, inode: Inode) returns (ok: bool)
    requires fs.Ok()
    modifies fs.freeMap.bits
    ensures fs.Ok() && fs.cache.disk == old(fs.cache.disk)
    ensures var r := CloseRemoved(old(fs.St()), inode.Pointers(), inode.sector, BytesToSectors(inode.length));
            (ok <==> r.Some?) && (ok ==> r == Some(fs.St().used))
  {
    hide Unpacked, Unpack, DoubleOrder, ReleaseAll, ReleaseFrom;
    ghost var disk, node := fs.cache.disk, inode.Pointers();
    ok := ReleaseSector(fs, inode.sector);
    if !ok { return; }
    var sectors := BytesToSectors(inode.length);
    ghost var goal := ReleaseFrom(fs.St().used, disk, node, 0, sectors);
    var index := 0;
    while index < NUM_PTRS && sectors > 0 && index <= inode.ptrIdx
      invariant fs.Ok() && index <= NUM_PTRS && fs.cache.disk == disk && sectors >= 0
      invariant ReleaseFrom(fs.St().used, disk, node, index, sectors) == goal
    {
      if index < DIRECT {
        ReleaseFromDirect(fs.St().used, disk, node, index, sectors);
        ok := ReleaseSector(fs, inode.ptrs[index]);
        if !ok { return; }
        sectors := sectors - 1;
      } else if index < DIRECT + INDIRECT {
        ReleaseFromIndirect(fs.St().used, disk, node, index, sectors);
        if inode.ptrs[index] >= |fs.cache.disk| { return false; }
        ok, sectors := ReleaseSlots(fs, Unpack(fs.cache.disk[inode.ptrs[index]]), sectors);
        if !ok { return; }
        ok := ReleaseSector(fs, inode.ptrs[index]);
        if !ok { return; }
      } else {
        ReleaseFromDouble(fs.St().used, disk, node, sectors);
        if inode.ptrs[index] >= |fs.cache.disk| { return false; }
        ok, sectors := ReleaseDouble(fs, Unpack(fs.cache.disk[inode.ptrs[index]]), sectors);
        if !ok { return; }
        ok := ReleaseSector(fs, inode.ptrs[index]);
        if !ok { return; }
        ReleaseFromEnd(fs.St().used, disk, node, NUM_PTRS, sectors);
      }
      index := index + 1;
    }
    ReleaseFromEnd(fs.St().used, disk, node, index, sectors);
    ok := true;
  }
}
