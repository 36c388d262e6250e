/** Swap slots: pages on a disk of sectors. */
module SwapModel {
  import opened Wrappers
  import opened DiskModel
  import opened InodeGrow

  const PAGE_SIZE := 4096
  const SECTORS_PER_PAGE := 8
  const WORD := 0x1_0000_0000

  type Page = p: seq<byte> | |p| == PAGE_SIZE witness seq(PAGE_SIZE, _ => 0)

  // ---------------------------------------------------------------- slot numbers, in 32-bit arithmetic

  /** The size of the swap table for a disk of `n` sectors. */
  function SlotCount(n: nat): nat {
    ((n * SECTOR_SIZE) % WORD) / PAGE_SIZE
  }

  /** The first sector of a slot, as `get_empty_sector_num` computes it. */
  function SectorOf(slot: nat): nat {
    ((slot * PAGE_SIZE) % WORD) / SECTOR_SIZE
  }

  /** The slot of a sector, as `swap_in` computes it. */
  function SlotOf(sector: nat): nat {
    ((sector * SECTOR_SIZE) % WORD) / PAGE_SIZE
  }

  /** On a disk of any size, each slot of the table has eight sectors of its own on the disk, and its sector number
      leads back to it: the wrap-around that shortens the table also keeps the slot numbers from wrapping. */
  lemma SlotArithmetic(n: nat, slot: nat)
    requires slot < SlotCount(n)
    ensures SectorOf(slot) == SECTORS_PER_PAGE * slot
    ensures SECTORS_PER_PAGE * slot + SECTORS_PER_PAGE <= n
    ensures SlotOf(SectorOf(slot)) == slot
  {
    var bytes := n * SECTOR_SIZE;
    assert bytes % WORD <= bytes;
    assert (slot + 1) * PAGE_SIZE <= bytes % WORD < WORD;
    assert slot * PAGE_SIZE < WORD;
  }

  // ---------------------------------------------------------------- pages and sectors

  /** The `k` sectors from `n` on, joined. */
  function Joined(sectors: seq<Sector>, n: nat, k: nat): (r: seq<byte>)
    requires n + k <= |sectors|
    ensures |r| == k * SECTOR_SIZE
  {
    if k == 0 then [] else Joined(sectors, n, k - 1) + sectors[n + k - 1]
  }

  lemma {:induction false} JoinedSame(a: seq<Sector>, b: seq<Sector>, n: nat, k: nat)
    requires n + k <= |a| && n + k <= |b| && forall i :: n <= i < n + k ==> a[i] == b[i]
    ensures Joined(a, n, k) == Joined(b, n, k)
    decreases k
  {
    if k > 0 { JoinedSame(a, b, n, k - 1); }
  }

  class SwapDevice {
    var sectors: seq<Sector>
    var used: seq<bool>

    ghost predicate Valid()
      reads this
    {
      |used| == SlotCount(|sectors|)
    }

    lemma SlotFits(i: nat)
      requires Valid() && i < |used|
      ensures SectorOf(i) == SECTORS_PER_PAGE * i && SECTORS_PER_PAGE * i + SECTORS_PER_PAGE <= |sectors|
      ensures SlotOf(SectorOf(i)) == i
    {
      SlotArithmetic(|sectors|, i);
    }

    /** The page in a slot. */
    ghost function Slot(i: nat): Page
      requires Valid() && i < |used|
      reads this
    {
      SlotFits(i);
      Joined(sectors, SECTORS_PER_PAGE * i, SECTORS_PER_PAGE)
    }

    /** The pages in all slots. */
    ghost function Slots(): (r: seq<Page>)
      requires Valid()
      reads this
      ensures |r| == |used| && forall i :: 0 <= i < |r| ==> r[i] == Slot(i)
    {
      seq(|used|, i requires 0 <= i < |used| && Valid() reads this => Slot(i))
    }

    method WriteToDisk(frame: Page, n: nat)
      requires n + SECTORS_PER_PAGE <= |sectors|
      modifies this`sectors
      ensures |sectors| == |old(sectors)| && Joined(sectors, n, SECTORS_PER_PAGE) == frame
      ensures forall i :: 0 <= i < |sectors| && !(n <= i < n + SECTORS_PER_PAGE) ==> sectors[i] == old(sectors)[i]
    {
      var i := 0;
      while i < SECTORS_PER_PAGE
        invariant i <= SECTORS_PER_PAGE && |sectors| == |old(sectors)|
        invariant Joined(sectors, n, i) == frame[..i * SECTOR_SIZE]
        invariant forall j :: 0 <= j < |sectors| && !(n <= j < n + i) ==> sectors[j] == old(sectors)[j]
      {
        ghost var before := sectors;
        var part := frame[i * SECTOR_SIZE..(i + 1) * SECTOR_SIZE];
        sectors := sectors[n + i := part];
        JoinedSame(before, sectors, n, i);
        assert frame[..(i + 1) * SECTOR_SIZE] == frame[..i * SECTOR_SIZE] + part;
        i := i + 1;
      }
      assert frame[..PAGE_SIZE] == frame;
    }

    method ReadFromDisk(n: nat) returns (frame: Page)
      requires n + SECTORS_PER_PAGE <= |sectors|
      ensures frame == Joined(sectors, n, SECTORS_PER_PAGE)
    {
      var data: seq<byte> := [];
      var i := 0;
      while i < SECTORS_PER_PAGE
        invariant i <= SECTORS_PER_PAGE && data == Joined(sectors, n, i)
      {
        data := data + sectors[n + i];
        i := i + 1;
      }
      frame := data;
    }

    /** The page goes to the lowest free slot; `None` is the panic when there is none. */
    method SwapOut(frame: Page) returns (r: Option<nat>)
      requires Valid()
      modifies this
      ensures Valid() && |used| == |old(used)|
      ensures FirstFree(old(used), 0).None? ==> r.None? && unchanged(this)
      ensures FirstFree(old(used), 0).Some? ==>
                var s := FirstFree(old(used), 0).value;
                && r == Some(SectorOf(s)) && used == old(used)[s := true] && Slot(s) == frame
                && forall i :: 0 <= i < |used| && i != s ==> Slot(i) == old(Slot(i))
    {
      var slot := FirstFree(used, 0);
      if slot.None? {
        return None;
      }
      SlotFits(slot.value);
      used := used[slot.value := true];
      ghost var before := sectors;
      WriteToDisk(frame, SectorOf(slot.value));
      forall i | 0 <= i < |used| && i != slot.value ensures Slot(i) == old(Slot(i)) {
        SlotFits(i);
        JoinedSame(before, sectors, SECTORS_PER_PAGE * i, SECTORS_PER_PAGE);
      }
      return Some(SectorOf(slot.value));
    }

    /** The page comes back and its slot is free again; `None` is the panic when the slot is not in use. */
    method SwapIn(sector: nat, ghost slot: nat) returns (r: Option<Page>)
      requires Valid() && slot < |used| && sector == SectorOf(slot)
      modifies this`used
      ensures Valid() && |used| == |old(used)|
      ensures !old(used)[slot] ==> r.None? && used == old(used)
      ensures old(used)[slot] ==> r == Some(old(Slot(slot))) && used == old(used)[slot := false]
      ensures forall i :: 0 <= i < |used| ==> Slot(i) == old(Slot(i))
    {
      SlotFits(slot);
      var i := SlotOf(sector);
      if !used[i] {
        return None;
      }
      used := used[i := false];
      var frame := ReadFromDisk(sector);
      r := Some(frame);
    }
  }
}
