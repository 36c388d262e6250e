/** Paging as it updates the frame table, the page entries and the swap. */
module PagingCode {
  import opened Wrappers
  import opened InodeGrow
  import opened SwapModel
  import opened PagingModel
  import opened PagingTheorems
  import opened PagingEffects

  /** `Refused` is a null frame or a false result; `Panicked` is the kernel panic when the swap is full. */
  datatype Outcome = Done | Refused | Panicked

  class PageSystem {
    var entries: map<Pid, Entry>
    var table: seq<Pid>
    var data: map<Pid, Page>
    var accessed: set<Pid>
    var dirty: set<Pid>
    var spare: nat
    const swap: SwapDevice

    constructor (swap: SwapDevice, spare: nat)
      requires swap.Valid() && forall i :: 0 <= i < |swap.used| ==> !swap.used[i]
      ensures this.swap == swap && Valid() && entries == map[]
    {
      entries, table, data, accessed, dirty := map[], [], map[], {}, {};
      this.spare, this.swap := spare, swap;
      new;
      StartsTransparent(spare, swap.Slots(), swap.used);
    }

    ghost function View(): Vm
      requires swap.Valid()
      reads this, swap
    {
      Vm(entries, table, data, accessed, dirty, spare, swap.used, swap.Slots())
    }

    ghost predicate Valid()
      reads this, swap
    {
      swap.Valid() && Sound(View())
    }

    /** One sweep over the frame table: it stops at the first page that was not accessed, and clears the accessed bits
        of those before it. */
    method Sweep() returns (i: nat)
      requires Distinct(table)
      modifies this`accessed
      ensures i == FirstIdle(table, old(accessed), 0)
      ensures accessed == old(accessed) - (set k | k in table[..i])
    {
      i := 0;
      ghost var before := accessed;
      assert (set k | k in table[..0]) == {};
      while i < |table| && table[i] in accessed
        invariant i <= |table| && FirstIdle(table, before, 0) == FirstIdle(table, before, i)
        invariant accessed == before - (set k | k in table[..i])
        decreases |table| - i
      {
        assert table[..i + 1] == table[..i] + [table[i]];
        accessed := accessed - {table[i]};
        i := i + 1;
      }
      assert i < |table| ==> table[i] !in table[..i];
    }

    /** The page of frame `i` goes to swap or is dropped, and its frame is freed. */
    method ExpelFrame(i: nat) returns (r: Outcome)
      requires swap.Valid() && i < |table| && table[i] in entries && table[i] in data
      modifies this, swap
      ensures swap.Valid() && r != Refused
      ensures r == Panicked <==> Expel(old(View()), i).None?
      ensures r == Done ==> Some(View()) == Expel(old(View()), i)
    {
      var p := table[i];
      ghost var vm := View();
      if p in dirty || entries[p].kind == SwapPage {
        var sector := swap.SwapOut(data[p]);
        if sector.None? {
          return Panicked;
        }
        ghost var s := FirstFree(vm.used, 0).value;
        assert swap.Slots() == vm.slots[s := data[p]];
        swap.SlotFits(s);
        entries := entries[p := entries[p].(kind := SwapPage, loaded := false, swapped := true,
                                            slot := SlotOf(sector.value))];
      } else {
        entries := entries[p := entries[p].(loaded := false)];
      }
      table := table[..i] + table[i + 1..];
      data := data - {p};
      spare := spare + 1;
      r := Done;
    }

    /** `evict_frame`: two sweeps. */
    method EvictFrame() returns (r: Outcome)
      requires Valid()
      modifies this, swap
      ensures swap.Valid()
      ensures r == Refused <==> old(table) == []
      ensures r == Done <==> Evict(old(View())).Some?
      ensures r == Done ==> Some(View()) == Evict(old(View())) && Valid()
      ensures r == Done ==> exists i: nat :: Chosen(old(View()), i) && Evicted(old(View()), View(), i)
    {
      hide Sound, SameView, Expel, Chosen, Evicted, PassedOver;
      ghost var vm := View();
      FrameTable(vm);
      EvictKeeps(vm);
      if table == [] {
        return Refused;
      }
      var i := TwoSweeps();
      assert View() == vm.(accessed := SweptBits(vm));
      r := ExpelFrame(i);
      if r == Done {
        SameViewSound(vm, View());
        EvictExactly(vm, i);
      }
    }

    /** The sweeps of `evict_frame`: a second one if the first finds every page accessed. */
    method TwoSweeps() returns (i: nat)
      requires swap.Valid() && Distinct(table) && table != []
      modifies this`accessed
      ensures i == Victim(old(View())) && accessed == SweptBits(old(View())) && Chosen(old(View()), i)
      ensures forall p :: p in accessed <==> p in old(accessed) && !PassedOver(old(View()), p)
    {
      VictimChosen(View());
      i := Sweep();
      if i == |table| {
        assert table[..i] == table;
        SecondFindsFirst(table, accessed);
        i := Sweep();
        assert table[..0] == [];
      }
    }

    /** `allocate_frame`: a free frame, after an eviction if there is none. */
    method TakeFrame() returns (r: Outcome)
      requires Valid()
      modifies this, swap
      ensures swap.Valid()
      ensures r == Done <==> AllocateFrame(old(View())).Some?
      ensures r == Done ==> Some(View()) == AllocateFrame(old(View())) && Valid()
    {
      hide Sound, Evict, SameView;
      ghost var vm := View();
      AllocateKeeps(vm);
      EvictKeeps(vm);
      if spare == 0 {
        r := EvictFrame();
        if r != Done {
          return;
        }
      }
      spare := spare - 1;
      r := Done;
      if AllocateFrame(vm).Some? { SameViewSound(vm, AllocateFrame(vm).value); }
    }

    /** A frame for page `p` enters the table and is mapped. */
    method InstallPage(p: Pid, page: Page, e: Entry)
      requires swap.Valid()
      modifies this
      ensures swap.Valid() && View() == Install(old(View()), p, page, e)
    {
      table := table + [p];
      data := data[p := page];
      accessed := accessed - {p};
      dirty := dirty - {p};
      entries := entries[p := e];
    }

    /** `page_handling` of a page that is not present; `found` is what the frame held. */
    method PageHandling(p: Pid, found: Page) returns (r: Outcome)
      requires Valid() && p in entries && !entries[p].loaded
      modifies this, swap
      ensures swap.Valid()
      ensures r == Done <==> Fault(old(View()), p, found).Some?
      ensures r == Done ==> Some(View()) == Fault(old(View()), p, found) && Valid()
    {
      hide Sound, SameView, AllocateFrame, Install;
      ghost var vm := View();
      var e := entries[p];
      AllocateKeeps(vm);
      FaultKeeps(vm, p, found);
      if AllocateFrame(vm).Some? && e.swapped { SlotInRange(vm, AllocateFrame(vm).value, p); }
      r := TakeFrame();
      if r != Done {
        return;
      }
      if e.kind == FilePage {
        InstallPage(p, e.source, e.(loaded := true));
      } else if e.swapped {
        ghost var slots := swap.Slots();
        var page := swap.SwapIn(SectorOf(e.slot), e.slot);
        assert swap.Slots() == slots;
        InstallPage(p, page.value, e.(loaded := true, swapped := false));
      } else {
        InstallPage(p, found, e.(loaded := true, swapped := false));
      }
      if Fault(vm, p, found).Some? { SameViewSound(vm, Fault(vm, p, found).value); }
    }

    /** `grow_stack` at a page that has no entry. */
    method Grow(p: Pid, found: Page) returns (r: Outcome)
      requires Valid() && p !in entries
      modifies this, swap
      ensures swap.Valid()
      ensures r == Done <==> GrowStack(old(View()), p, found).Some?
      ensures r == Done ==> Some(View()) == GrowStack(old(View()), p, found) && Valid()
    {
      hide Sound, OthersView, AllocateFrame, Install, Reads;
      ghost var vm := View();
      GrowStackKeeps(vm, p, found);
      r := TakeFrame();
      if r == Done {
        InstallPage(p, found, Entry(SwapPage, found, true, false, 0));
        OthersSound(vm, View(), p);
      }
    }
  }

  /** The frame table lists distinct pages, each with an entry and a frame. */
  lemma FrameTable(vm: Vm)
    requires Sound(vm)
    ensures Distinct(vm.table) && |vm.used| == |vm.slots|
    ensures forall i :: 0 <= i < |vm.table| ==> vm.table[i] in vm.entries && vm.table[i] in vm.data
  {
  }

  lemma SecondFindsFirst(table: seq<Pid>, accessed: set<Pid>)
    requires table != [] && accessed !! (set k | k in table)
    ensures FirstIdle(table, accessed, 0) == 0
  {
    assert table[0] in table;
  }

  lemma SlotInRange(vm: Vm, k: Vm, p: Pid)
    requires SameView(vm, k) && p in k.entries && k.entries[p].swapped
    ensures k.entries[p].slot < |k.used| == |k.slots| && k.used[k.entries[p].slot]
  {
    assert EntryOk(k, p);
  }

  lemma OthersSound(vm: Vm, k: Vm, p: Pid)
    requires OthersView(vm, k, p)
    ensures Sound(k)
  {
  }
}
