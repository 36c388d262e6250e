/** Faults, stack growth and accesses, and why paging is invisible. */
module PagingTheorems {
  import opened Wrappers
  import opened SwapModel
  import opened PagingModel

  // ---------------------------------------------------------------- the operations

  /** `evict_frame`: `None` when there is no frame to evict, or the swap is full. */
  function Evict(vm: Vm): Option<Vm>
    requires Sound(vm)
  {
    if vm.table == [] then None
    else
      var i := Victim(vm);
      assert vm.table[i] in vm.table;
      Expel(vm.(accessed := SweptBits(vm)), i)
  }

  /** A free frame, evicting one if need be; the caller fills it. */
  function AllocateFrame(vm: Vm): Option<Vm>
    requires Sound(vm)
  {
    if vm.spare > 0 then Some(vm.(spare := vm.spare - 1))
    else
      var k := Evict(vm);
      if k.None? then None else Some(k.value.(spare := vm.spare))
  }

  /** A frame with `data` is entered for page `p` and mapped: the page directory entry is new, its bits are clear. */
  function Install(vm: Vm, p: Pid, data: Page, e: Entry): Vm {
    vm.(table := vm.table + [p], data := vm.data[p := data], accessed := vm.accessed - {p}, dirty := vm.dirty - {p},
        entries := vm.entries[p := e])
  }

  /** `page_handling` of a page that is not present. `found` is what the frame held before. */
  function Fault(vm: Vm, p: Pid, found: Page): Option<Vm>
    requires Sound(vm) && p in vm.entries && !vm.entries[p].loaded
  {
    var k := AllocateFrame(vm);
    if k.None? then None
    else
      var e := vm.entries[p];
      if e.kind == FilePage then Some(Install(k.value, p, e.source, e.(loaded := true)))
      else if e.swapped && e.slot < |k.value.slots| && |k.value.used| == |k.value.slots| then
        Some(Install(k.value.(used := k.value.used[e.slot := false]), p, k.value.slots[e.slot],
                     e.(loaded := true, swapped := false)))
      else Some(Install(k.value, p, found, e.(loaded := true, swapped := false)))
  }

  /** A new page of the stack. */
  function GrowStack(vm: Vm, p: Pid, data: Page): Option<Vm>
    requires Sound(vm) && p !in vm.entries
  {
    var k := AllocateFrame(vm);
    if k.None? then None else Some(Install(k.value, p, data, Entry(SwapPage, data, true, false, 0)))
  }

  /** A page that will be loaded from its file when it is first used. */
  function MapFile(vm: Vm, p: Pid, source: Page): Vm {
    vm.(entries := vm.entries[p := Entry(FilePage, source, false, false, 0)])
  }

  /** The processor reads a loaded page, or writes it. */
  function Touch(vm: Vm, p: Pid, write: Option<Page>): Vm {
    var seen := vm.(accessed := vm.accessed + {p});
    if write.None? then seen else seen.(data := vm.data[p := write.value], dirty := vm.dirty + {p})
  }

  // ---------------------------------------------------------------- frames

  lemma BitsOnly(vm: Vm, accessed: set<Pid>)
    requires Sound(vm)
    ensures SameView(vm, vm.(accessed := accessed))
  {
    var k := vm.(accessed := accessed);
    assert TableOk(k);
    assert forall p, s :: InSlot(k, p, s) <==> InSlot(vm, p, s);
    assert SlotsOk(k) by { SameSlots(vm, k); }
    forall p | p in k.entries ensures EntryOk(k, p) { assert EntryOk(vm, p); }
  }

  lemma SameSlots(vm: Vm, k: Vm)
    requires SlotsOk(vm) && k.used == vm.used && |k.slots| == |vm.slots|
    requires forall p, s :: InSlot(k, p, s) <==> InSlot(vm, p, s)
    ensures SlotsOk(k)
  {
    hide InSlot;
    forall s | 0 <= s < |k.used| && k.used[s] ensures exists p :: InSlot(k, p, s) {
      var p :| InSlot(vm, p, s);
    }
  }

  lemma SpareOnly(vm: Vm, spare: nat)
    requires Sound(vm)
    ensures SameView(vm, vm.(spare := spare))
  {
    var k := vm.(spare := spare);
    assert TableOk(k);
    assert SlotsOk(k) by { SameSlots(vm, k); }
    forall p | p in k.entries ensures EntryOk(k, p) { assert EntryOk(vm, p); }
  }

  lemma SameViewTrans(a: Vm, b: Vm, c: Vm)
    requires SameView(a, b) && SameView(b, c)
    ensures SameView(a, c)
  {
    forall p | p in a.entries ensures ViewIs(c, p, a) { assert ViewIs(b, p, a) && ViewIs(c, p, b); }
  }

  /** Eviction changes no page's contents, frees one frame, and succeeds whenever there is a frame in the table and
      its victim is a clean page of a file or there is a free slot. */
  lemma EvictKeeps(vm: Vm)
    requires Sound(vm)
    ensures vm.table == [] ==> Evict(vm).None?
    ensures forall i: nat :: Chosen(vm, i) ==>
              var p := vm.table[i];
              p in vm.entries
              && (Evict(vm).None? <==>
                    (p in vm.dirty || vm.entries[p].kind == SwapPage) && forall s :: 0 <= s < |vm.used| ==> vm.used[s])
    ensures Evict(vm).Some? ==> SameView(vm, Evict(vm).value) && Evict(vm).value.spare == vm.spare + 1
    ensures Evict(vm).Some? ==>
              forall p :: p in vm.entries && !vm.entries[p].loaded ==> Evict(vm).value.entries[p] == vm.entries[p]
  {
    if vm.table != [] {
      VictimChosen(vm);
      var i, swept := Victim(vm), vm.(accessed := SweptBits(vm));
      assert vm.table[i] in vm.table;
      BitsOnly(vm, SweptBits(vm));
      hide Sound, SameView, Chosen, Victim;
      assert Sound(swept) by { SameViewSound(vm, swept); }
      if Expel(swept, i).Some? {
        ExpelKeeps(swept, i);
        SameViewTrans(vm, swept, Expel(swept, i).value);
      }
    }
  }

  lemma SameViewSound(vm: Vm, k: Vm)
    requires SameView(vm, k)
    ensures Sound(vm) && Sound(k) && k.entries.Keys == vm.entries.Keys
  {
  }

  /** A frame can be had if and only if one is spare or eviction succeeds, and getting it changes no contents. */
  lemma AllocateKeeps(vm: Vm)
    requires Sound(vm)
    ensures AllocateFrame(vm).None? <==> vm.spare == 0 && Evict(vm).None?
    ensures AllocateFrame(vm).Some? ==> SameView(vm, AllocateFrame(vm).value)
    ensures AllocateFrame(vm).Some? ==>
              forall p :: p in vm.entries && !vm.entries[p].loaded
                          ==> && p in AllocateFrame(vm).value.entries
                              && AllocateFrame(vm).value.entries[p] == vm.entries[p]
  {
    hide Sound, SameView, Evict;
    if vm.spare > 0 {
      SpareOnly(vm, vm.spare - 1);
    } else {
      EvictKeeps(vm);
      if Evict(vm).Some? {
        var k := Evict(vm).value;
        SameViewSound(vm, k);
        SpareOnly(k, vm.spare);
        SameViewTrans(vm, k, k.(spare := vm.spare));
      }
    }
  }

  // ---------------------------------------------------------------- installing a page

  ghost predicate NotLoaded(vm: Vm, p: Pid) {
    p in vm.entries ==> !vm.entries[p].loaded
  }

  lemma InstallTable(k: Vm, p: Pid, data: Page, e: Entry)
    requires TableOk(k) && NotLoaded(k, p) && e.loaded
    ensures TableOk(Install(k, p, data, e))
  {
    var n := Install(k, p, data, e);
    assert p !in k.table;
    assert forall q :: q in n.table <==> q in k.table || q == p;
  }

  /** A page that was swapped in gives its slot back. */
  lemma FreeSlot(k: Vm, n: Vm, p: Pid)
    requires SlotsOk(k) && |n.slots| == |k.slots|
    requires forall q, s :: InSlot(n, q, s) <==> InSlot(k, q, s) && q != p
    requires p in k.entries && k.entries[p].swapped && k.entries[p].slot < |k.used|
    requires n.used == k.used[k.entries[p].slot := false]
    ensures SlotsOk(n)
  {
    var slot := k.entries[p].slot;
    assert InSlot(k, p, slot);
    hide InSlot;
    forall s | 0 <= s < |n.used| && n.used[s] ensures exists q :: InSlot(n, q, s) {
      var q :| InSlot(k, q, s);
      assert q != p || s == slot;
      assert InSlot(n, q, s);
    }
  }

  lemma FaultSlots(vm: Vm, k: Vm, p: Pid, found: Page)
    requires Sound(vm) && p in vm.entries && !vm.entries[p].loaded && AllocateFrame(vm) == Some(k)
    requires Sound(k) && p in k.entries && k.entries[p] == vm.entries[p]
    ensures Fault(vm, p, found).Some? && SlotsOk(Fault(vm, p, found).value)
  {
    assert EntryOk(k, p);
    var n := Fault(vm, p, found).value;
    assert SlotsOk(k);
    hide Sound, AllocateFrame;
    if vm.entries[p].kind == SwapPage {
      assert forall q, s :: InSlot(n, q, s) <==> InSlot(k, q, s) && q != p;
      FreeSlot(k, n, p);
    } else {
      assert forall q, s :: InSlot(n, q, s) <==> InSlot(k, q, s);
      SameSlots(k, n);
    }
  }

  lemma FaultEntry(vm: Vm, k: Vm, p: Pid, found: Page, q: Pid)
    requires Sound(vm) && p in vm.entries && !vm.entries[p].loaded && AllocateFrame(vm) == Some(k)
    requires Sound(k) && p in k.entries && k.entries[p] == vm.entries[p] && q in k.entries
    ensures Fault(vm, p, found).Some? && q in Fault(vm, p, found).value.entries
    ensures EntryOk(Fault(vm, p, found).value, q)
  {
    assert EntryOk(k, p) && EntryOk(k, q);
    assert SlotsOk(k);
    assert q != p && k.entries[q].swapped && k.entries[p].swapped ==> k.entries[q].slot != k.entries[p].slot by {
      assert InSlot(k, q, k.entries[q].slot) || !k.entries[q].swapped;
      assert InSlot(k, p, k.entries[p].slot) || !k.entries[p].swapped;
    }
    hide Sound, AllocateFrame, SlotsOk;
  }

  /** A fault brings the page back as it was, and leaves every other page as it was. */
  lemma FaultKeeps(vm: Vm, p: Pid, found: Page)
    requires Sound(vm) && p in vm.entries && !vm.entries[p].loaded
    ensures Fault(vm, p, found).None? <==> AllocateFrame(vm).None?
    ensures Fault(vm, p, found).Some? ==>
              SameView(vm, Fault(vm, p, found).value) && Fault(vm, p, found).value.entries[p].loaded
  {
    AllocateKeeps(vm);
    if AllocateFrame(vm).Some? {
      var k := AllocateFrame(vm).value;
      SameViewSound(vm, k);
      var n := Fault(vm, p, found).value;
      FaultTable(vm, k, p, found);
      FaultSlots(vm, k, p, found);
      forall q | q in n.entries ensures EntryOk(n, q) { FaultEntry(vm, k, p, found, q); }
      assert Sound(n);
      forall q | q in k.entries ensures ViewIs(n, q, k) { FaultView(vm, k, p, found, q); }
      hide Sound, ViewIs, AllocateFrame;
      assert n.entries.Keys == k.entries.Keys;
      assert SameView(k, n);
      hide SameView, Fault;
      SameViewTrans(vm, k, n);
    }
  }

  lemma FaultTable(vm: Vm, k: Vm, p: Pid, found: Page)
    requires Sound(vm) && p in vm.entries && !vm.entries[p].loaded && AllocateFrame(vm) == Some(k)
    requires Sound(k) && p in k.entries && k.entries[p] == vm.entries[p]
    ensures Fault(vm, p, found).Some? && TableOk(Fault(vm, p, found).value)
  {
    assert TableOk(k);
    hide Sound, AllocateFrame, TableOk;
    var e := vm.entries[p];
    if e.kind == FilePage {
      InstallTable(k, p, e.source, e.(loaded := true));
    } else if e.swapped && e.slot < |k.slots| && |k.used| == |k.slots| {
      var f := k.(used := k.used[e.slot := false]);
      assert TableOk(f) by { TableFrame(k, f); }
      InstallTable(f, p, k.slots[e.slot], e.(loaded := true, swapped := false));
    } else {
      InstallTable(k, p, found, e.(loaded := true, swapped := false));
    }
  }

  lemma TableFrame(k: Vm, f: Vm)
    requires TableOk(k) && f.table == k.table && f.data == k.data && f.entries == k.entries
    ensures TableOk(f)
  {
  }

  lemma FaultView(vm: Vm, k: Vm, p: Pid, found: Page, q: Pid)
    requires Sound(vm) && p in vm.entries && !vm.entries[p].loaded && AllocateFrame(vm) == Some(k)
    requires Sound(k) && p in k.entries && k.entries[p] == vm.entries[p] && q in k.entries
    requires Fault(vm, p, found).Some? && Sound(Fault(vm, p, found).value) && q in Fault(vm, p, found).value.entries
    ensures ViewIs(Fault(vm, p, found).value, q, k)
  {
    assert EntryOk(k, p) && EntryOk(k, q) && SlotsOk(k);
    assert EntryOk(Fault(vm, p, found).value, q);
    hide AllocateFrame;
  }

  // ---------------------------------------------------------------- new pages and accesses

  /** All pages but `p` read the same. */
  ghost predicate OthersView(vm: Vm, k: Vm, p: Pid) {
    && Sound(vm) && Sound(k)
    && k.entries.Keys == vm.entries.Keys + {p}
    && forall q :: q in vm.entries && q != p ==> ViewIs(k, q, vm)
  }

  ghost predicate Reads(k: Vm, p: Pid, data: Page) {
    && Sound(k) && p in k.entries
    && (k.entries[p].loaded ==> p in k.data)
    && (k.entries[p].swapped ==> k.entries[p].slot < |k.slots|)
    && View(k, p) == data
  }

  lemma NewEntry(k: Vm, n: Vm, p: Pid)
    requires Sound(k) && p !in k.entries && p in n.entries && !n.entries[p].swapped
    requires n.entries.Keys == k.entries.Keys + {p} && n.used == k.used && n.slots == k.slots && TableOk(n)
    requires forall q :: q in k.entries ==> n.entries[q] == k.entries[q]
    requires forall q :: q in k.entries ==> (q in n.data <==> q in k.data) && (q in n.dirty <==> q in k.dirty)
    requires forall q :: q in k.entries && q in k.data ==> n.data[q] == k.data[q]
    requires EntryOk(n, p)
    ensures OthersView(k, n, p)
  {
    assert SlotsOk(n) by {
      assert forall q, s :: InSlot(n, q, s) <==> InSlot(k, q, s);
      SameSlots(k, n);
    }
    forall q | q in n.entries ensures EntryOk(n, q) { if q != p { assert EntryOk(k, q); } }
    assert Sound(n);
    forall q | q in k.entries ensures ViewIs(n, q, k) { assert EntryOk(k, q) && EntryOk(n, q); }
  }

  lemma MapFileKeeps(vm: Vm, p: Pid, source: Page)
    requires Sound(vm) && p !in vm.entries
    ensures OthersView(vm, MapFile(vm, p, source), p) && Reads(MapFile(vm, p, source), p, source)
  {
    var n := MapFile(vm, p, source);
    assert TableOk(n);
    assert EntryOk(n, p);
    NewEntry(vm, n, p);
  }

  lemma GrowStackKeeps(vm: Vm, p: Pid, data: Page)
    requires Sound(vm) && p !in vm.entries
    ensures GrowStack(vm, p, data).None? <==> AllocateFrame(vm).None?
    ensures GrowStack(vm, p, data).Some? ==>
              OthersView(vm, GrowStack(vm, p, data).value, p) && Reads(GrowStack(vm, p, data).value, p, data)
  {
    AllocateKeeps(vm);
    if AllocateFrame(vm).Some? {
      var k := AllocateFrame(vm).value;
      SameViewSound(vm, k);
      var n := GrowStack(vm, p, data).value;
      hide AllocateFrame;
      InstallTable(k, p, data, Entry(SwapPage, data, true, false, 0));
      assert EntryOk(n, p);
      NewEntry(k, n, p);
      forall q | q in vm.entries ensures ViewIs(n, q, vm) { assert ViewIs(k, q, vm) && ViewIs(n, q, k); }
      assert EntryOk(n, p);
    }
  }

  /** A read of a loaded page changes no contents; a write replaces those of the page alone. */
  lemma TouchKeeps(vm: Vm, p: Pid, write: Option<Page>)
    requires Sound(vm) && p in vm.entries && vm.entries[p].loaded
    ensures p in vm.data
    ensures OthersView(vm, Touch(vm, p, write), p)
    ensures Reads(Touch(vm, p, write), p, if write.Some? then write.value else View(vm, p))
  {
    var n := Touch(vm, p, write);
    assert p in vm.data;
    assert n.entries.Keys == vm.entries.Keys + {p};
    assert TableOk(n);
    assert SlotsOk(n) by {
      assert forall q, s :: InSlot(n, q, s) <==> InSlot(vm, q, s);
      SameSlots(vm, n);
    }
    forall q | q in n.entries ensures EntryOk(n, q) { assert EntryOk(vm, q); }
    assert Sound(n);
    forall q | q in vm.entries && q != p ensures ViewIs(n, q, vm) { assert EntryOk(vm, q) && EntryOk(n, q); }
    assert EntryOk(n, p);
  }

  /** An access by the process: a fault first, if the page is not present. */
  function Access(vm: Vm, p: Pid, write: Option<Page>, found: Page): Option<Vm>
    requires Sound(vm) && p in vm.entries
  {
    var k := if vm.entries[p].loaded then Some(vm) else Fault(vm, p, found);
    if k.None? then None else Some(Touch(k.value, p, write))
  }

  lemma AccessKeeps(vm: Vm, p: Pid, write: Option<Page>, found: Page)
    requires Sound(vm) && p in vm.entries && Access(vm, p, write, found).Some?
    ensures vm.entries[p].loaded ==> p in vm.data
    ensures vm.entries[p].swapped ==> vm.entries[p].slot < |vm.slots|
    ensures OthersView(vm, Access(vm, p, write, found).value, p)
    ensures Reads(Access(vm, p, write, found).value, p, if write.Some? then write.value else View(vm, p))
  {
    Viewable(vm, p);
    if vm.entries[p].loaded {
      TouchKeeps(vm, p, write);
    } else {
      FaultKeeps(vm, p, found);
      var k := Fault(vm, p, found).value;
      SameViewSound(vm, k);
      assert ViewIs(k, p, vm);
      hide Fault, Touch;
      TouchKeeps(k, p, write);
      var n := Touch(k, p, write);
      forall q | q in vm.entries && q != p ensures ViewIs(n, q, vm) { assert ViewIs(k, q, vm) && ViewIs(n, q, k); }
    }
  }

  // ---------------------------------------------------------------- every run

  /** `found` is what the frame held that a page is brought into. */
  datatype Event =
    | Maps(p: Pid, source: Page)
    | Grows(p: Pid, data: Page)
    | Accesses(p: Pid, write: Option<Page>, found: Page)

  predicate Possible(vm: Vm, e: Event) {
    if e.Accesses? then e.p in vm.entries else e.p !in vm.entries
  }

  function Step(vm: Vm, e: Event): Option<Vm>
    requires Sound(vm) && Possible(vm, e)
  {
    match e
    case Maps(p, source) => Some(MapFile(vm, p, source))
    case Grows(p, data) => GrowStack(vm, p, data)
    case Accesses(p, write, found) => Access(vm, p, write, found)
  }

  /** The same step with unlimited memory: each page simply has contents. */
  function Ideal(m: map<Pid, Page>, e: Event): map<Pid, Page> {
    match e
    case Maps(p, source) => m[p := source]
    case Grows(p, data) => m[p := data]
    case Accesses(p, write, _) => if write.Some? then m[p := write.value] else m
  }

  /** Every page reads as it would with unlimited memory. */
  ghost predicate Transparent(vm: Vm, m: map<Pid, Page>) {
    && Sound(vm)
    && vm.entries.Keys == m.Keys
    && forall p :: p in m ==> Reads(vm, p, m[p])
  }

  lemma OtherReads(vm: Vm, k: Vm, p: Pid, q: Pid, data: Page)
    requires OthersView(vm, k, p) && q != p && Reads(vm, q, data)
    ensures Reads(k, q, data)
  {
    assert ViewIs(k, q, vm);
    Viewable(k, q);
  }

  lemma StepEffect(vm: Vm, m: map<Pid, Page>, e: Event)
    requires Transparent(vm, m) && Possible(vm, e) && Step(vm, e).Some?
    ensures OthersView(vm, Step(vm, e).value, e.p)
    ensures e.p in Ideal(m, e) && Reads(Step(vm, e).value, e.p, Ideal(m, e)[e.p])
  {
    hide Sound, OthersView, GrowStack, Access, MapFile, Reads;
    match e
    case Maps(p, source) => MapFileKeeps(vm, p, source);
    case Grows(p, data) => GrowStackKeeps(vm, p, data);
    case Accesses(p, write, found) =>
      AccessKeeps(vm, p, write, found);
      assert Reads(vm, p, m[p]);
      ReadsView(vm, p, m[p]);
  }

  lemma ReadsView(vm: Vm, p: Pid, data: Page)
    requires Reads(vm, p, data)
    ensures p in vm.entries && (vm.entries[p].loaded ==> p in vm.data)
    ensures vm.entries[p].swapped ==> vm.entries[p].slot < |vm.slots|
    ensures View(vm, p) == data
  {
  }

  /** Paging transparency, one step. */
  lemma StepTransparent(vm: Vm, m: map<Pid, Page>, e: Event)
    requires Transparent(vm, m) && Possible(vm, e) && Step(vm, e).Some?
    ensures Transparent(Step(vm, e).value, Ideal(m, e))
  {
    hide Sound, Reads, Step, ViewIs;
    StepEffect(vm, m, e);
    var k, p := Step(vm, e).value, e.p;
    forall q | q in Ideal(m, e) ensures Reads(k, q, Ideal(m, e)[q]) {
      if q != p { OtherReads(vm, k, p, q, m[q]); }
    }
    assert k.entries.Keys == Ideal(m, e).Keys;
  }

  /** The states after a run, and the ideal memory beside it. */
  ghost predicate Runs(vm: Vm, m: map<Pid, Page>, es: seq<Event>, k: Vm, n: map<Pid, Page>)
    decreases |es|
  {
    if es == [] then k == vm && n == m
    else
      && Sound(vm) && Possible(vm, es[0]) && Step(vm, es[0]).Some?
      && Runs(Step(vm, es[0]).value, Ideal(m, es[0]), es[1..], k, n)
  }

  /** For every sequence of lazy loads, stack growth and accesses, with the evictions and faults they cause: each
      page reads as it would with unlimited memory, and set swap bits and swapped pages correspond one to one. */
  lemma {:induction false} EveryRunTransparent(vm: Vm, m: map<Pid, Page>, es: seq<Event>, k: Vm, n: map<Pid, Page>)
    requires Transparent(vm, m) && Runs(vm, m, es, k, n)
    ensures Transparent(k, n)
    decreases |es|
  {
    if es != [] {
      hide Transparent, Step, Ideal;
      StepTransparent(vm, m, es[0]);
      EveryRunTransparent(Step(vm, es[0]).value, Ideal(m, es[0]), es[1..], k, n);
    }
  }

  lemma StartsTransparent(spare: nat, slots: seq<Page>, used: seq<bool>)
    requires |used| == |slots| && forall i :: 0 <= i < |used| ==> !used[i]
    ensures Transparent(Vm(map[], [], map[], {}, {}, spare, used, slots), map[])
  {
  }
}
