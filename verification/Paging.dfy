/** Demand paging: lazy loading, eviction to swap, and faults. */
module PagingModel {
  import opened Wrappers
  import opened InodeGrow
  import opened SwapModel

  /** A page of a process. */
  type Pid = nat

  datatype Kind = FilePage | SwapPage

  /** A supplemental page table entry; `source` is what the file gives for the page, with its zero fill. */
  datatype Entry = Entry(kind: Kind, source: Page, loaded: bool, swapped: bool, slot: nat)

  /** `table` is the frame table, by the page each frame holds; `data` are the frames' contents, `accessed` and
      `dirty` the bits in the page directory; `spare` counts the free frames; `used` and `slots` are the swap. */
  datatype Vm = Vm(entries: map<Pid, Entry>, table: seq<Pid>, data: map<Pid, Page>, accessed: set<Pid>,
                   dirty: set<Pid>, spare: nat, used: seq<bool>, slots: seq<Page>)

  // ---------------------------------------------------------------- eviction

  /** The first frame from `i` on whose page was not accessed; the length of the table if there is none. */
  function FirstIdle(table: seq<Pid>, accessed: set<Pid>, i: nat): (r: nat)
    requires i <= |table|
    ensures i <= r <= |table| && (r < |table| ==> table[r] !in accessed)
    ensures forall k :: i <= k < r ==> table[k] in accessed
    decreases |table| - i
  {
    if i == |table| || table[i] !in accessed then i else FirstIdle(table, accessed, i + 1)
  }

  /** The frame the two sweeps settle on: after a first sweep that finds none, the second finds the first frame. */
  function Victim(vm: Vm): (r: nat)
    requires vm.table != []
    ensures r < |vm.table|
  {
    var i := FirstIdle(vm.table, vm.accessed, 0);
    if i < |vm.table| then i else 0
  }

  /** The accessed bits after the sweeps: those of the frames that were passed over are cleared. */
  function SweptBits(vm: Vm): set<Pid> {
    vm.accessed - (set k | k in vm.table[..FirstIdle(vm.table, vm.accessed, 0)])
  }

  /** Frame `i` is the first whose page was not accessed, or the first of all if every page was. */
  ghost predicate Chosen(vm: Vm, i: nat) {
    && i < |vm.table|
    && if vm.table[i] in vm.accessed then i == 0 && forall k :: 0 <= k < |vm.table| ==> vm.table[k] in vm.accessed
       else forall k :: 0 <= k < i ==> vm.table[k] in vm.accessed
  }

  /** Page `p` has a frame, and it and all frames before it were accessed. */
  ghost predicate PassedOver(vm: Vm, p: Pid) {
    exists k :: 0 <= k < |vm.table| && vm.table[k] == p && forall j :: 0 <= j <= k ==> vm.table[j] in vm.accessed
  }

  /** The two sweeps settle on the chosen frame, the only one, and clear the bits of the frames they pass over. */
  lemma VictimChosen(vm: Vm)
    requires vm.table != []
    ensures forall i: nat :: Chosen(vm, i) <==> i == Victim(vm)
    ensures forall p :: p in SweptBits(vm) <==> p in vm.accessed && !PassedOver(vm, p)
  {
    var f := FirstIdle(vm.table, vm.accessed, 0);
    forall p ensures PassedOver(vm, p) <==> p in vm.table[..f] {
      if p in vm.table[..f] {
        var k :| 0 <= k < f && vm.table[..f][k] == p;
        assert vm.table[k] == p;
      }
      if PassedOver(vm, p) {
        var k :| 0 <= k < |vm.table| && vm.table[k] == p && forall j :: 0 <= j <= k ==> vm.table[j] in vm.accessed;
        assert k < f && vm.table[..f][k] == p;
      }
    }
  }

  /** The page of frame `i` leaves memory: to swap if it is dirty or lives in swap, or it is dropped. `None` is the
      panic when the swap is full. */
  function Expel(vm: Vm, i: nat): Option<Vm>
    requires i < |vm.table| && vm.table[i] in vm.entries && vm.table[i] in vm.data && |vm.used| == |vm.slots|
  {
    var p := vm.table[i];
    var e := vm.entries[p];
    var out := vm.(table := vm.table[..i] + vm.table[i + 1..], data := vm.data - {p}, spare := vm.spare + 1);
    if p in vm.dirty || e.kind == SwapPage then
      var s := FirstFree(vm.used, 0);
      if s.None? then None
      else
        Some(out.(entries := vm.entries[p := e.(kind := SwapPage, loaded := false, swapped := true, slot := s.value)],
                  used := vm.used[s.value := true], slots := vm.slots[s.value := vm.data[p]]))
    else Some(out.(entries := vm.entries[p := e.(loaded := false)]))
  }

  // ---------------------------------------------------------------- the invariant

  /** The frame table lists exactly the loaded pages, each once. */
  ghost predicate TableOk(vm: Vm) {
    && Distinct(vm.table)
    && (forall p :: p in vm.table <==> p in vm.data)
    && (forall p :: p in vm.data ==> p in vm.entries)
    && (forall p :: p in vm.entries ==> (vm.entries[p].loaded <==> p in vm.data))
  }

  /** A page is in one place: in a frame, in a swap slot that is marked used, or in its file; and a file page whose
      frame is clean still holds what the file gives. */
  ghost predicate EntryOk(vm: Vm, p: Pid)
    requires p in vm.entries
  {
    var e := vm.entries[p];
    && (e.swapped ==> !e.loaded && e.kind == SwapPage && e.slot < |vm.used| && vm.used[e.slot])
    && (e.kind == SwapPage && !e.loaded ==> e.swapped)
    && (e.kind == FilePage && p in vm.data && p !in vm.dirty ==> vm.data[p] == e.source)
  }

  ghost predicate InSlot(vm: Vm, p: Pid, s: nat) {
    p in vm.entries && vm.entries[p].swapped && vm.entries[p].slot == s
  }

  /** Set swap bits and swapped entries correspond one to one. */
  ghost predicate SlotsOk(vm: Vm) {
    && |vm.used| == |vm.slots|
    && (forall p, q, s :: InSlot(vm, p, s) && InSlot(vm, q, s) ==> p == q)
    && (forall s :: 0 <= s < |vm.used| && vm.used[s] ==> exists p :: InSlot(vm, p, s))
  }

  ghost predicate Sound(vm: Vm) {
    && TableOk(vm)
    && SlotsOk(vm)
    && (forall p :: p in vm.entries ==> EntryOk(vm, p))
  }

  /** What the page holds, wherever it is. */
  function View(vm: Vm, p: Pid): Page
    requires p in vm.entries
    requires vm.entries[p].loaded ==> p in vm.data
    requires vm.entries[p].swapped ==> vm.entries[p].slot < |vm.slots|
  {
    var e := vm.entries[p];
    if e.loaded then vm.data[p] else if e.swapped then vm.slots[e.slot] else e.source
  }

  lemma Viewable(vm: Vm, p: Pid)
    requires Sound(vm) && p in vm.entries
    ensures vm.entries[p].loaded ==> p in vm.data
    ensures vm.entries[p].swapped ==> vm.entries[p].slot < |vm.slots|
  {
    assert EntryOk(vm, p);
  }

  /** Every page reads the same in both states. */
  ghost predicate SameView(vm: Vm, k: Vm) {
    && k.entries.Keys == vm.entries.Keys
    && Sound(vm) && Sound(k)
    && forall p :: p in vm.entries ==> ViewIs(k, p, vm)
  }

  ghost predicate ViewIs(k: Vm, p: Pid, vm: Vm)
    requires Sound(vm) && Sound(k) && p in vm.entries && p in k.entries
  {
    Viewable(vm, p);
    Viewable(k, p);
    View(k, p) == View(vm, p)
  }

  // ---------------------------------------------------------------- what eviction keeps

  lemma WithoutOne(t: seq<Pid>, i: nat)
    requires Distinct(t) && i < |t|
    ensures var r := t[..i] + t[i + 1..];
            Distinct(r) && forall p :: p in r <==> p in t && p != t[i]
  {
    var r := t[..i] + t[i + 1..];
    assert forall k :: 0 <= k < |r| ==> r[k] == if k < i then t[k] else t[k + 1];
    forall p | p in t && p != t[i] ensures p in r {
      var k :| 0 <= k < |t| && t[k] == p;
      assert k < i ==> r[k] == p;
      assert k > i ==> r[k - 1] == p;
    }
  }

  lemma ExpelTable(vm: Vm, i: nat)
    requires Sound(vm) && i < |vm.table| && vm.table[i] in vm.entries && vm.table[i] in vm.data
    requires Expel(vm, i).Some?
    ensures TableOk(Expel(vm, i).value)
  {
    WithoutOne(vm.table, i);
    hide SlotsOk, EntryOk;
  }

  lemma ExpelSlots(vm: Vm, i: nat)
    requires Sound(vm) && i < |vm.table| && vm.table[i] in vm.entries && vm.table[i] in vm.data
    requires Expel(vm, i).Some?
    ensures SlotsOk(Expel(vm, i).value)
  {
    var k, p := Expel(vm, i).value, vm.table[i];
    assert EntryOk(vm, p);
    if p in vm.dirty || vm.entries[p].kind == SwapPage {
      var s := FirstFree(vm.used, 0).value;
      forall q ensures !InSlot(vm, q, s) { if q in vm.entries { assert EntryOk(vm, q); } }
      forall q, x ensures InSlot(k, q, x) <==> InSlot(vm, q, x) || (q == p && x == s) {
      }
      forall x | 0 <= x < |k.used| && k.used[x] ensures exists q :: InSlot(k, q, x) {
        if x == s {
          assert InSlot(k, p, s);
        } else {
          var q :| InSlot(vm, q, x);
          assert InSlot(k, q, x);
        }
      }
    } else {
      forall q, x ensures InSlot(k, q, x) <==> InSlot(vm, q, x) {
      }
    }
  }

  lemma ExpelEntry(vm: Vm, i: nat, q: Pid)
    requires Sound(vm) && i < |vm.table| && vm.table[i] in vm.entries && vm.table[i] in vm.data && q in vm.entries
    requires Expel(vm, i).Some?
    ensures q in Expel(vm, i).value.entries && EntryOk(Expel(vm, i).value, q)
  {
    assert EntryOk(vm, q);
    assert EntryOk(vm, vm.table[i]);
  }

  /** Expelling a page loses nothing: every page still reads the same. */
  lemma ExpelKeeps(vm: Vm, i: nat)
    requires Sound(vm) && i < |vm.table| && vm.table[i] in vm.entries && vm.table[i] in vm.data
    requires Expel(vm, i).Some?
    ensures SameView(vm, Expel(vm, i).value)
  {
    var k, p := Expel(vm, i).value, vm.table[i];
    ExpelTable(vm, i);
    ExpelSlots(vm, i);
    forall q | q in k.entries ensures EntryOk(k, q) { ExpelEntry(vm, i, q); }
    assert k.entries.Keys == vm.entries.Keys;
    forall q | q in vm.entries ensures ViewIs(k, q, vm) {
      assert EntryOk(vm, q);
      if q != p && vm.entries[q].swapped { assert vm.used[vm.entries[q].slot]; }
    }
  }
}
