/** Which page eviction takes, where it goes, and what a fault and an access leave behind. */
module PagingEffects {
  import opened Wrappers
  import opened InodeGrow
  import opened SwapModel
  import opened PagingModel
  import opened PagingTheorems

  /** Page `p` is now in slot `s`, the first that was free. */
  ghost predicate SwappedTo(vm: Vm, k: Vm, p: Pid, s: nat)
    requires p in vm.entries && p in vm.data && p in k.entries
  {
    && s < |vm.used| == |vm.slots| && !vm.used[s] && (forall j :: 0 <= j < s ==> vm.used[j])
    && k.used == vm.used[s := true] && k.slots == vm.slots[s := vm.data[p]]
    && k.entries[p] == Entry(SwapPage, vm.entries[p].source, false, true, s)
  }

  /** The page of frame `i` has left the table, and the others keep their order, contents and entries; a clean page of a
      file is dropped, any other goes to swap. */
  ghost predicate Evicted(vm: Vm, k: Vm, i: nat)
    requires i < |vm.table|
  {
    var p := vm.table[i];
    && p in vm.entries && p in vm.data && k.entries.Keys == vm.entries.Keys
    && k.table == vm.table[..i] + vm.table[i + 1..] && k.data == vm.data - {p} && k.spare == vm.spare + 1
    && k.dirty == vm.dirty && (forall q :: q in k.accessed <==> q in vm.accessed && !PassedOver(vm, q))
    && (forall q :: q in vm.entries && q != p ==> k.entries[q] == vm.entries[q])
    && (if p !in vm.dirty && vm.entries[p].kind == FilePage
        then k.used == vm.used && k.slots == vm.slots && k.entries[p] == vm.entries[p].(loaded := false)
        else exists s :: SwappedTo(vm, k, p, s))
  }

  lemma ExpelExactly(vm: Vm, swept: Vm, i: nat)
    requires i < |vm.table| && vm.table[i] in vm.entries && vm.table[i] in vm.data && |vm.used| == |vm.slots|
    requires swept == vm.(accessed := swept.accessed) && Expel(swept, i).Some?
    requires forall q :: q in swept.accessed <==> q in vm.accessed && !PassedOver(vm, q)
    ensures Evicted(vm, Expel(swept, i).value, i)
  {
    hide PassedOver;
    var k, p := Expel(swept, i).value, vm.table[i];
    if p in vm.dirty || vm.entries[p].kind == SwapPage {
      NoneBefore(vm.used, 0);
      assert SwappedTo(vm, k, p, FirstFree(vm.used, 0).value);
    }
  }

  /** Eviction takes the chosen frame, and clears the accessed bits of exactly the frames it passed over. */
  lemma EvictExactly(vm: Vm, i: nat)
    requires Sound(vm) && Chosen(vm, i) && Evict(vm).Some?
    ensures Evicted(vm, Evict(vm).value, i)
  {
    VictimChosen(vm);
    hide Chosen, Victim, PassedOver, Evicted, Expel, SweptBits, SlotsOk, EntryOk;
    assert vm.table[i] in vm.table;
    assert |vm.used| == |vm.slots| by { assert SlotsOk(vm); SlotsAgree(vm); }
    ExpelExactly(vm, vm.(accessed := SweptBits(vm)), i);
  }

  lemma SlotsAgree(vm: Vm)
    requires SlotsOk(vm)
    ensures |vm.used| == |vm.slots|
  {
  }

  /** Frames are neither lost nor made: those in the table and the spare ones always add up to the same number. */
  function Frames(vm: Vm): nat {
    |vm.table| + vm.spare
  }

  lemma EvictFrames(vm: Vm)
    requires Sound(vm) && Evict(vm).Some?
    ensures Frames(Evict(vm).value) == Frames(vm)
  {
    VictimChosen(vm);
    EvictExactly(vm, Victim(vm));
    hide Sound, Evict, Chosen, Victim;
  }

  /** A spare frame is taken if there is one; otherwise the one that an eviction frees. */
  lemma AllocateExactly(vm: Vm)
    requires Sound(vm) && AllocateFrame(vm).Some?
    ensures var k := AllocateFrame(vm).value;
            && Frames(k) + 1 == Frames(vm)
            && (vm.spare > 0 ==> k == vm.(spare := vm.spare - 1))
            && (vm.spare == 0 ==> Evict(vm).Some? && k == Evict(vm).value.(spare := 0))
  {
    hide Sound, Evict;
    if vm.spare == 0 {
      EvictKeeps(vm);
      EvictFrames(vm);
    }
  }

  /** A fault puts the page at the end of the frame table, with both its bits clear, and frees the slot it was in; the
      rest is as the allocation of the frame left it. */
  lemma FaultExactly(vm: Vm, p: Pid, found: Page)
    requires Sound(vm) && p in vm.entries && !vm.entries[p].loaded && AllocateFrame(vm).Some?
    ensures Fault(vm, p, found).Some?
    ensures var a, n, e := AllocateFrame(vm).value, Fault(vm, p, found).value, vm.entries[p];
            && n.table == a.table + [p] && n.spare == a.spare && Frames(n) == Frames(vm)
            && n.accessed == a.accessed - {p} && n.dirty == a.dirty - {p} && n.slots == a.slots
            && n.entries.Keys == a.entries.Keys == vm.entries.Keys
            && n.entries[p].loaded && !n.entries[p].swapped && n.entries[p].kind == e.kind
            && (forall q :: q in n.entries && q != p ==> n.entries[q] == a.entries[q])
            && (if e.kind == SwapPage then e.slot < |a.used| && n.used == a.used[e.slot := false] else n.used == a.used)
  {
    AllocateKeeps(vm);
    AllocateExactly(vm);
    var a := AllocateFrame(vm).value;
    assert a.entries[p] == vm.entries[p];
    SameViewSound(vm, a);
    assert EntryOk(a, p) && |a.used| == |a.slots| by { hide EntryOk, TableOk; }
    hide Sound, AllocateFrame, SameView;
  }

  lemma GrowExactly(vm: Vm, p: Pid, data: Page)
    requires Sound(vm) && p !in vm.entries && AllocateFrame(vm).Some?
    ensures GrowStack(vm, p, data).Some?
    ensures var a, n := AllocateFrame(vm).value, GrowStack(vm, p, data).value;
            && n.table == a.table + [p] && n.spare == a.spare && Frames(n) == Frames(vm)
            && n.accessed == a.accessed - {p} && n.dirty == a.dirty - {p} && n.used == a.used && n.slots == a.slots
            && n.entries == a.entries[p := n.entries[p]] && n.entries[p].kind == SwapPage
  {
    AllocateExactly(vm);
    hide Sound, AllocateFrame;
  }

  /** After an access the page is loaded and marked accessed; it is marked dirty if it was written, or was in memory and
      dirty already. */
  lemma AccessMarks(vm: Vm, p: Pid, write: Option<Page>, found: Page)
    requires Sound(vm) && p in vm.entries && Access(vm, p, write, found).Some?
    ensures var n := Access(vm, p, write, found).value;
            && p in n.entries && n.entries[p].loaded && p in n.table && p in n.accessed
            && (p in n.dirty <==> write.Some? || (vm.entries[p].loaded && p in vm.dirty))
            && Frames(n) == Frames(vm)
  {
    if vm.entries[p].loaded {
      assert TableOk(vm);
      hide Sound;
    } else {
      FaultKeeps(vm, p, found);
      FaultExactly(vm, p, found);
      hide Sound, Fault, SameView;
    }
  }

  /** No step loses or makes a frame. */
  lemma StepFrames(vm: Vm, e: Event)
    requires Sound(vm) && Possible(vm, e) && Step(vm, e).Some?
    ensures Frames(Step(vm, e).value) == Frames(vm)
  {
    hide Sound, GrowStack, Access, AllocateFrame;
    match e
    case Maps(_, _) =>
    case Grows(p, data) =>
      GrowStackKeeps(vm, p, data);
      GrowExactly(vm, p, data);
    case Accesses(p, write, found) => AccessMarks(vm, p, write, found);
  }

  lemma {:induction false} EveryRunKeepsFrames(vm: Vm, m: map<Pid, Page>, es: seq<Event>, k: Vm, n: map<Pid, Page>)
    requires Runs(vm, m, es, k, n)
    ensures Frames(k) == Frames(vm)
    decreases |es|
  {
    if es != [] {
      hide Step, Frames, Sound;
      StepFrames(vm, es[0]);
      EveryRunKeepsFrames(Step(vm, es[0]).value, Ideal(m, es[0]), es[1..], k, n);
    }
  }
}
