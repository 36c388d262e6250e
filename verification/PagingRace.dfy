/**
 User accesses take no lock, and `evict_frame` copies a page out, sector by sector, before it unmaps it.  What becomes
 of writes that the page's owner makes meanwhile.
 */
module PagingRace {
  import opened Wrappers
  import opened DiskModel
  import opened InodeGrow
  import opened SwapModel
  import opened PagingModel

  /** The next sector goes to swap, or the owner writes a byte of the page. */
  datatype Move = Copies | Writes(at: nat, value: byte)

  /** The frame, what the slot holds so far, and the number of sectors copied. */
  datatype Copying = Copying(frame: Page, out: Page, done: nat)

  predicate Fits(m: Move) {
    m.Writes? ==> m.at < PAGE_SIZE
  }

  /** The slot after sector `n` of the frame went there. */
  function CopyOut(out: Page, frame: Page, n: nat): Page {
    seq(PAGE_SIZE, i requires 0 <= i < PAGE_SIZE => if i / SECTOR_SIZE == n then frame[i] else out[i])
  }

  function Next(s: Copying, m: Move): Copying
    requires Fits(m)
  {
    match m
    case Copies => s.(out := CopyOut(s.out, s.frame, s.done), done := s.done + 1)
    case Writes(at, v) => s.(frame := s.frame[at := v])
  }

  function After(s: Copying, ms: seq<Move>): Copying
    requires forall i :: 0 <= i < |ms| ==> Fits(ms[i])
  {
    if ms == [] then s else Next(After(s, ms[..|ms| - 1]), ms[|ms| - 1])
  }

  /** Eviction of the page in frame `i`: the test, then the moves, then the unmapping.  A page that is not written out
      is dropped, whatever the moves did to its frame. */
  function EvictedDuring(vm: Vm, i: nat, ms: seq<Move>): Option<Vm>
    requires i < |vm.table| && vm.table[i] in vm.entries && vm.table[i] in vm.data && |vm.used| == |vm.slots|
    requires forall j :: 0 <= j < |ms| ==> Fits(ms[j])
  {
    var p := vm.table[i];
    var e := vm.entries[p];
    var out := vm.(table := vm.table[..i] + vm.table[i + 1..], data := vm.data - {p}, spare := vm.spare + 1);
    if p in vm.dirty || e.kind == SwapPage then
      var s := FirstFree(vm.used, 0);
      if s.None? then None
      else
        var end := After(Copying(vm.data[p], vm.slots[s.value], 0), ms);
        Some(out.(entries := vm.entries[p := e.(kind := SwapPage, loaded := false, swapped := true, slot := s.value)],
                  used := vm.used[s.value := true], slots := vm.slots[s.value := end.out]))
    else Some(out.(entries := vm.entries[p := e.(loaded := false)]))
  }

  // ---------------------------------------------------------------- nothing in between

  function AllCopies(n: nat): seq<Move> {
    seq(n, _ => Copies)
  }

  lemma {:induction false} CopiesAll(s: Copying, n: nat)
    requires s.done == 0 && n <= SECTORS_PER_PAGE
    ensures var t := After(s, AllCopies(n));
            && t.frame == s.frame && t.done == n
            && forall i :: 0 <= i < PAGE_SIZE ==> t.out[i] == if i / SECTOR_SIZE < n then s.frame[i] else s.out[i]
  {
    if n > 0 {
      CopiesAll(s, n - 1);
      assert AllCopies(n)[..n - 1] == AllCopies(n - 1);
    }
  }

  /** With no write in between, this is the eviction of `PagingModel`. */
  lemma UndisturbedEviction(vm: Vm, i: nat)
    requires i < |vm.table| && vm.table[i] in vm.entries && vm.table[i] in vm.data && |vm.used| == |vm.slots|
    ensures EvictedDuring(vm, i, AllCopies(SECTORS_PER_PAGE)) == Expel(vm, i)
  {
    var p, s := vm.table[i], FirstFree(vm.used, 0);
    if s.Some? {
      var start := Copying(vm.data[p], vm.slots[s.value], 0);
      CopiesAll(start, SECTORS_PER_PAGE);
      assert After(start, AllCopies(SECTORS_PER_PAGE)).out == vm.data[p];
    }
  }

  // ---------------------------------------------------------------- a write in between

  ghost predicate NoWrite(ms: seq<Move>, at: nat) {
    forall i :: 0 <= i < |ms| ==> ms[i] != Copies ==> ms[i].at != at
  }

  /** The byte at `at` through moves that do not write it: it stays in the frame, and reaches the slot when its sector
      is copied. */
  lemma {:induction false} ByteAfter(s: Copying, ms: seq<Move>, at: nat)
    requires (forall i :: 0 <= i < |ms| ==> Fits(ms[i])) && NoWrite(ms, at) && at < PAGE_SIZE
    ensures var t := After(s, ms);
            && t.frame[at] == s.frame[at] && s.done <= t.done
            && t.out[at] == if s.done <= at / SECTOR_SIZE < t.done then s.frame[at] else s.out[at]
    decreases |ms|
  {
    if ms != [] {
      var before := ms[..|ms| - 1];
      assert NoWrite(before, at);
      ByteAfter(s, before, at);
      assert ms[|ms| - 1] != Copies ==> ms[|ms| - 1].at != at;
    }
  }

  lemma {:induction false} AfterConcat(s: Copying, a: seq<Move>, b: seq<Move>)
    requires (forall i :: 0 <= i < |a| ==> Fits(a[i])) && (forall i :: 0 <= i < |b| ==> Fits(b[i]))
    ensures After(s, a + b) == After(After(s, a), b)
    decreases |b|
  {
    if b == [] {
      assert a + b == a;
    } else {
      AfterConcat(s, a, b[..|b| - 1]);
      assert (a + b)[..|a + b| - 1] == a + b[..|b| - 1];
    }
  }

  /** A page that goes to swap: the owner's last write to a byte before the unmapping survives if and only if its sector
      was not yet copied, or what was copied happened to be the same. */
  lemma WriteDuringCopy(s: Copying, before: seq<Move>, at: nat, v: byte, after: seq<Move>)
    requires at < PAGE_SIZE && (forall i :: 0 <= i < |before| ==> Fits(before[i]))
    requires (forall i :: 0 <= i < |after| ==> Fits(after[i])) && NoWrite(after, at)
    requires After(s, before + [Writes(at, v)] + after).done == SECTORS_PER_PAGE
    ensures After(s, before + [Writes(at, v)] + after).out[at] == v
            <==> After(s, before).done <= at / SECTOR_SIZE || After(s, before).out[at] == v
  {
    var t := After(s, before);
    AfterConcat(s, before + [Writes(at, v)], after);
    AfterConcat(s, before, [Writes(at, v)]);
    assert [Writes(at, v)][..0] == [];
    assert After(t, [Writes(at, v)]) == Next(t, Writes(at, v));
    ByteAfter(Next(t, Writes(at, v)), after, at);
  }

  /** So in what the page holds after the eviction. */
  lemma WriteDuringEviction(vm: Vm, i: nat, before: seq<Move>, at: nat, v: byte, after: seq<Move>)
    requires Sound(vm) && i < |vm.table| && vm.table[i] in vm.entries && vm.table[i] in vm.data && at < PAGE_SIZE
    requires vm.table[i] in vm.dirty || vm.entries[vm.table[i]].kind == SwapPage
    requires FirstFree(vm.used, 0).Some? && (forall j :: 0 <= j < |before| ==> Fits(before[j]))
    requires (forall j :: 0 <= j < |after| ==> Fits(after[j])) && NoWrite(after, at)
    requires After(StartOf(vm, i), before + [Writes(at, v)] + after).done == SECTORS_PER_PAGE
    ensures var p, r := vm.table[i], EvictedDuring(vm, i, before + [Writes(at, v)] + after);
            var t := After(StartOf(vm, i), before);
            && r.Some? && p in r.value.entries && !r.value.entries[p].loaded && r.value.entries[p].swapped
            && r.value.entries[p].slot < |r.value.slots|
            && (View(r.value, p)[at] == v <==> t.done <= at / SECTOR_SIZE || t.out[at] == v)
  {
    WriteDuringCopy(StartOf(vm, i), before, at, v, after);
  }

  /** The copying begins with the slot's old bytes. */
  function StartOf(vm: Vm, i: nat): Copying
    requires i < |vm.table| && vm.table[i] in vm.data && |vm.used| == |vm.slots| && FirstFree(vm.used, 0).Some?
  {
    Copying(vm.data[vm.table[i]], vm.slots[FirstFree(vm.used, 0).value], 0)
  }

  function ZeroPage(): Page { seq(PAGE_SIZE, _ => 0) }

  /** One dirty page of zeros, and one swap slot. */
  function OnePage(): Vm {
    Vm(map[0 := Entry(FilePage, ZeroPage(), true, false, 0)], [0], map[0 := ZeroPage()], {}, {0}, 0, [false],
       [ZeroPage()])
  }

  /** Its owner writes a one to its first byte after the first sector was copied: the one is lost. */
  lemma ByteLost()
    ensures var vm, ms := OnePage(), AllCopies(1) + [Writes(0, 1)] + AllCopies(7);
            && Sound(vm) && (forall j :: 0 <= j < |ms| ==> Fits(ms[j]))
            && var r := EvictedDuring(vm, 0, ms);
               && r.Some? && 0 in r.value.entries && !r.value.entries[0].loaded && r.value.entries[0].swapped
               && r.value.entries[0].slot < |r.value.slots| && View(r.value, 0)[0] == 0
  {
    var vm := OnePage();
    assert Sound(vm) by { OnePageSound(); }
    var s := StartOf(vm, 0);
    CopiesAll(s, 1);
    var t := After(s, AllCopies(1));
    AfterConcat(s, AllCopies(1) + [Writes(0, 1)], AllCopies(7));
    AfterConcat(s, AllCopies(1), [Writes(0, 1)]);
    assert [Writes(0, 1)][..0] == [];
    assert After(t, [Writes(0, 1)]) == Next(t, Writes(0, 1));
    CountsCopies(Next(t, Writes(0, 1)), 7);
    hide After, Sound;
    WriteDuringEviction(vm, 0, AllCopies(1), 0, 1, AllCopies(7));
    ByteAfter(Next(t, Writes(0, 1)), AllCopies(7), 0);
  }

  lemma OnePageSound()
    ensures Sound(OnePage())
  {
    var vm := OnePage();
    assert !InSlot(vm, 0, 0);
  }

  lemma {:induction false} CountsCopies(s: Copying, n: nat)
    ensures After(s, AllCopies(n)).done == s.done + n
  {
    if n > 0 {
      CountsCopies(s, n - 1);
      assert AllCopies(n)[..n - 1] == AllCopies(n - 1);
    }
  }

  /** A clean page of a file is dropped: a byte its owner writes between the test and the unmapping is lost, unless it
      is the byte the file gives. */
  lemma WriteAfterTest(vm: Vm, i: nat, at: nat, v: byte)
    requires Sound(vm) && i < |vm.table| && vm.table[i] in vm.entries && vm.table[i] in vm.data && at < PAGE_SIZE
    requires vm.table[i] !in vm.dirty && vm.entries[vm.table[i]].kind == FilePage
    ensures var p, r := vm.table[i], EvictedDuring(vm, i, [Writes(at, v)]);
            && r.Some? && p in r.value.entries && !r.value.entries[p].loaded && !r.value.entries[p].swapped
            && vm.data[p] == vm.entries[p].source
            && (View(r.value, p)[at] == v <==> vm.data[p][at] == v)
  {
    assert EntryOk(vm, vm.table[i]);
  }
}
