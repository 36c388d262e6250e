/** `malloc` and `free` on the heap, and what each of them keeps. */
module MallocTheorems {
  import opened Wrappers
  import opened MallocLayout
  import opened MallocModel
  import opened MallocSteps

  /** The smallest descriptor whose blocks hold `size` bytes; `DESC_COUNT` if there is none. */
  function Descriptor(size: nat): (d: nat)
    ensures d <= DESC_COUNT && (d < DESC_COUNT ==> size <= BlockSize(d)) && (d == DESC_COUNT <==> size > 1024)
  {
    if size <= 16 then 0 else if size <= 32 then 1 else if size <= 64 then 2 else if size <= 128 then 3
    else if size <= 256 then 4 else if size <= 512 then 5 else if size <= 1024 then 6 else DESC_COUNT
  }

  /** How many pages a request asks the page allocator for, if it has to ask. */
  function PagesAsked(size: nat): nat {
    if Descriptor(size) == DESC_COUNT then PagesFor(size) else 1
  }

  /** What the page allocator returned: nothing, or pages that are not in use. */
  ghost predicate Granted(h: Heap, size: nat, page: Option<nat>) {
    page.Some? && PagesAsked(size) > 0 ==> FreshPages(h, page.value, PagesAsked(size))
  }

  /** `malloc`: the new heap, and the block if there is one. */
  function Malloc(h: Heap, size: nat, page: Option<nat>): (Heap, Option<nat>)
    requires Sound(h) && Granted(h, size, page)
  {
    var d := Descriptor(size);
    if size == 0 then (h, None)
    else if d == DESC_COUNT then
      var n := PagesFor(size);
      if n == 0 || page.None? then (h, None) else (AddBig(h, page.value, n, size), Some(BigBlock(page.value)))
    else if h.free[d] != [] then
      HeadOfList(h, d);
      (TakeBlock(h, d, size), Some(h.free[d][0]))
    else if page.None? then (h, None)
    else
      NewArenaSound(h, page.value, d);
      var k := NewArena(h, page.value, d);
      HeadOfList(k, d);
      (TakeBlock(k, d, size), Some(k.free[d][0]))
  }

  /** `free` of a live block. */
  function Free(h: Heap, b: nat): Heap
    requires Sound(h) && b in h.live
  {
    assert LiveOk(h, b);
    var p := PageOf(b);
    if h.arenas[p].Big? then RemoveBig(h, p)
    else
      var d := h.arenas[p].desc;
      var k := PutBack(h, b, d);
      if k.arenas[p].freeCount >= BlocksPerArena(d) then DropArena(k, p, d) else k
  }

  // ---------------------------------------------------------------- sizes

  /** A live block holds the request it was made for, if and only if the request and the header fit 32 bits. */
  ghost predicate Ample(h: Heap, b: nat)
    requires LiveOk(h, b) && b in h.live
  {
    h.live[b] <= Capacity(h, b) <==> h.live[b] <= SIZE_MODULUS - ARENA_HEADER
  }

  /** What holds between calls. */
  ghost predicate Valid(h: Heap) {
    && Sound(h)
    && Lean(h)
    && forall b :: b in h.live ==> LiveOk(h, b) && Ample(h, b)
  }

  lemma AmpleFrame(h: Heap, k: Heap, b: nat)
    requires LiveOk(h, b) && b in h.live && Ample(h, b) && LiveOk(k, b) && b in k.live && k.live[b] == h.live[b]
    requires h.arenas[PageOf(b)].Small? <==> k.arenas[PageOf(b)].Small?
    requires h.arenas[PageOf(b)].Small? ==> h.arenas[PageOf(b)].desc == k.arenas[PageOf(b)].desc
    requires h.arenas[PageOf(b)].Big? ==> k.arenas[PageOf(b)] == h.arenas[PageOf(b)]
    ensures Ample(k, b)
  {
  }

  // ---------------------------------------------------------------- malloc

  lemma TakeValid(h: Heap, k: Heap, d: nat, size: nat)
    requires Valid(h) && Sound(k) && d < DESC_COUNT && k.free[d] != [] && 0 < size <= BlockSize(d)
    requires HasSmall(k, PageOf(k.free[d][0]), d) && k.arenas[PageOf(k.free[d][0])].freeCount > 0
    requires k.live == h.live && forall p :: p in h.arenas ==> p in k.arenas && k.arenas[p] == h.arenas[p]
    requires forall p :: p in k.arenas && p !in h.arenas ==> HasSmall(k, p, d) && p == PageOf(k.free[d][0])
    ensures Valid(TakeBlock(k, d, size))
  {
    var b, r := k.free[d][0], TakeBlock(k, d, size);
    TakeBlockSound(k, d, size);
    assert ArenaOk(k, PageOf(b));
    assert |FreeBlocks(k, PageOf(b), d)| <= BlocksPerArena(d) by { FreeAtMost(k, PageOf(b), d); }
    assert Lean(r);
    forall c | c in r.live ensures LiveOk(r, c) && Ample(r, c) {
      assert LiveOk(r, c);
      if c != b {
        assert LiveOk(h, c) && Ample(h, c);
        AmpleFrame(h, r, c);
      }
    }
  }

  lemma FreeAtMost(h: Heap, p: nat, d: nat)
    requires d < DESC_COUNT && |h.free| == DESC_COUNT
    ensures |FreeBlocks(h, p, d)| <= BlocksPerArena(d)
  {
    var s, t := FreeBlocks(h, p, d), Range(BlocksPerArena(d));
    assert s <= t;
    assert t == s + (t - s);
  }

  /** Every call of `malloc`: a refused one changes nothing; a granted one adds one live block, distinct from all
      others, and keeps all that holds between calls. */
  lemma MallocValid(h: Heap, size: nat, page: Option<nat>)
    requires Valid(h) && Granted(h, size, page) && size < SIZE_MODULUS
    ensures var (k, r) := Malloc(h, size, page);
            && Valid(k)
            && (r.None? ==> k == h)
            && (r.Some? ==> r.value !in h.live && k.live == h.live[r.value := size])
  {
    hide Lean, Ample, LiveOk, PagesFor, BigBlock, PageOf, FreshPages, ArenaOk, ListOk;
    var d := Descriptor(size);
    if size != 0 {
      if d == DESC_COUNT {
        if PagesFor(size) > 0 && page.Some? { BigValid(h, size, page.value); }
      } else if h.free[d] != [] {
        HeadOfList(h, d);
        TakeValid(h, h, d, size);
      } else if page.Some? {
        NewArenaSound(h, page.value, d);
        var k := NewArena(h, page.value, d);
        HeadOfList(k, d);
        FirstOfNew(h, page.value, d);
        TakeValid(h, k, d, size);
      }
    }
  }

  lemma FirstOfNew(h: Heap, p: nat, d: nat)
    requires d < DESC_COUNT && |h.free| == DESC_COUNT && h.free[d] == []
    ensures NewArena(h, p, d).free[d] != [] && PageOf(NewArena(h, p, d).free[d][0]) == p
  {
    BlockFindsArena(p, d, 0);
  }

  lemma BigValid(h: Heap, size: nat, p: nat)
    requires Valid(h) && Descriptor(size) == DESC_COUNT && size < SIZE_MODULUS
    requires PagesFor(size) > 0 && FreshPages(h, p, PagesFor(size))
    ensures Valid(AddBig(h, p, PagesFor(size), size)) && BigBlock(p) !in h.live
  {
    var n := PagesFor(size);
    var k := AddBig(h, p, n, size);
    AddBigSound(h, p, n, size);
    BigBlockPage(p);
    PagesSuffice(size);
    hide PagesFor, BigBlock, PageOf, FreshPages;
    assert Lean(k);
    forall b | b in k.live ensures LiveOk(k, b) && Ample(k, b) {
      assert LiveOk(k, b);
      if b != BigBlock(p) {
        assert LiveOk(h, b) && Ample(h, b);
        AmpleFrame(h, k, b);
      }
    }
  }

  // ---------------------------------------------------------------- free

  /** Every call of `free`: the block is no longer live, the others are as they were, and an arena that no live block
      is left in goes back to the page allocator. */
  lemma FreeValid(h: Heap, b: nat)
    requires Valid(h) && b in h.live
    ensures Valid(Free(h, b)) && Free(h, b).live == h.live - {b}
  {
    var k := Free(h, b);
    FreeSound(h, b);
    FreeLean(h, b);
    FreeShape(h, b);
    hide Free, Lean;
    forall c | c in k.live ensures LiveOk(k, c) && Ample(k, c) {
      assert LiveOk(k, c) && LiveOk(h, c) && Ample(h, c);
      hide Sound, Ample, LiveOk;
      AmpleFrame(h, k, c);
    }
  }

  /** The arenas that are left are of the kind they were. */
  lemma FreeShape(h: Heap, b: nat)
    requires Sound(h) && b in h.live
    ensures var k := Free(h, b);
            && k.live == h.live - {b}
            && forall p :: p in k.arenas ==>
                 && p in h.arenas
                 && (h.arenas[p].Big? ==> k.arenas[p] == h.arenas[p])
                 && (h.arenas[p].Small? ==> k.arenas[p].Small? && k.arenas[p].desc == h.arenas[p].desc)
  {
    assert LiveOk(h, b);
  }

  lemma FreeSound(h: Heap, b: nat)
    requires Sound(h) && b in h.live
    ensures Sound(Free(h, b))
  {
    var p := PageOf(b);
    assert LiveOk(h, b);
    if h.arenas[p].Big? {
      RemoveBigSound(h, p);
    } else {
      var d := h.arenas[p].desc;
      PutBackSound(h, b, d);
      hide Sound;
      if PutBack(h, b, d).arenas[p].freeCount >= BlocksPerArena(d) { DropArenaSound(PutBack(h, b, d), p, d); }
    }
  }

  lemma FreeLean(h: Heap, b: nat)
    requires Sound(h) && Lean(h) && b in h.live
    ensures Lean(Free(h, b))
  {
    assert LiveOk(h, b);
  }

  // ---------------------------------------------------------------- free undoes malloc

  lemma AddedAndRemoved<V>(m: map<nat, V>, x: nat, v: V)
    requires x !in m
    ensures m[x := v] - {x} == m
  {
  }

  lemma WrittenBack<V>(m: map<nat, V>, x: nat, v: V)
    requires x in m
    ensures m[x := v][x := m[x]] == m
  {
  }

  lemma TakeThenPut(k: Heap, d: nat, size: nat)
    requires |k.free| == DESC_COUNT && d < DESC_COUNT && k.free[d] != []
    requires HasSmall(k, PageOf(k.free[d][0]), d) && k.arenas[PageOf(k.free[d][0])].freeCount > 0
    requires k.free[d][0] !in k.live
    ensures PutBack(TakeBlock(k, d, size), k.free[d][0], d) == k
  {
    var b, q := k.free[d][0], k.free[d];
    var p := PageOf(b);
    hide PageOf;
    assert [b] + q[1..] == q;
    assert k.free[d := q[1..]][d := q] == k.free;
    AddedAndRemoved(k.live, b, size);
    WrittenBack(k.arenas, p, Small(d, k.arenas[p].freeCount - 1));
  }

  lemma {:induction false} AllOnPage(q: seq<nat>, p: nat)
    requires forall b :: b in q ==> PageOf(b) == p
    ensures OffPage(q, p) == []
    decreases |q|
  {
    if q != [] { AllOnPage(q[1..], p); }
  }

  /** `free` right after `malloc` restores the heap exactly, free lists and arenas included. */
  lemma FreeUndoesMalloc(h: Heap, size: nat, page: Option<nat>)
    requires Valid(h) && Granted(h, size, page) && size < SIZE_MODULUS && Malloc(h, size, page).1.Some?
    ensures Sound(Malloc(h, size, page).0) && Malloc(h, size, page).1.value in Malloc(h, size, page).0.live
    ensures Free(Malloc(h, size, page).0, Malloc(h, size, page).1.value) == h
  {
    MallocValid(h, size, page);
    var d := Descriptor(size);
    if d == DESC_COUNT {
      UndoBig(h, page.value, PagesFor(size), size);
    } else if h.free[d] != [] {
      HeadOfList(h, d);
      TakeThenPut(h, d, size);
    } else {
      NewArenaSound(h, page.value, d);
      UndoNew(h, page.value, d, size);
    }
  }

  lemma UndoBig(h: Heap, p: nat, n: nat, size: nat)
    requires Sound(h) && FreshPages(h, p, n)
    ensures RemoveBig(AddBig(h, p, n, size), p) == h && PageOf(BigBlock(p)) == p
  {
    hide Sound, FreshPages, BigBlock, PageOf;
    AddBigSound(h, p, n, size);
    BigBlockPage(p);
    AddedAndRemoved(h.arenas, p, Big(n));
    AddedAndRemoved(h.live, BigBlock(p), size);
  }

  lemma UndoNew(h: Heap, p: nat, d: nat, size: nat)
    requires Sound(h) && d < DESC_COUNT && h.free[d] == [] && p !in h.arenas && Sound(NewArena(h, p, d))
    ensures var k := NewArena(h, p, d);
            && k.free[d] != [] && HasSmall(k, PageOf(k.free[d][0]), d) && k.arenas[PageOf(k.free[d][0])].freeCount > 0
            && PageOf(k.free[d][0]) == p
            && PutBack(TakeBlock(k, d, size), k.free[d][0], d) == k
            && DropArena(k, p, d) == h
  {
    hide Sound, PageOf, IsBlock, OffPage, NewArena, DropArena, TakeBlock, PutBack;
    SoundParts(h, d);
    SoundParts(NewArena(h, p, d), d);
    FirstOfNew(h, p, d);
    HeadOfList(NewArena(h, p, d), d);
    TakeThenPut(NewArena(h, p, d), d, size);
    DropNew(h, p, d);
  }

  lemma DropNew(h: Heap, p: nat, d: nat)
    requires |h.free| == DESC_COUNT && d < DESC_COUNT && h.free[d] == [] && p !in h.arenas
    ensures DropArena(NewArena(h, p, d), p, d) == h
  {
    hide PageOf, IsBlock, OffPage;
    var r := Blocks(p, d, BlocksPerArena(d));
    ArenaBlocks(p, d);
    AllOnPage(r, p);
    assert h.free[d] + r == r;
    assert h.free[d := r][d := []] == h.free;
    AddedAndRemoved(h.arenas, p, Small(d, BlocksPerArena(d)));
  }

  // ---------------------------------------------------------------- the start

  function EmptyHeap(): Heap {
    Heap(map[], [[], [], [], [], [], [], []], map[])
  }

  lemma EmptyHeapValid()
    ensures Valid(EmptyHeap())
  {
  }
}
