/** The heap: arenas of equal blocks, free lists, and big blocks of whole pages. */
module MallocModel {
  import opened Wrappers
  import opened MallocLayout

  datatype Arena = Small(desc: nat, freeCount: nat) | Big(pages: nat)

  /** `arenas` is keyed by page number; `free[d]` is the free list of descriptor `d`; `live` maps each block that
      is handed out to the size that was asked for. */
  datatype Heap = Heap(arenas: map<nat, Arena>, free: seq<seq<nat>>, live: map<nat, nat>)

  predicate HasSmall(h: Heap, page: nat, d: nat) {
    page in h.arenas && h.arenas[page].Small? && h.arenas[page].desc == d
  }

  ghost predicate IsBlock(b: nat, d: nat)
    requires d < DESC_COUNT
  {
    exists i :: 0 <= i < BlocksPerArena(d) && b == BlockAt(PageOf(b), d, i)
  }

  /** Which blocks of the page are on the free list. */
  function FreeBlocks(h: Heap, page: nat, d: nat): set<nat>
    requires d < DESC_COUNT && |h.free| == DESC_COUNT
  {
    set i | 0 <= i < BlocksPerArena(d) && BlockAt(page, d, i) in h.free[d]
  }

  function PageCount(a: Arena): nat {
    if a.Small? then 1 else a.pages
  }

  function BigBlock(page: nat): nat {
    page * PAGE_SIZE + ARENA_HEADER
  }

  // ---------------------------------------------------------------- the invariant

  /** A free list holds distinct blocks of its descriptor's arenas, none of them live. */
  ghost predicate ListOk(h: Heap, d: nat)
    requires d < DESC_COUNT && |h.free| == DESC_COUNT
  {
    && Distinct(h.free[d])
    && forall b :: b in h.free[d] ==> HasSmall(h, PageOf(b), d) && IsBlock(b, d) && b !in h.live
  }

  /** An arena's count is the number of its blocks on the free list, and its other blocks are live. */
  ghost predicate ArenaOk(h: Heap, page: nat)
    requires page in h.arenas && |h.free| == DESC_COUNT
  {
    match h.arenas[page]
    case Small(d, count) =>
      && d < DESC_COUNT
      && count == |FreeBlocks(h, page, d)|
      && forall i :: 0 <= i < BlocksPerArena(d) ==> BlockAt(page, d, i) in h.free[d] || BlockAt(page, d, i) in h.live
    case Big(pages) => pages > 0 && BigBlock(page) in h.live
  }

  ghost predicate LiveOk(h: Heap, b: nat) {
    && PageOf(b) in h.arenas
    && match h.arenas[PageOf(b)]
       case Small(d, _) => d < DESC_COUNT && IsBlock(b, d)
       case Big(_) => b == BigBlock(PageOf(b))
  }

  ghost predicate PagesApart(h: Heap) {
    forall p, q :: p in h.arenas && q in h.arenas && p < q ==> p + PageCount(h.arenas[p]) <= q
  }

  ghost predicate Sound(h: Heap) {
    && |h.free| == DESC_COUNT
    && (forall d :: 0 <= d < DESC_COUNT ==> ListOk(h, d))
    && (forall p :: p in h.arenas ==> ArenaOk(h, p))
    && (forall b :: b in h.live ==> LiveOk(h, b))
    && PagesApart(h)
  }

  /** No arena is kept whose blocks are all free. */
  ghost predicate Lean(h: Heap) {
    forall p :: p in h.arenas && h.arenas[p].Small? && h.arenas[p].desc < DESC_COUNT
                ==> h.arenas[p].freeCount < BlocksPerArena(h.arenas[p].desc)
  }

  // ---------------------------------------------------------------- live blocks do not overlap

  /** The bytes that belong to a live block. */
  function Capacity(h: Heap, b: nat): nat
    requires PageOf(b) in h.arenas
    requires h.arenas[PageOf(b)].Small? ==> h.arenas[PageOf(b)].desc < DESC_COUNT
  {
    match h.arenas[PageOf(b)]
    case Small(d, _) => BlockSize(d)
    case Big(pages) => if pages == 0 then 0 else PAGE_SIZE * pages - ARENA_HEADER
  }

  /** A live block lies inside its arena's pages, behind the header. */
  lemma LiveInside(h: Heap, b: nat)
    requires Sound(h) && b in h.live
    ensures LiveOk(h, b)
    ensures var p := PageOf(b);
            && p * PAGE_SIZE + ARENA_HEADER <= b
            && b + Capacity(h, b) <= (p + PageCount(h.arenas[p])) * PAGE_SIZE
  {
    var p := PageOf(b);
    assert LiveOk(h, b);
    if h.arenas[p].Small? {
      var d := h.arenas[p].desc;
      var i :| 0 <= i < BlocksPerArena(d) && b == BlockAt(p, d, i);
      OffsetInPage(d, i);
    } else {
      assert ArenaOk(h, p);
    }
  }

  /** Live blocks are pairwise disjoint. */
  lemma LiveDisjoint(h: Heap, b: nat, c: nat)
    requires Sound(h) && b in h.live && c in h.live && b < c
    ensures LiveOk(h, b) && b + Capacity(h, b) <= c
  {
    var p, q := PageOf(b), PageOf(c);
    LiveInside(h, b);
    LiveInside(h, c);
    if p != q {
      hide Sound;
      assert PagesApart(h) by { SoundApart(h); }
      hide LiveOk;
      OtherPage(h, b, c);
    } else if h.arenas[p].Small? {
      var d := h.arenas[p].desc;
      var i :| 0 <= i < BlocksPerArena(d) && b == BlockAt(p, d, i);
      var j :| 0 <= j < BlocksPerArena(d) && c == BlockAt(p, d, j);
      if j < i { OffsetsApart(d, j, i); }
      assert i < j;
      OffsetsApart(d, i, j);
    }
  }

  lemma SoundApart(h: Heap)
    requires Sound(h)
    ensures PagesApart(h)
  {
  }

  lemma OtherPage(h: Heap, b: nat, c: nat)
    requires PagesApart(h) && b < c && PageOf(b) != PageOf(c) && PageOf(b) in h.arenas && PageOf(c) in h.arenas
    requires h.arenas[PageOf(b)].Small? ==> h.arenas[PageOf(b)].desc < DESC_COUNT
    requires b + Capacity(h, b) <= (PageOf(b) + PageCount(h.arenas[PageOf(b)])) * PAGE_SIZE
    ensures b + Capacity(h, b) <= c
  {
    assert PageOf(b) < PageOf(c);
    assert PageOf(b) + PageCount(h.arenas[PageOf(b)]) <= PageOf(c);
  }
}
