/** The steps of the allocator on the heap, and what they keep. */
module MallocSteps {
  import opened Wrappers
  import opened MallocLayout
  import opened MallocModel

  // ---------------------------------------------------------------- steps

  /** The pages from `p` on that the page allocator hands out are not in use. */
  ghost predicate FreshPages(h: Heap, p: nat, n: nat) {
    n > 0 && forall q :: q in h.arenas ==> q + PageCount(h.arenas[q]) <= p || p + n <= q
  }

  /** The first `n` blocks of an arena. */
  function Blocks(page: nat, d: nat, n: nat): (r: seq<nat>)
    requires d < DESC_COUNT
    ensures |r| == n && forall i :: 0 <= i < n ==> r[i] == BlockAt(page, d, i)
  {
    if n == 0 then [] else Blocks(page, d, n - 1) + [BlockAt(page, d, n - 1)]
  }

  /** A new arena, all its blocks at the end of the free list. */
  function NewArena(h: Heap, p: nat, d: nat): Heap
    requires d < DESC_COUNT && |h.free| == DESC_COUNT
  {
    h.(arenas := h.arenas[p := Small(d, BlocksPerArena(d))],
       free := h.free[d := h.free[d] + Blocks(p, d, BlocksPerArena(d))])
  }

  /** The first free block is handed out. */
  function TakeBlock(h: Heap, d: nat, size: nat): Heap
    requires d < DESC_COUNT && |h.free| == DESC_COUNT && h.free[d] != [] && HasSmall(h, PageOf(h.free[d][0]), d)
    requires h.arenas[PageOf(h.free[d][0])].freeCount > 0
  {
    var b := h.free[d][0];
    var p := PageOf(b);
    Heap(h.arenas[p := Small(d, h.arenas[p].freeCount - 1)], h.free[d := h.free[d][1..]], h.live[b := size])
  }

  /** A block goes to the front of the free list. */
  function PutBack(h: Heap, b: nat, d: nat): Heap
    requires d < DESC_COUNT && |h.free| == DESC_COUNT && HasSmall(h, PageOf(b), d)
  {
    var p := PageOf(b);
    Heap(h.arenas[p := Small(d, h.arenas[p].freeCount + 1)], h.free[d := [b] + h.free[d]], h.live - {b})
  }

  /** The blocks of the list that are not in page `p`. */
  function OffPage(q: seq<nat>, p: nat): (r: seq<nat>)
    ensures forall b :: b in r <==> b in q && PageOf(b) != p
  {
    if q == [] then []
    else if PageOf(q[0]) == p then OffPage(q[1..], p)
    else
      assert q == [q[0]] + q[1..];
      [q[0]] + OffPage(q[1..], p)
  }

  function DropArena(h: Heap, p: nat, d: nat): Heap
    requires d < DESC_COUNT && |h.free| == DESC_COUNT
  {
    h.(arenas := h.arenas - {p}, free := h.free[d := OffPage(h.free[d], p)])
  }

  function AddBig(h: Heap, p: nat, n: nat, size: nat): Heap {
    h.(arenas := h.arenas[p := Big(n)], live := h.live[BigBlock(p) := size])
  }

  function RemoveBig(h: Heap, p: nat): Heap {
    h.(arenas := h.arenas - {p}, live := h.live - {BigBlock(p)})
  }

  // ---------------------------------------------------------------- small facts

  lemma BigBlockPage(p: nat)
    ensures PageOf(BigBlock(p)) == p
  {
  }

  function Range(n: nat): (r: set<nat>)
    ensures |r| == n && forall i :: i in r <==> 0 <= i < n
  {
    if n == 0 then {} else Range(n - 1) + {n - 1}
  }

  /** An arena whose blocks are where they were is as it was. */
  lemma ArenaFrame(h: Heap, k: Heap, p: nat)
    requires |h.free| == |k.free| == DESC_COUNT && p in h.arenas && p in k.arenas && k.arenas[p] == h.arenas[p]
    requires ArenaOk(h, p)
    requires h.arenas[p].Big? ==> BigBlock(p) in k.live
    requires h.arenas[p].Small? ==> SamePage(h, k, p, h.arenas[p].desc)
    ensures ArenaOk(k, p)
  {
    if h.arenas[p].Small? {
      var d := h.arenas[p].desc;
      assert FreeBlocks(k, p, d) == FreeBlocks(h, p, d);
    }
  }

  ghost predicate SamePage(h: Heap, k: Heap, p: nat, d: nat)
    requires |h.free| == |k.free| == DESC_COUNT
  {
    d < DESC_COUNT ==>
      forall i :: 0 <= i < BlocksPerArena(d) ==>
        && (BlockAt(p, d, i) in k.free[d] <==> BlockAt(p, d, i) in h.free[d])
        && (BlockAt(p, d, i) in k.live <==> BlockAt(p, d, i) in h.live)
  }

  /** The two heaps agree on all blocks outside page `p`, whose arena is of descriptor `d`. */
  ghost predicate Elsewhere(h: Heap, k: Heap, p: nat, d: nat)
    requires |h.free| == |k.free| == DESC_COUNT
  {
    && (forall q :: q != p ==> (q in k.arenas <==> q in h.arenas) && (q in h.arenas ==> k.arenas[q] == h.arenas[q]))
    && (forall e, b :: 0 <= e < DESC_COUNT && PageOf(b) != p ==> (b in k.free[e] <==> b in h.free[e]))
    && (forall b :: PageOf(b) != p ==> (b in k.live <==> b in h.live))
    && (forall e :: 0 <= e < DESC_COUNT && e != d ==> k.free[e] == h.free[e])
  }

  lemma ElsewhereArena(h: Heap, k: Heap, p: nat, d: nat, q: nat)
    requires Sound(h) && |k.free| == DESC_COUNT && Elsewhere(h, k, p, d) && q != p && q in k.arenas
    ensures ArenaOk(k, q)
  {
    assert q in h.arenas && ArenaOk(h, q);
    BigBlockPage(q);
    if h.arenas[q].Small? && h.arenas[q].desc < DESC_COUNT {
      var e := h.arenas[q].desc;
      forall i | 0 <= i < BlocksPerArena(e)
        ensures PageOf(BlockAt(q, e, i)) != p
      {
        BlockFindsArena(q, e, i);
      }
    }
    hide Sound, ArenaOk;
    ArenaFrame(h, k, q);
  }

  // ---------------------------------------------------------------- a step that touches one page

  /** What a step has to show about the page it touches. */
  ghost predicate PageOk(k: Heap, p: nat, d: nat)
    requires d < DESC_COUNT && |k.free| == DESC_COUNT
  {
    && (p in k.arenas ==> ArenaOk(k, p))
    && Distinct(k.free[d])
    && (forall b :: b in k.free[d] && PageOf(b) == p ==> HasSmall(k, p, d) && IsBlock(b, d) && b !in k.live)
    && (forall b :: b in k.live && PageOf(b) == p ==> LiveOk(k, b))
  }

  lemma ElsewhereList(h: Heap, k: Heap, p: nat, d: nat, e: nat)
    requires Sound(h) && d < DESC_COUNT && e < DESC_COUNT && |k.free| == DESC_COUNT && Elsewhere(h, k, p, d)
    requires PageOk(k, p, d)
    requires p in h.arenas && h.arenas[p].Small? ==> h.arenas[p].desc == d
    ensures ListOk(k, e)
  {
    assert ListOk(h, e);
    hide ArenaOk, LiveOk, IsBlock;
    forall b | b in k.free[e] ensures HasSmall(k, PageOf(b), e) && IsBlock(b, e) && b !in k.live {
      if PageOf(b) != p {
        assert b in h.free[e];
      }
    }
  }

  lemma StepSound(h: Heap, k: Heap, p: nat, d: nat)
    requires Sound(h) && d < DESC_COUNT && |k.free| == DESC_COUNT && Elsewhere(h, k, p, d)
    requires PageOk(k, p, d) && PagesApart(k)
    requires p in h.arenas && h.arenas[p].Small? ==> h.arenas[p].desc == d
    ensures Sound(k)
  {
    forall e | 0 <= e < DESC_COUNT ensures ListOk(k, e) { ElsewhereList(h, k, p, d, e); }
    forall q | q in k.arenas ensures ArenaOk(k, q) { if q != p { ElsewhereArena(h, k, p, d, q); } }
    forall b | b in k.live ensures LiveOk(k, b) { if PageOf(b) != p { assert LiveOk(h, b); } }
  }

  lemma SamePagesApart(h: Heap, k: Heap)
    requires PagesApart(h)
    requires forall q :: q in k.arenas ==> q in h.arenas && PageCount(k.arenas[q]) == PageCount(h.arenas[q])
    ensures PagesApart(k)
  {
  }

  lemma SoundParts(h: Heap, d: nat)
    requires Sound(h) && d < DESC_COUNT
    ensures ListOk(h, d) && PagesApart(h) && |h.free| == DESC_COUNT
  {
  }

  lemma SoundPage(h: Heap, p: nat)
    requires Sound(h) && p in h.arenas
    ensures |h.free| == DESC_COUNT && ArenaOk(h, p)
    ensures forall b :: b in h.live ==> LiveOk(h, b)
  {
  }

  // ---------------------------------------------------------------- each step

  /** A page that has no arena has no blocks. */
  lemma EmptyPage(h: Heap, p: nat)
    requires Sound(h) && p !in h.arenas
    ensures forall b :: b in h.live ==> PageOf(b) != p
    ensures forall e, b :: 0 <= e < DESC_COUNT && b in h.free[e] ==> PageOf(b) != p
  {
    forall b | b in h.live ensures PageOf(b) != p { assert LiveOk(h, b); }
    forall e, b | 0 <= e < DESC_COUNT && b in h.free[e] ensures PageOf(b) != p { assert ListOk(h, e); }
  }

  /** The blocks of an arena are distinct and in its page. */
  lemma ArenaBlocks(p: nat, d: nat)
    requires d < DESC_COUNT
    ensures var r := Blocks(p, d, BlocksPerArena(d));
            Distinct(r) && forall b :: b in r ==> PageOf(b) == p && IsBlock(b, d)
  {
    var n := BlocksPerArena(d);
    var r := Blocks(p, d, n);
    forall i, j | 0 <= i < j < n ensures r[i] != r[j] { BlockFindsArena(p, d, i); }
    forall b | b in r ensures PageOf(b) == p && IsBlock(b, d) {
      var i :| 0 <= i < n && r[i] == b;
      BlockFindsArena(p, d, i);
    }
  }

  lemma JoinDistinct(q: seq<nat>, r: seq<nat>, p: nat)
    requires Distinct(q) && Distinct(r)
    requires (forall b :: b in q ==> PageOf(b) != p) && (forall b :: b in r ==> PageOf(b) == p)
    ensures Distinct(q + r)
  {
    var s := q + r;
    forall i, j | 0 <= i < j < |s| ensures s[i] != s[j] {
      if i < |q| <= j {
        assert s[i] in q && s[j] in r;
      }
    }
  }

  lemma NewArenaSound(h: Heap, p: nat, d: nat)
    requires Sound(h) && d < DESC_COUNT && FreshPages(h, p, 1)
    ensures Sound(NewArena(h, p, d)) && p !in h.arenas
  {
    var k := NewArena(h, p, d);
    assert p !in h.arenas by { assert p in h.arenas ==> ArenaOk(h, p); }
    EmptyPage(h, p);
    ArenaBlocks(p, d);
    assert ListOk(h, d);
    JoinDistinct(h.free[d], Blocks(p, d, BlocksPerArena(d)), p);
    assert PagesApart(k);
    hide Sound, Distinct, IsBlock, LiveOk;
    NewArenaCount(h, p, d);
    StepSound(h, k, p, d);
  }

  lemma NewArenaCount(h: Heap, p: nat, d: nat)
    requires d < DESC_COUNT && |h.free| == DESC_COUNT
    ensures ArenaOk(NewArena(h, p, d), p)
  {
    var k, n := NewArena(h, p, d), BlocksPerArena(d);
    var r := Blocks(p, d, n);
    forall i | 0 <= i < n ensures BlockAt(p, d, i) in k.free[d] { assert r[i] in r; }
    assert FreeBlocks(k, p, d) == Range(n);
  }

  /** The head of a free list. */
  lemma HeadOfList(h: Heap, d: nat)
    requires Sound(h) && d < DESC_COUNT && h.free[d] != []
    ensures var b := h.free[d][0];
            && HasSmall(h, PageOf(b), d) && IsBlock(b, d) && b !in h.live && b !in h.free[d][1..]
            && h.arenas[PageOf(b)].freeCount > 0
  {
    var b := h.free[d][0];
    assert ListOk(h, d) && b in h.free[d];
    assert ArenaOk(h, PageOf(b));
    var i :| 0 <= i < BlocksPerArena(d) && b == BlockAt(PageOf(b), d, i);
    assert i in FreeBlocks(h, PageOf(b), d);
  }

  lemma TailDistinct(q: seq<nat>)
    requires q != [] && Distinct(q)
    ensures Distinct(q[1..]) && forall c :: c in q <==> c == q[0] || c in q[1..]
  {
    assert q == [q[0]] + q[1..];
  }

  lemma SameLive(h: Heap, k: Heap, b: nat)
    requires LiveOk(h, b) && PageOf(b) in k.arenas
    requires h.arenas[PageOf(b)].Small? && k.arenas[PageOf(b)].Small?
    requires k.arenas[PageOf(b)].desc == h.arenas[PageOf(b)].desc
    ensures LiveOk(k, b)
  {
  }

  lemma NowLive(k: Heap, b: nat, d: nat)
    requires d < DESC_COUNT && HasSmall(k, PageOf(b), d) && IsBlock(b, d)
    ensures LiveOk(k, b)
  {
  }

  lemma TakeBlockSound(h: Heap, d: nat, size: nat)
    requires Sound(h) && d < DESC_COUNT && h.free[d] != []
    requires HasSmall(h, PageOf(h.free[d][0]), d) && h.arenas[PageOf(h.free[d][0])].freeCount > 0
    ensures Sound(TakeBlock(h, d, size))
  {
    hide Sound, Distinct, IsBlock, ArenaOk, LiveOk;
    SoundParts(h, d);
    var b := h.free[d][0];
    var p, k := PageOf(b), TakeBlock(h, d, size);
    HeadOfList(h, d);
    SoundPage(h, p);
    TailDistinct(h.free[d]);
    SamePagesApart(h, k);
    TakeBlockCount(h, d, size);
    forall c | c in k.live && PageOf(c) == p ensures LiveOk(k, c) {
      if c != b { SameLive(h, k, c); } else { NowLive(k, b, d); }
    }
    assert PageOk(k, p, d);
    StepSound(h, k, p, d);
  }

  lemma TakeBlockCount(h: Heap, d: nat, size: nat)
    requires |h.free| == DESC_COUNT && d < DESC_COUNT && h.free[d] != []
    requires HasSmall(h, PageOf(h.free[d][0]), d) && h.arenas[PageOf(h.free[d][0])].freeCount > 0
    requires ArenaOk(h, PageOf(h.free[d][0])) && IsBlock(h.free[d][0], d)
    requires h.free[d][0] !in h.free[d][1..]
    ensures ArenaOk(TakeBlock(h, d, size), PageOf(h.free[d][0]))
  {
    var b := h.free[d][0];
    var p, k := PageOf(b), TakeBlock(h, d, size);
    var i :| 0 <= i < BlocksPerArena(d) && b == BlockAt(p, d, i);
    BlockFindsArena(p, d, i);
    assert h.free[d] == [b] + h.free[d][1..];
    assert FreeBlocks(h, p, d) == FreeBlocks(k, p, d) + {i};
    assert i !in FreeBlocks(k, p, d);
  }

  /** What the source's caller of `free` promises, and what follows for a block of a descriptor. */
  lemma LiveSmall(h: Heap, b: nat)
    requires Sound(h) && b in h.live && PageOf(b) in h.arenas && h.arenas[PageOf(b)].Small?
    ensures var d := h.arenas[PageOf(b)].desc;
            d < DESC_COUNT && HasSmall(h, PageOf(b), d) && IsBlock(b, d) && b !in h.free[d]
  {
    assert LiveOk(h, b);
    var d := h.arenas[PageOf(b)].desc;
    assert ListOk(h, d);
  }

  lemma PutBackSound(h: Heap, b: nat, d: nat)
    requires Sound(h) && b in h.live && d < DESC_COUNT && HasSmall(h, PageOf(b), d)
    ensures Sound(PutBack(h, b, d))
  {
    hide Sound, Distinct, IsBlock, ArenaOk, LiveOk;
    SoundParts(h, d);
    var p, k := PageOf(b), PutBack(h, b, d);
    LiveSmall(h, b);
    SoundPage(h, p);
    SamePagesApart(h, k);
    ConsDistinct(b, h.free[d]);
    assert forall c :: c in k.free[d] <==> c == b || c in h.free[d];
    PutBackCount(h, b, d);
    forall c | c in k.live && PageOf(c) == p ensures LiveOk(k, c) { SameLive(h, k, c); }
    assert PageOk(k, p, d);
    StepSound(h, k, p, d);
  }

  lemma ConsDistinct(b: nat, q: seq<nat>)
    requires Distinct(q) && b !in q
    ensures Distinct([b] + q)
  {
    var s := [b] + q;
    forall i, j | 0 <= i < j < |s| ensures s[i] != s[j] { assert s[j] in q; }
  }

  lemma PutBackCount(h: Heap, b: nat, d: nat)
    requires |h.free| == DESC_COUNT && d < DESC_COUNT && HasSmall(h, PageOf(b), d)
    requires ArenaOk(h, PageOf(b)) && IsBlock(b, d) && b !in h.free[d]
    ensures ArenaOk(PutBack(h, b, d), PageOf(b))
  {
    var p, k := PageOf(b), PutBack(h, b, d);
    var i :| 0 <= i < BlocksPerArena(d) && b == BlockAt(p, d, i);
    BlockFindsArena(p, d, i);
    assert FreeBlocks(k, p, d) == FreeBlocks(h, p, d) + {i};
    assert i !in FreeBlocks(h, p, d);
  }

  /** When the count reaches the number of blocks, all of them are free and none is live. */
  lemma WhollyFree(h: Heap, p: nat, d: nat)
    requires Sound(h) && d < DESC_COUNT && HasSmall(h, p, d) && h.arenas[p].freeCount >= BlocksPerArena(d)
    ensures h.arenas[p].freeCount == BlocksPerArena(d)
    ensures forall i :: 0 <= i < BlocksPerArena(d) ==> BlockAt(p, d, i) in h.free[d]
    ensures forall b :: b in h.live ==> PageOf(b) != p
  {
    assert ArenaOk(h, p) && ListOk(h, d);
    var n := BlocksPerArena(d);
    var s := FreeBlocks(h, p, d);
    assert s <= Range(n);
    Whole(s, n);
    forall i | 0 <= i < n ensures BlockAt(p, d, i) in h.free[d] { assert i in Range(n); }
    AllOfThem(h.free[d], p, d);
    forall b | b in h.live ensures PageOf(b) != p { assert LiveOk(h, b); }
  }

  lemma AllOfThem(q: seq<nat>, p: nat, d: nat)
    requires d < DESC_COUNT && forall i :: 0 <= i < BlocksPerArena(d) ==> BlockAt(p, d, i) in q
    ensures forall b :: IsBlock(b, d) && PageOf(b) == p ==> b in q
  {
  }

  lemma Whole(s: set<nat>, n: nat)
    requires s <= Range(n) && |s| >= n
    ensures s == Range(n) && |s| == n
  {
    var rest := Range(n) - s;
    assert Range(n) == s + rest;
    assert |Range(n)| == |s| + |rest|;
  }

  lemma {:induction false} OffPageDistinct(q: seq<nat>, p: nat)
    requires Distinct(q)
    ensures Distinct(OffPage(q, p))
    decreases |q|
  {
    if q != [] {
      OffPageDistinct(q[1..], p);
      if PageOf(q[0]) != p { ConsDistinct(q[0], OffPage(q[1..], p)); }
    }
  }

  lemma DropArenaSound(h: Heap, p: nat, d: nat)
    requires Sound(h) && d < DESC_COUNT && HasSmall(h, p, d) && h.arenas[p].freeCount >= BlocksPerArena(d)
    ensures Sound(DropArena(h, p, d))
  {
    var k := DropArena(h, p, d);
    WhollyFree(h, p, d);
    assert ListOk(h, d);
    OffPageDistinct(h.free[d], p);
    SamePagesApart(h, k);
    hide Sound, Distinct, IsBlock, ArenaOk, LiveOk;
    assert PageOk(k, p, d);
    StepSound(h, k, p, d);
  }

  lemma NewBigPage(h: Heap, p: nat, n: nat, size: nat)
    requires Sound(h) && p !in h.arenas && n > 0
    ensures PageOk(AddBig(h, p, n, size), p, 0)
  {
    hide BigBlock, PageOf, Distinct, IsBlock;
    EmptyPage(h, p);
    BigBlockPage(p);
    SoundParts(h, 0);
  }

  lemma AddBigSound(h: Heap, p: nat, n: nat, size: nat)
    requires Sound(h) && FreshPages(h, p, n)
    ensures Sound(AddBig(h, p, n, size)) && p !in h.arenas && BigBlock(p) !in h.live
  {
    hide BigBlock, PageOf, ListOk, LiveOk;
    var k := AddBig(h, p, n, size);
    assert p !in h.arenas by { assert p in h.arenas ==> ArenaOk(h, p); }
    EmptyPage(h, p);
    BigBlockPage(p);
    assert PagesApart(k);
    hide Sound, PagesApart;
    NewBigPage(h, p, n, size);
    StepSound(h, k, p, 0);
  }

  /** The only block of a big arena is its own. */
  lemma OnlyBig(h: Heap, p: nat)
    requires Sound(h) && p in h.arenas && h.arenas[p].Big?
    ensures forall e, b :: 0 <= e < DESC_COUNT && b in h.free[e] ==> PageOf(b) != p
    ensures forall b :: b in h.live && b != BigBlock(p) ==> PageOf(b) != p
  {
    forall e, b | 0 <= e < DESC_COUNT && b in h.free[e] ensures PageOf(b) != p { assert ListOk(h, e); }
    forall b | b in h.live && b != BigBlock(p) ensures PageOf(b) != p { assert LiveOk(h, b); }
  }

  lemma RemoveBigSound(h: Heap, p: nat)
    requires Sound(h) && p in h.arenas && h.arenas[p].Big?
    ensures Sound(RemoveBig(h, p))
  {
    hide Sound, BigBlock, PageOf, Distinct, IsBlock, ArenaOk, LiveOk;
    var k := RemoveBig(h, p);
    BigBlockPage(p);
    SoundParts(h, 0);
    OnlyBig(h, p);
    SamePagesApart(h, k);
    assert PageOk(k, p, 0);
    StepSound(h, k, p, 0);
  }
}
