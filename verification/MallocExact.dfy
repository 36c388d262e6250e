/** Exactly when `malloc` succeeds, which block it hands out, and what `free` gives back. */
module MallocExact {
  import opened Wrappers
  import opened MallocLayout
  import opened MallocModel
  import opened MallocSteps
  import opened MallocTheorems

  /** `d` is the descriptor with the smallest blocks that hold `size` bytes. */
  ghost predicate Smallest(d: nat, size: nat) {
    d < DESC_COUNT && size <= BlockSize(d) && forall c :: 0 <= c < d ==> BlockSize(c) < size
  }

  /** There is exactly one for a request of up to 1024 bytes, and the loop of `malloc` finds it. */
  lemma SmallestIs(size: nat)
    ensures size <= 1024 ==> Smallest(Descriptor(size), size)
    ensures forall d: nat :: Smallest(d, size) ==> size <= 1024 && d == Descriptor(size)
  {
  }

  /** A big request asks for as few pages as hold it and the header, as long as nothing overflows. */
  lemma FewestPages(size: nat)
    requires size + ARENA_HEADER + PAGE_SIZE <= SIZE_MODULUS
    ensures (PagesFor(size) - 1) * PAGE_SIZE < size + ARENA_HEADER <= PagesFor(size) * PAGE_SIZE
  {
  }

  /** None was asked for, or the request is big and no pages are asked for or granted, or it is small, the list of the
      smallest blocks that hold it is empty and no page is granted. */
  ghost predicate Refused(h: Heap, size: nat, page: Option<nat>)
    requires |h.free| == DESC_COUNT
  {
    || size == 0
    || (size > 1024 && (PagesFor(size) == 0 || page.None?))
    || (size <= 1024 && page.None? && forall d: nat :: Smallest(d, size) ==> h.free[d] == [])
  }

  /** `malloc` returns no block in exactly these cases. */
  lemma RefusedExactly(h: Heap, size: nat, page: Option<nat>)
    requires Sound(h) && Granted(h, size, page) && |h.free| == DESC_COUNT
    ensures Malloc(h, size, page).1.None? <==> Refused(h, size, page)
  {
    SmallestIs(size);
    hide Sound, FreshPages, PagesFor;
  }

  ghost predicate OnlyList(h: Heap, k: Heap, d: nat, p: nat) {
    && |h.free| == |k.free| == DESC_COUNT
    && (forall e :: 0 <= e < DESC_COUNT && e != d ==> k.free[e] == h.free[e])
    && (forall q :: q in h.arenas && q != p ==> q in k.arenas && k.arenas[q] == h.arenas[q])
    && (forall q :: q in k.arenas && q != p ==> q in h.arenas)
  }

  /** A small block has the smallest size that holds the request.  If the free list of that size has a block, its head
      is taken; no other list, arena or block changes. */
  lemma ListedBlock(h: Heap, size: nat, page: Option<nat>, d: nat)
    requires Sound(h) && Granted(h, size, page) && 0 < size && Smallest(d, size)
    requires |h.free| == DESC_COUNT && h.free[d] != []
    ensures var (k, r) := Malloc(h, size, page);
            && r == Some(h.free[d][0])
            && var p := PageOf(r.value);
               && k.live == h.live[r.value := size] && OnlyList(h, k, d, p) && k.free[d] == h.free[d][1..]
               && HasSmall(h, p, d) && HasSmall(k, p, d) && k.arenas[p].freeCount == h.arenas[p].freeCount - 1
  {
    SmallestIs(size);
    hide Sound, Smallest, Descriptor, PageOf;
    HeadOfList(h, d);
  }

  /** If the list is empty and a page is granted, that becomes an arena; its first block is taken and the others are the
      list, in order of address. */
  lemma NewArenaBlock(h: Heap, size: nat, p: nat, d: nat)
    requires Sound(h) && Granted(h, size, Some(p)) && 0 < size && Smallest(d, size)
    requires |h.free| == DESC_COUNT && h.free[d] == []
    ensures var (k, r) := Malloc(h, size, Some(p));
            && r == Some(p * PAGE_SIZE + ARENA_HEADER)
            && k.live == h.live[r.value := size] && OnlyList(h, k, d, p) && p !in h.arenas && HasSmall(k, p, d)
            && |k.free[d]| == k.arenas[p].freeCount == (PAGE_SIZE - ARENA_HEADER) / BlockSize(d) - 1
            && forall i :: 0 <= i < |k.free[d]| ==> k.free[d][i] == r.value + (i + 1) * BlockSize(d)
  {
    SmallestIs(size);
    hide Sound, Smallest, Descriptor;
    NewArenaSound(h, p, d);
    HeadOfList(NewArena(h, p, d), d);
    FirstOfNew(h, p, d);
    BlockFindsArena(p, d, 0);
    hide PageOf;
    Spread(p, d);
  }

  lemma Spread(p: nat, d: nat)
    requires d < DESC_COUNT
    ensures BlockAt(p, d, 0) == p * PAGE_SIZE + ARENA_HEADER
    ensures forall i: nat :: BlockAt(p, d, i) == BlockAt(p, d, 0) + i * BlockSize(d)
  {
  }

  /** A big block starts behind the header of the pages granted; the arena records as many as were asked for. */
  lemma BigBlockExactly(h: Heap, size: nat, p: nat)
    requires Sound(h) && Granted(h, size, Some(p)) && size > 1024 && PagesFor(size) > 0
    ensures var (k, r) := Malloc(h, size, Some(p));
            && r == Some(p * PAGE_SIZE + ARENA_HEADER) && k.free == h.free && k.live == h.live[r.value := size]
            && k.arenas == h.arenas[p := Big(PagesFor(size))]
  {
    hide Sound, FreshPages, PagesFor;
  }

  // ---------------------------------------------------------------- free

  /** All blocks of the arena other than `b` are free. */
  ghost predicate LastInUse(h: Heap, b: nat, d: nat)
    requires d < DESC_COUNT && |h.free| == DESC_COUNT
  {
    forall i :: 0 <= i < BlocksPerArena(d) && BlockAt(PageOf(b), d, i) != b ==> BlockAt(PageOf(b), d, i) in h.free[d]
  }

  /** What is left of a list is in the order it was. */
  ghost predicate SameOrder(r: seq<nat>, q: seq<nat>) {
    forall i, j :: 0 <= i < j < |r| ==> Ahead(q, r[i], r[j])
  }

  ghost predicate Ahead(q: seq<nat>, x: nat, y: nat) {
    exists a, b :: 0 <= a < b < |q| && q[a] == x && q[b] == y
  }

  lemma {:induction false} OffPageOrder(q: seq<nat>, p: nat)
    ensures SameOrder(OffPage(q, p), q)
    decreases |q|
  {
    if q != [] {
      OffPageOrder(q[1..], p);
      var r := OffPage(q[1..], p);
      assert OffPage(q, p) == r || OffPage(q, p) == [q[0]] + r;
      assert forall b :: b in r ==> b in q[1..];
      hide OffPage, PageOf;
      OneMore(r, q);
    }
  }

  lemma OneMore(r: seq<nat>, q: seq<nat>)
    requires q != [] && SameOrder(r, q[1..]) && forall b :: b in r ==> b in q[1..]
    ensures SameOrder(r, q) && SameOrder([q[0]] + r, q)
  {
    forall x, y | Ahead(q[1..], x, y) ensures Ahead(q, x, y) {
      var a, b :| 0 <= a < b < |q[1..]| && q[1..][a] == x && q[1..][b] == y;
      assert q[a + 1] == x && q[b + 1] == y;
    }
    forall y | y in r ensures Ahead(q, q[0], y) {
      var b :| 0 <= b < |q[1..]| && q[1..][b] == y;
      assert q[b + 1] == y;
    }
    hide Ahead;
    var s := [q[0]] + r;
    forall i, j | 0 <= i < j < |s| ensures Ahead(q, s[i], s[j]) {
      assert s[j] == r[j - 1];
      if i > 0 { assert Ahead(q[1..], r[i - 1], r[j - 1]); }
    }
  }

  lemma OffPageHead(b: nat, q: seq<nat>, p: nat)
    requires PageOf(b) == p
    ensures OffPage([b] + q, p) == OffPage(q, p)
  {
    assert ([b] + q)[1..] == q;
  }

  /** A small block that is freed goes to the front of its list, unless it was the last in use of its arena: then the
      arena is given back and none of its blocks is left on the list.  No other list, arena or block changes. */
  lemma SmallFreed(h: Heap, b: nat, d: nat)
    requires Sound(h) && b in h.live && |h.free| == DESC_COUNT && HasSmall(h, PageOf(b), d) && d < DESC_COUNT
    ensures var k, p := Free(h, b), PageOf(b);
            && k.live == h.live - {b} && OnlyList(h, k, d, p)
            && (p in k.arenas <==> !LastInUse(h, b, d))
            && (p in k.arenas ==> k.free[d] == [b] + h.free[d] && HasSmall(k, p, d)
                                  && k.arenas[p].freeCount == h.arenas[p].freeCount + 1)
            && (p !in k.arenas ==> SameOrder(k.free[d], h.free[d])
                                   && forall x :: x in k.free[d] <==> x in h.free[d] && PageOf(x) != p)
  {
    hide Sound, PageOf, IsBlock, LastInUse, BlocksPerArena, LiveOk;
    var p, k := PageOf(b), PutBack(h, b, d);
    FreedCount(h, b, d);
    FreedIs(h, b, d);
    assert OnlyList(h, k, d, p);
    if LastInUse(h, b, d) {
      assert forall x :: x in OffPage(k.free[d], p) <==> x in h.free[d] && PageOf(x) != p;
      OffPageOrder(h.free[d], p);
      OffPageHead(b, h.free[d], p);
    }
  }

  lemma FreedIs(h: Heap, b: nat, d: nat)
    requires Sound(h) && b in h.live && |h.free| == DESC_COUNT && HasSmall(h, PageOf(b), d) && d < DESC_COUNT
    ensures var k, p := PutBack(h, b, d), PageOf(b);
            Free(h, b) == if h.arenas[p].freeCount + 1 >= BlocksPerArena(d) then DropArena(k, p, d) else k
  {
    hide Sound, PageOf, BlocksPerArena, LiveOk, OffPage;
  }

  lemma FreedCount(h: Heap, b: nat, d: nat)
    requires Sound(h) && b in h.live && |h.free| == DESC_COUNT && HasSmall(h, PageOf(b), d) && d < DESC_COUNT
    ensures h.arenas[PageOf(b)].freeCount + 1 >= BlocksPerArena(d) <==> LastInUse(h, b, d)
  {
    hide *;
    var j := LivePlace(h, b, d);
    LastIs(h, b, d, j);
    AllButOne(FreeBlocks(h, PageOf(b), d), BlocksPerArena(d), j);
  }

  lemma AllButOne(s: set<nat>, n: nat, j: nat)
    requires j < n && j !in s && forall i :: i in s ==> i < n
    ensures |s| + 1 >= n <==> forall i :: 0 <= i < n && i != j ==> i in s
  {
    var others := Range(n) - {j};
    assert Range(n) == others + {j};
    assert others == s + (others - s);
  }

  lemma LastIs(h: Heap, b: nat, d: nat, j: nat)
    requires d < DESC_COUNT && |h.free| == DESC_COUNT
    requires b == BlockAt(PageOf(b), d, j)
    requires forall i :: 0 <= i < BlocksPerArena(d) && i != j ==> BlockAt(PageOf(b), d, i) != b
    ensures forall i :: i in FreeBlocks(h, PageOf(b), d) ==> i < BlocksPerArena(d)
    ensures LastInUse(h, b, d)
       <==> forall i :: 0 <= i < BlocksPerArena(d) && i != j ==> i in FreeBlocks(h, PageOf(b), d)
  {
    hide PageOf, BlocksPerArena, BlockAt;
    forall i: nat | i < BlocksPerArena(d)
      ensures i in FreeBlocks(h, PageOf(b), d) <==> BlockAt(PageOf(b), d, i) in h.free[d]
    {
    }
    if LastInUse(h, b, d) {
      forall i: nat | i < BlocksPerArena(d) && i != j ensures i in FreeBlocks(h, PageOf(b), d) {
        assert BlockAt(PageOf(b), d, i) != b;
      }
    }
  }

  /** The place of a live block in its arena: the arena counts the free ones, which are others. */
  lemma LivePlace(h: Heap, b: nat, d: nat) returns (j: nat)
    requires Sound(h) && b in h.live && |h.free| == DESC_COUNT && HasSmall(h, PageOf(b), d) && d < DESC_COUNT
    ensures j < BlocksPerArena(d) && b == BlockAt(PageOf(b), d, j) && j !in FreeBlocks(h, PageOf(b), d)
    ensures h.arenas[PageOf(b)].freeCount == |FreeBlocks(h, PageOf(b), d)|
    ensures forall i :: 0 <= i < BlocksPerArena(d) && i != j ==> BlockAt(PageOf(b), d, i) != b
  {
    var p := PageOf(b);
    assert LiveOk(h, b) && ArenaOk(h, p) && ListOk(h, d);
    hide Sound;
    j :| 0 <= j < BlocksPerArena(d) && b == BlockAt(p, d, j);
    BlockFindsArena(p, d, j);
  }

  /** The pages of a big block are given back. */
  lemma BigFreed(h: Heap, b: nat)
    requires Sound(h) && b in h.live && PageOf(b) in h.arenas && h.arenas[PageOf(b)].Big?
    ensures var k := Free(h, b);
            k.live == h.live - {b} && k.free == h.free && k.arenas == h.arenas - {PageOf(b)}
  {
    assert LiveOk(h, b);
  }
}
