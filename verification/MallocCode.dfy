/** The allocator as it updates its free lists, arenas and memory. */
module MallocCode {
  import opened Wrappers
  import opened MallocLayout
  import opened MallocModel
  import opened MallocSteps
  import opened MallocTheorems
  import opened MallocExact

  lemma DescriptorIs(size: nat, d: nat)
    requires d <= DESC_COUNT && (d < DESC_COUNT ==> BlockSize(d) >= size)
    requires forall c :: 0 <= c < d ==> BlockSize(c) < size
    ensures d == Descriptor(size)
  {
    var e := Descriptor(size);
    assert d > 0 ==> BlockSize(d - 1) < size;
  }

  /** `list_remove` of a block from the list that holds it once. */
  function Minus(q: seq<nat>, b: nat): seq<nat> {
    if q == [] then [] else (if q[0] == b then [] else [q[0]]) + Minus(q[1..], b)
  }

  lemma {:induction false} MinusMembers(q: seq<nat>, b: nat)
    ensures forall c :: c in Minus(q, b) <==> c in q && c != b
    decreases |q|
  {
    if q != [] {
      MinusMembers(q[1..], b);
      assert q == [q[0]] + q[1..];
    }
  }

  lemma {:induction false} MinusOffPage(q: seq<nat>, b: nat, p: nat)
    requires PageOf(b) == p
    ensures OffPage(Minus(q, b), p) == OffPage(q, p)
    decreases |q|
  {
    hide PageOf;
    if q != [] {
      MinusOffPage(q[1..], b, p);
      var m := Minus(q[1..], b);
      if q[0] == b {
        assert Minus(q, b) == m;
      } else {
        assert Minus(q, b) == [q[0]] + m;
        assert ([q[0]] + m)[1..] == m;
      }
    }
  }

  lemma {:induction false} NoneOnPage(q: seq<nat>, p: nat)
    requires forall b :: b in q ==> PageOf(b) != p
    ensures OffPage(q, p) == q
    decreases |q|
  {
    if q != [] {
      assert q[0] in q;
      NoneOnPage(q[1..], p);
    }
  }

  /** The loop in `free` that takes all blocks of an arena off the list. */
  method RemoveBlocks(q: seq<nat>, p: nat, d: nat) returns (r: seq<nat>)
    requires d < DESC_COUNT && forall b :: b in q && PageOf(b) == p ==> IsBlock(b, d)
    ensures r == OffPage(q, p)
  {
    r := q;
    var i := 0;
    while i < BlocksPerArena(d)
      invariant i <= BlocksPerArena(d) && OffPage(r, p) == OffPage(q, p)
      invariant forall b :: b in r ==> b in q && forall k :: 0 <= k < i ==> b != BlockAt(p, d, k)
    {
      BlockFindsArena(p, d, i);
      MinusMembers(r, BlockAt(p, d, i));
      MinusOffPage(r, BlockAt(p, d, i), p);
      r := Minus(r, BlockAt(p, d, i));
      i := i + 1;
    }
    NoneOnPage(r, p);
  }

  /** The loop in `malloc` that puts the blocks of a new arena on the list. */
  method AddBlocks(q: seq<nat>, p: nat, d: nat) returns (r: seq<nat>)
    requires d < DESC_COUNT
    ensures r == q + Blocks(p, d, BlocksPerArena(d))
  {
    r := q;
    var i := 0;
    while i < BlocksPerArena(d)
      invariant i <= BlocksPerArena(d) && r == q + Blocks(p, d, i)
    {
      r := r + [BlockAt(p, d, i)];
      i := i + 1;
    }
  }

  // ---------------------------------------------------------------- memory

  type Memory = map<nat, nat>

  /** The byte at address `a`; memory that was never written may hold anything, here zero. */
  function Byte(m: Memory, a: nat): nat {
    if a in m then m[a] else 0
  }

  function Bytes(m: Memory, a: nat, n: nat): (r: seq<nat>)
    ensures |r| == n
  {
    if n == 0 then [] else Bytes(m, a, n - 1) + [Byte(m, a + n - 1)]
  }

  ghost predicate SameOutside(m: Memory, m': Memory, lo: nat, n: nat) {
    forall a: nat :: !(lo <= a < lo + n) ==> Byte(m', a) == Byte(m, a)
  }

  lemma {:induction false} BytesSame(m: Memory, m': Memory, lo: nat, k: nat, a: nat, n: nat)
    requires SameOutside(m, m', lo, k) && (a + n <= lo || lo + k <= a)
    ensures Bytes(m', a, n) == Bytes(m, a, n)
    decreases n
  {
    if n > 0 { BytesSame(m, m', lo, k, a, n - 1); }
  }

  class Allocator {
    var arenas: map<nat, Arena>
    var free: seq<seq<nat>>
    var mem: Memory
    ghost var live: map<nat, nat>

    ghost function View(): Heap
      reads this
    {
      Heap(arenas, free, live)
    }

    /** A new arena for descriptor `d`. */
    method NewArenaFor(d: nat, page: nat)
      requires d < DESC_COUNT && |free| == DESC_COUNT
      modifies this`arenas, this`free
      ensures View() == NewArena(old(View()), page, d)
    {
      arenas := arenas[page := Small(d, BlocksPerArena(d))];
      var q := AddBlocks(free[d], page, d);
      free := free[d := q];
    }

    /** The first block of a free list. */
    method PopBlock(d: nat, size: nat) returns (b: nat)
      requires d < DESC_COUNT && |free| == DESC_COUNT && free[d] != [] && HasSmall(View(), PageOf(free[d][0]), d)
      requires arenas[PageOf(free[d][0])].freeCount > 0
      modifies this`arenas, this`free, this`live
      ensures View() == TakeBlock(old(View()), d, size) && b == old(free)[d][0]
    {
      b := free[d][0];
      var p := PageOf(b);
      free := free[d := free[d][1..]];
      arenas := arenas[p := Small(d, arenas[p].freeCount - 1)];
      live := live[b := size];
    }

    method MallocBlock(size: nat, page: Option<nat>) returns (r: Option<nat>)
      requires Valid(View()) && size < SIZE_MODULUS && Granted(View(), size, page)
      modifies this`arenas, this`free, this`live
      ensures (View(), r) == Malloc(old(View()), size, page)
      ensures |old(free)| == DESC_COUNT && (r.None? <==> Refused(old(View()), size, page))
    {
      hide Valid, Sound, Granted, PagesFor, TakeBlock, NewArena, HasSmall, Refused;
      ghost var h := View();
      ValidSound(h);
      SoundParts(h, 0);
      RefusedExactly(h, size, page);
      if size == 0 {
        return None;
      }
      var d := FindDescriptor(size);
      DescriptorIs(size, d);
      if d == DESC_COUNT {
        var pageCount := PagesFor(size);
        if pageCount == 0 || page.None? {
          return None;
        }
        arenas := arenas[page.value := Big(pageCount)];
        live := live[BigBlock(page.value) := size];
        return Some(BigBlock(page.value));
      }
      if free[d] == [] {
        if page.None? {
          return None;
        }
        GrantedNew(h, size, page.value);
        NewArenaSound(h, page.value, d);
        NewArenaFor(d, page.value);
        SoundParts(View(), d);
        FirstOfNew(h, page.value, d);
      }
      HeadOfList(View(), d);
      var b := PopBlock(d, size);
      r := Some(b);
    }

    /** `memset` of `n` bytes from `b` on. */
    method Fill(b: nat, n: nat, value: nat)
      modifies this`mem
      ensures SameOutside(old(mem), mem, b, n) && forall a: nat :: b <= a < b + n ==> Byte(mem, a) == value
    {
      var i := 0;
      while i < n
        invariant i <= n && SameOutside(old(mem), mem, b, n)
        invariant forall a: nat :: b <= a < b + i ==> Byte(mem, a) == value
      {
        ghost var m := mem;
        mem := mem[b + i := value];
        assert forall a: nat :: b <= a < b + i ==> Byte(mem, a) == Byte(m, a);
        i := i + 1;
      }
    }

    method FreeBlock(b: nat)
      requires Valid(View()) && b in live
      modifies this
      ensures View() == Free(old(View()), b)
      ensures PageOf(b) in old(arenas) && LiveOk(old(View()), b)
      ensures SameOutside(old(mem), mem, b, Capacity(old(View()), b))
      ensures old(arenas)[PageOf(b)].Small? ==>
                forall a: nat :: b <= a < b + Capacity(old(View()), b) ==> Byte(mem, a) == 0xCC
    {
      hide Valid, Sound, IsBlock, OffPage, SameOutside;
      ghost var h := View();
      ValidSound(h);
      LiveIsOk(h, b);
      var p := PageOf(b);
      if arenas[p].Small? {
        var d := arenas[p].desc;
        Fill(b, BlockSize(d), 0xCC);
        free := free[d := [b] + free[d]];
        arenas := arenas[p := Small(d, arenas[p].freeCount + 1)];
        live := live - {b};
        PutBackSound(h, b, d);
        if arenas[p].freeCount >= BlocksPerArena(d) {
          SoundParts(View(), d);
          var q := RemoveBlocks(free[d], p, d);
          free := free[d := q];
          arenas := arenas - {p};
        }
      } else {
        NothingWritten(mem, b, Capacity(h, b));
        arenas := arenas - {p};
        live := live - {b};
      }
    }

    /** `memcpy` of `n` bytes. */
    method Copy(from: nat, to: nat, n: nat)
      requires from + n <= to || to + n <= from
      modifies this`mem
      ensures Bytes(mem, to, n) == Bytes(old(mem), from, n) && SameOutside(old(mem), mem, to, n)
    {
      var i := 0;
      while i < n
        invariant i <= n && SameOutside(old(mem), mem, to, i)
        invariant Bytes(mem, to, i) == Bytes(old(mem), from, i)
      {
        var byte := Byte(mem, from + i);
        ghost var m := mem;
        mem := mem[to + i := byte];
        assert SameOutside(m, mem, to + i, 1);
        BytesSame(m, mem, to + i, 1, to, i);
        i := i + 1;
      }
    }

    /** `block_size`. */
    method SizeOf(b: nat) returns (n: nat)
      requires Valid(View()) && b in live && LiveOk(View(), b)
      ensures n == Capacity(View(), b)
    {
      var a := arenas[PageOf(b)];
      n := if a.Small? then BlockSize(a.desc) else PAGE_SIZE * a.pages - b % PAGE_SIZE;
    }

    /** `realloc` to a nonzero size of a block that is live: the block moves and keeps its first bytes, and the bytes
        of all other live blocks stay, whenever the copy fits the new block (`CopyFitsExactly` says when). */
    method Move(b: nat, size: nat, page: Option<nat>) returns (r: Option<nat>)
      requires Valid(View()) && b in live && 0 < size < SIZE_MODULUS && Granted(View(), size, page)
      requires Malloc(View(), size, page).1.Some? ==> CopyFits(View(), b, size)
      modifies this
      ensures Valid(View()) && View() == Moved(old(View()), b, size, page) && r == Malloc(old(View()), size, page).1
      ensures Kept(old(View()), View(), old(mem), mem, b, size, r)
    {
      hide Valid, Sound, Granted, LiveOk, Malloc, Capacity, Kept, Free, SameOutside, Bytes;
      ghost var h, m := View(), mem;
      MallocValid(h, size, page);
      r := MallocBlock(size, page);
      if r.None? {
        NothingKept(h, m, b, size);
        return;
      }
      ghost var k := View();
      ValidSound(k);
      CopyFitsExactly(h, b, size, page);
      Apart(k, b, r.value);
      forall c | c in h.live ensures SameCapacity(h, k, c) { MallocKeeps(h, size, page, c); }
      assert SameCapacity(h, k, b);
      var oldSize := SizeOf(b);
      var n := if size < oldSize then size else oldSize;
      Copy(b, r.value, n);
      ghost var copied := mem;
      assert View() == k;
      FreeValid(k, b);
      FreeBlock(b);
      AllKept(h, k, View(), m, copied, mem, b, size, r.value, n);
    }

    method Realloc(b: Option<nat>, size: nat, page: Option<nat>) returns (r: Option<nat>)
      requires Valid(View()) && (b.Some? ==> b.value in live)
      requires size < SIZE_MODULUS && Granted(View(), size, page)
      requires b.Some? && Malloc(View(), size, page).1.Some? ==> CopyFits(View(), b.value, size)
      modifies this
      ensures Valid(View()) && View() == Resized(old(View()), b, size, page) && r == Malloc(old(View()), size, page).1
      ensures size == 0 ==> r.None? && live == old(live) - (if b.Some? then {b.value} else {})
      ensures ResizedMemory(old(View()), old(mem), b, size, page, mem)
    {
      hide Valid, Sound, Granted, LiveOk, Capacity, Free, Kept, SameOutside, Descriptor, TakeBlock, NewArena, Moved;
      ghost var h := View();
      ValidSound(h);
      if size == 0 {
        r := None;
        if b.Some? {
          FreeValid(h, b.value);
          FreeBlock(b.value);
        }
        assert b.None? ==> live == old(live) - {};
      } else if b.Some? {
        r := Move(b.value, size, page);
      } else {
        MallocValid(h, size, page);
        r := MallocBlock(size, page);
      }
    }
  }

  /** The heap after `realloc` of a live block to a nonzero size: `malloc`, then `free` of the old block. */
  ghost function Moved(h: Heap, b: nat, size: nat, page: Option<nat>): Heap
    requires Valid(h) && b in h.live && size < SIZE_MODULUS && Granted(h, size, page)
  {
    MallocValid(h, size, page);
    var (k, r) := Malloc(h, size, page);
    if r.None? then h else Free(k, b)
  }

  /** The heap after `realloc`. */
  ghost function Resized(h: Heap, b: Option<nat>, size: nat, page: Option<nat>): Heap
    requires Valid(h) && (b.Some? ==> b.value in h.live) && size < SIZE_MODULUS && Granted(h, size, page)
  {
    if b.None? then Malloc(h, size, page).0
    else if size == 0 then Free(h, b.value)
    else Moved(h, b.value, size, page)
  }

  /** What `realloc` does to memory. */
  ghost predicate ResizedMemory(h: Heap, m: Memory, b: Option<nat>, size: nat, page: Option<nat>, m': Memory)
    requires Valid(h) && (b.Some? ==> b.value in h.live) && size < SIZE_MODULUS && Granted(h, size, page)
  {
    && (b.None? ==> m' == m)
    && (b.Some? && size == 0 ==> LiveOk(h, b.value) && SameOutside(m, m', b.value, Capacity(h, b.value)))
    && (b.Some? && size > 0 ==>
          Kept(h, Moved(h, b.value, size, page), m, m', b.value, size, Malloc(h, size, page).1))
  }

  /** What `realloc` of block `b` promises: refused, nothing changes; granted, `b` is replaced by a block that begins
      with the first bytes of `b`, as many as both can hold, and the other live blocks keep all their bytes. */
  ghost predicate Kept(h: Heap, k: Heap, m: Memory, m': Memory, b: nat, size: nat, r: Option<nat>) {
    && (r.None? ==> k == h && m' == m)
    && (r.Some? ==>
          && r.value !in h.live && k.live == h.live[r.value := size] - {b}
          && LiveOk(h, b)
          && Bytes(m', r.value, Least(size, Capacity(h, b))) == Bytes(m, b, Least(size, Capacity(h, b)))
          && forall c :: c in h.live && c != b ==>
               LiveOk(h, c) && Bytes(m', c, Capacity(h, c)) == Bytes(m, c, Capacity(h, c)))
  }

  function Least(x: nat, y: nat): nat {
    if x < y then x else y
  }

  lemma NothingKept(h: Heap, m: Memory, b: nat, size: nat)
    ensures Kept(h, h, m, m, b, size, None)
  {
  }

  lemma NothingWritten(m: Memory, b: nat, n: nat)
    ensures SameOutside(m, m, b, n)
  {
  }

  ghost predicate SameCapacity(h: Heap, k: Heap, c: nat) {
    LiveOk(h, c) && LiveOk(k, c) && Capacity(k, c) == Capacity(h, c)
  }

  /** `malloc` does not change the capacity of the blocks that are live. */
  lemma MallocKeeps(h: Heap, size: nat, page: Option<nat>, c: nat)
    requires Valid(h) && Granted(h, size, page) && size < SIZE_MODULUS && c in h.live
    ensures SameCapacity(h, Malloc(h, size, page).0, c)
  {
    MallocValid(h, size, page);
    var k := Malloc(h, size, page).0;
    ValidLive(h, c);
    ValidLive(k, c);
    hide Valid, Sound, LiveOk;
    MallocShape(h, size, page, PageOf(c));
    hide Malloc;
  }

  lemma ValidLive(h: Heap, c: nat)
    requires Valid(h) && c in h.live
    ensures LiveOk(h, c)
  {
  }

  lemma MallocShape(h: Heap, size: nat, page: Option<nat>, p: nat)
    requires Sound(h) && Granted(h, size, page) && p in h.arenas
    ensures var k := Malloc(h, size, page).0;
            && p in k.arenas
            && (h.arenas[p].Big? ==> k.arenas[p] == h.arenas[p])
            && (h.arenas[p].Small? ==> k.arenas[p].Small? && k.arenas[p].desc == h.arenas[p].desc)
  {
    hide Sound, FreshPages, PagesFor, BlockAt, PageOf;
    var d := Descriptor(size);
    SoundParts(h, 0);
    if size > 0 {
      if d == DESC_COUNT {
        if PagesFor(size) > 0 && page.Some? { AddBigSound(h, page.value, PagesFor(size), size); }
      } else if h.free[d] != [] {
        HeadOfList(h, d);
      } else if page.Some? {
        NewArenaSound(h, page.value, d);
        HeadOfList(NewArena(h, page.value, d), d);
      }
    }
  }

  /** The size asked for and the header fit 32 bits, or the old block has no more bytes than one page leaves. */
  ghost predicate CopyFits(h: Heap, b: nat, size: nat) {
    LiveOk(h, b) && (size <= SIZE_MODULUS - ARENA_HEADER || Capacity(h, b) <= PAGE_SIZE - ARENA_HEADER)
  }

  /** The bytes `realloc` copies fit the block it has got. */
  ghost predicate Holds(h: Heap, k: Heap, b: nat, r: nat, size: nat) {
    LiveOk(h, b) && LiveOk(k, r) && Least(size, Capacity(h, b)) <= Capacity(k, r)
  }

  /** The bytes `realloc` copies stay inside the new block if and only if the request and the header fit 32 bits or the
      old block has at most 4084 bytes. */
  lemma CopyFitsExactly(h: Heap, b: nat, size: nat, page: Option<nat>)
    requires Valid(h) && b in h.live && 0 < size < SIZE_MODULUS && Granted(h, size, page)
    requires Malloc(h, size, page).1.Some?
    ensures var (k, r) := Malloc(h, size, page);
            Holds(h, k, b, r.value, size) <==> CopyFits(h, b, size)
  {
    MallocValid(h, size, page);
    var (k, r) := Malloc(h, size, page);
    ValidLive(h, b);
    AmpleAt(k, r.value);
    if size > SIZE_MODULUS - ARENA_HEADER { WrappedBlock(h, size, page); }
  }

  /** The heap after `malloc` of 5000 bytes in an empty one, at page 1. */
  function TwoPages(): Heap {
    EmptyHeap().(arenas := map[1 := Big(2)], live := map[4108 := 5000])
  }

  lemma TwoPagesReached()
    ensures Sound(EmptyHeap()) && Granted(EmptyHeap(), 5000, Some(1))
    ensures Malloc(EmptyHeap(), 5000, Some(1)) == (TwoPages(), Some(4108))
    ensures Valid(TwoPages())
  {
    EmptyHeapValid();
    assert PagesFor(5000) == 2;
    MallocValid(EmptyHeap(), 5000, Some(1));
  }

  /** A live block of two pages, and a request for 2^32 - 1 bytes: 8180 bytes are copied into a block of 4084. */
  lemma CopyOverruns()
    ensures var h, size := TwoPages(), SIZE_MODULUS - 1;
            && Valid(h) && Granted(h, size, Some(3)) && LiveOk(h, 4108) && Least(size, Capacity(h, 4108)) == 8180
            && var (k, r) := Malloc(h, size, Some(3));
               r.Some? && LiveOk(k, r.value) && Capacity(k, r.value) == 4084
  {
    var h, size := TwoPages(), SIZE_MODULUS - 1;
    TwoPagesReached();
    assert PagesFor(size) == 1;
    hide Valid, Sound;
    ValidSound(h);
    WrappedBlock(h, size, Some(3));
  }

  lemma AmpleAt(h: Heap, b: nat)
    requires Valid(h) && b in h.live
    ensures LiveOk(h, b) && Ample(h, b)
  {
  }

  lemma WrappedPages(size: nat)
    requires SIZE_MODULUS - ARENA_HEADER < size < SIZE_MODULUS
    ensures PagesFor(size) == 1 && Descriptor(size) == DESC_COUNT
  {
  }

  /** A request that overflows with its header gets one page, which leaves 4084 bytes. */
  lemma WrappedBlock(h: Heap, size: nat, page: Option<nat>)
    requires Valid(h) && Granted(h, size, page) && SIZE_MODULUS - ARENA_HEADER < size < SIZE_MODULUS
    requires Malloc(h, size, page).1.Some?
    ensures var (k, r) := Malloc(h, size, page);
            LiveOk(k, r.value) && Capacity(k, r.value) == PAGE_SIZE - ARENA_HEADER
  {
    hide Valid, Sound, Granted, PagesFor, Descriptor, TakeBlock, NewArena, LiveOk, BigBlock, PageOf, Ample;
    ValidSound(h);
    WrappedPages(size);
    MallocValid(h, size, page);
    AmpleAt(Malloc(h, size, page).0, Malloc(h, size, page).1.value);
    BigBlockPage(page.value);
  }

  lemma AllKept(h: Heap, k: Heap, f: Heap, m: Memory, copied: Memory, m': Memory, b: nat, size: nat, r: nat, n: nat)
    requires Valid(k) && b in h.live && r !in h.live && k.live == h.live[r := size]
    requires Holds(h, k, b, r, size) && f.live == k.live - {b}
    requires forall c :: c in h.live ==> SameCapacity(h, k, c)
    requires LiveOk(k, b) && n == Least(size, Capacity(k, b))
    requires Bytes(copied, r, n) == Bytes(m, b, n) && SameOutside(m, copied, r, n)
    requires SameOutside(copied, m', b, Capacity(k, b))
    ensures Kept(h, f, m, m', b, size, Some(r))
  {
    hide Valid, IsBlock, Capacity, SameOutside, Bytes;
    Apart(k, b, r);
    BytesSame(copied, m', b, Capacity(k, b), r, n);
    assert SameCapacity(h, k, b);
    forall c | c in h.live && c != b
      ensures LiveOk(h, c) && Bytes(m', c, Capacity(h, c)) == Bytes(m, c, Capacity(h, c))
    {
      assert SameCapacity(h, k, c);
      Apart(k, c, r);
      Apart(k, c, b);
      BytesSame(m, copied, r, n, c, Capacity(h, c));
      BytesSame(copied, m', b, Capacity(k, b), c, Capacity(h, c));
    }
  }

  /** Two live blocks share no byte. */
  lemma Apart(k: Heap, b: nat, c: nat)
    requires Valid(k) && b in k.live && c in k.live && b != c
    ensures LiveOk(k, b) && LiveOk(k, c)
    ensures b + Capacity(k, b) <= c || c + Capacity(k, c) <= b
  {
    assert LiveOk(k, b) && LiveOk(k, c);
    if b < c { LiveDisjoint(k, b, c); } else { LiveDisjoint(k, c, b); }
  }

  lemma LiveIsOk(h: Heap, b: nat)
    requires Sound(h) && b in h.live
    ensures LiveOk(h, b)
  {
  }

  lemma ValidSound(h: Heap)
    requires Valid(h)
    ensures Sound(h) && |h.free| == DESC_COUNT
  {
  }

  lemma GrantedNew(h: Heap, size: nat, p: nat)
    requires Granted(h, size, Some(p)) && Descriptor(size) < DESC_COUNT
    ensures FreshPages(h, p, 1)
  {
  }
}
