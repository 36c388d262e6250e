/** Descriptors, arenas and the addresses of blocks. */
module MallocLayout {
  const PAGE_SIZE := 4096
  const ARENA_HEADER := 12
  const DESC_COUNT := 7

  /** Block sizes double from 16 bytes up to a quarter of a page. */
  function BlockSize(d: nat): (s: nat)
    requires d < DESC_COUNT
    ensures 16 <= s <= 1024
  {
    if d == 0 then 16 else if d == 1 then 32 else if d == 2 then 64 else if d == 3 then 128
    else if d == 4 then 256 else if d == 5 then 512 else 1024
  }

  function BlocksPerArena(d: nat): (n: nat)
    requires d < DESC_COUNT
    ensures n >= 3
  {
    (PAGE_SIZE - ARENA_HEADER) / BlockSize(d)
  }

  /** The loop of `malloc_init`. */
  method InitDescriptors() returns (sizes: seq<nat>, counts: seq<nat>)
    ensures |sizes| == |counts| == DESC_COUNT
    ensures forall d :: 0 <= d < DESC_COUNT ==> sizes[d] == BlockSize(d) && counts[d] == BlocksPerArena(d)
  {
    sizes, counts := [], [];
    var size := 16;
    while size < PAGE_SIZE / 2
      invariant |sizes| == |counts| <= DESC_COUNT
      invariant size == if |sizes| < DESC_COUNT then BlockSize(|sizes|) else 2048
      invariant forall d :: 0 <= d < |sizes| ==> sizes[d] == BlockSize(d) && counts[d] == BlocksPerArena(d)
      decreases 2048 - size
    {
      sizes := sizes + [size];
      counts := counts + [(PAGE_SIZE - ARENA_HEADER) / size];
      size := size * 2;
    }
  }

  /** The smallest descriptor for a request; the loop in `malloc`. */
  method FindDescriptor(size: nat) returns (d: nat)
    ensures d <= DESC_COUNT
    ensures d < DESC_COUNT ==> BlockSize(d) >= size
    ensures forall c :: 0 <= c < d ==> BlockSize(c) < size
  {
    d := 0;
    while d < DESC_COUNT
      invariant d <= DESC_COUNT && forall c :: 0 <= c < d ==> BlockSize(c) < size
    {
      if BlockSize(d) >= size {
        return;
      }
      d := d + 1;
    }
  }

  // ---------------------------------------------------------------- addresses

  function Offset(d: nat, i: nat): nat
    requires d < DESC_COUNT
  {
    ARENA_HEADER + i * BlockSize(d)
  }

  lemma OffsetInPage(d: nat, i: nat)
    requires d < DESC_COUNT && i < BlocksPerArena(d)
    ensures ARENA_HEADER <= Offset(d, i) && Offset(d, i) + BlockSize(d) <= PAGE_SIZE
  {
    var s, n := BlockSize(d), BlocksPerArena(d);
    FloorTimes(PAGE_SIZE - ARENA_HEADER, s);
    TimesMonotone(i + 1, n, s);
  }

  lemma FloorTimes(x: nat, s: nat)
    requires s > 0
    ensures (x / s) * s <= x
  {
  }

  lemma TimesMonotone(i: nat, j: nat, s: nat)
    requires i <= j
    ensures i * s <= j * s
  {
  }

  lemma OffsetsApart(d: nat, i: nat, j: nat)
    requires d < DESC_COUNT && i < j
    ensures Offset(d, i) + BlockSize(d) <= Offset(d, j)
  {
    TimesMonotone(i + 1, j, BlockSize(d));
  }

  /** `arena_to_block`. */
  function BlockAt(page: nat, d: nat, i: nat): nat
    requires d < DESC_COUNT
  {
    page * PAGE_SIZE + Offset(d, i)
  }

  /** `block_to_arena`: the start of the page. */
  function PageOf(block: nat): nat {
    block / PAGE_SIZE
  }

  /** Rounding a block's address down to its page finds its arena, and different blocks have different addresses. */
  lemma BlockFindsArena(page: nat, d: nat, i: nat)
    requires d < DESC_COUNT && i < BlocksPerArena(d)
    ensures PageOf(BlockAt(page, d, i)) == page
    ensures forall j :: 0 <= j < BlocksPerArena(d) && BlockAt(page, d, j) == BlockAt(page, d, i) ==> i == j
  {
    OffsetInPage(d, i);
    forall j | 0 <= j < BlocksPerArena(d) && BlockAt(page, d, j) == BlockAt(page, d, i) ensures i == j {
      if i < j { OffsetsApart(d, i, j); }
      if j < i { OffsetsApart(d, j, i); }
    }
  }

  // ---------------------------------------------------------------- big blocks

  const SIZE_MODULUS := 0x1_0000_0000

  /** Pages for a request too big for any descriptor, in the 32-bit arithmetic of the source. */
  function PagesFor(size: nat): nat {
    var total := (size + ARENA_HEADER) % SIZE_MODULUS;
    ((total + PAGE_SIZE - 1) % SIZE_MODULUS) / PAGE_SIZE
  }

  /** The pages hold the request and the header if and only if the size, with the header, fits 32 bits; if only the
      rounding overflows no pages are asked for, and the request is refused. */
  lemma PagesSuffice(size: nat)
    requires 0 < size < SIZE_MODULUS
    ensures PagesFor(size) > 0 ==>
              (size + ARENA_HEADER <= PagesFor(size) * PAGE_SIZE <==> size <= SIZE_MODULUS - ARENA_HEADER)
    ensures PagesFor(size) == 0 <==>
              SIZE_MODULUS - ARENA_HEADER - PAGE_SIZE < size <= SIZE_MODULUS - ARENA_HEADER
  {
  }
}
