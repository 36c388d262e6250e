/** Histories of `malloc`, `realloc` and `free` calls and of the writes of the blocks' owners. */
module MallocHistory {
  import opened Wrappers
  import opened MallocLayout
  import opened MallocModel
  import opened MallocTheorems
  import opened MallocCode

  datatype Event = Asks(size: nat, page: Option<nat>)
                 | Frees(b: nat)
                 | Resizes(from: Option<nat>, size: nat, page: Option<nat>)
                 | Writes(b: nat, at: nat, value: nat)

  /** What callers and the page allocator promise: sizes are 32-bit, pages are fresh, blocks are live, writes stay
      inside them, and a copy fits the block it goes to. */
  ghost predicate Legal(h: Heap, e: Event)
    requires Sound(h)
  {
    match e
    case Asks(size, page) => size < SIZE_MODULUS && Granted(h, size, page)
    case Frees(b) => b in h.live
    case Resizes(b, size, page) =>
      && size < SIZE_MODULUS && Granted(h, size, page) && (b.Some? ==> b.value in h.live)
      && (b.Some? && Malloc(h, size, page).1.Some? ==> CopyFits(h, b.value, size))
    case Writes(b, at, _) => b in h.live && LiveOk(h, b) && at < Capacity(h, b)
  }

  /** The heap after an event. */
  ghost function After(h: Heap, e: Event): Heap
    requires Valid(h) && Legal(h, e)
  {
    match e
    case Asks(size, page) => Malloc(h, size, page).0
    case Frees(b) => Free(h, b)
    case Resizes(b, size, page) => Resized(h, b, size, page)
    case Writes(_, _, _) => h
  }

  /** What an event may do to memory: what `MallocBlock`, `FreeBlock` and `Realloc` promise, and one byte written. */
  ghost predicate Effect(h: Heap, m: Memory, e: Event, m': Memory)
    requires Valid(h) && Legal(h, e)
  {
    match e
    case Asks(_, _) => m' == m
    case Frees(b) => LiveOk(h, b) && SameOutside(m, m', b, Capacity(h, b))
    case Resizes(b, size, page) => ResizedMemory(h, m, b, size, page, m')
    case Writes(b, at, value) => m' == m[b + at := value]
  }

  ghost predicate Step(h: Heap, m: Memory, e: Event, k: Heap, m': Memory) {
    Valid(h) && Legal(h, e) && k == After(h, e) && Effect(h, m, e, m')
  }

  /** A history: the heap and memory before each event and after the last. */
  ghost predicate History(hs: seq<Heap>, ms: seq<Memory>, es: seq<Event>) {
    && |hs| == |ms| == |es| + 1
    && Valid(hs[0])
    && forall i :: 0 <= i < |es| ==> Valid(hs[i]) ==> Step(hs[i], ms[i], es[i], hs[i + 1], ms[i + 1])
  }

  // ---------------------------------------------------------------- one event

  lemma MovedValid(h: Heap, b: nat, size: nat, page: Option<nat>)
    requires Valid(h) && b in h.live && size < SIZE_MODULUS && Granted(h, size, page)
    ensures Valid(Moved(h, b, size, page))
  {
    hide Valid, Sound, Granted, Malloc, Free;
    ValidSound(h);
    MallocValid(h, size, page);
    if Malloc(h, size, page).1.Some? { FreeValid(Malloc(h, size, page).0, b); }
  }

  lemma AfterValid(h: Heap, e: Event)
    requires Valid(h) && Legal(h, e)
    ensures Valid(After(h, e))
  {
    hide Valid, Sound, Granted, Malloc, Free, Moved;
    match e
    case Asks(size, page) => MallocValid(h, size, page);
    case Frees(b) => FreeValid(h, b);
    case Resizes(b, size, page) =>
      if b.None? { MallocValid(h, size, page); }
      else if size == 0 { FreeValid(h, b.value); }
      else { MovedValid(h, b.value, size, page); }
    case Writes(_, _, _) =>
  }

  /** `free` does not change the capacity of the other live blocks. */
  lemma FreeKeeps(h: Heap, b: nat, c: nat)
    requires Valid(h) && b in h.live && c in h.live && c != b
    ensures c in Free(h, b).live && SameCapacity(h, Free(h, b), c)
  {
    FreeValid(h, b);
    FreeShape(h, b);
    ValidLive(h, c);
    ValidLive(Free(h, b), c);
  }

  lemma MovedKeeps(h: Heap, b: nat, size: nat, page: Option<nat>, c: nat)
    requires Valid(h) && b in h.live && size < SIZE_MODULUS && Granted(h, size, page) && c in h.live && c != b
    ensures c in Moved(h, b, size, page).live && SameCapacity(h, Moved(h, b, size, page), c)
  {
    hide Valid, Sound, Granted, Malloc, Free, LiveOk, Capacity;
    ValidSound(h);
    MallocValid(h, size, page);
    MallocKeeps(h, size, page, c);
    if Malloc(h, size, page).1.Some? { FreeKeeps(Malloc(h, size, page).0, b, c); }
  }

  /** Neither frees block `c` nor moves it. */
  ghost predicate Spares(e: Event, c: nat) {
    (e.Frees? ==> e.b != c) && (e.Resizes? ==> e.from != Some(c))
  }

  lemma StaysLive(h: Heap, e: Event, c: nat)
    requires Valid(h) && Legal(h, e) && Spares(e, c) && c in h.live
    ensures c in After(h, e).live && SameCapacity(h, After(h, e), c)
  {
    ValidLive(h, c);
    hide Valid, Sound, Granted, Malloc, Free, Moved, LiveOk, Capacity;
    match e
    case Asks(size, page) =>
      MallocValid(h, size, page);
      MallocKeeps(h, size, page, c);
    case Frees(b) => FreeKeeps(h, b, c);
    case Resizes(b, size, page) =>
      if b.None? {
        MallocValid(h, size, page);
        MallocKeeps(h, size, page, c);
      } else if size == 0 {
        FreeKeeps(h, b.value, c);
      } else {
        MovedKeeps(h, b.value, size, page, c);
      }
    case Writes(_, _, _) =>
  }

  /** A block's bytes after its owner's write, if the event is one. */
  function Noted(bytes: seq<nat>, e: Event, c: nat): (r: seq<nat>)
    ensures |r| == |bytes|
  {
    if e.Writes? && e.b == c && e.at < |bytes| then bytes[e.at := e.value] else bytes
  }

  lemma {:induction false} OneByte(m: Memory, a: nat, v: nat, c: nat, n: nat)
    ensures Bytes(m[a := v], c, n) == if c <= a < c + n then Bytes(m, c, n)[a - c := v] else Bytes(m, c, n)
    decreases n
  {
    if n > 0 { OneByte(m, a, v, c, n - 1); }
  }

  lemma WriteApart(h: Heap, m: Memory, b: nat, at: nat, v: nat, c: nat)
    requires Valid(h) && b in h.live && c in h.live && LiveOk(h, b) && LiveOk(h, c) && at < Capacity(h, b)
    ensures Bytes(m[b + at := v], c, Capacity(h, c)) == Noted(Bytes(m, c, Capacity(h, c)), Writes(b, at, v), c)
  {
    OneByte(m, b + at, v, c, Capacity(h, c));
    if b != c { Apart(h, b, c); }
  }

  lemma FreeApart(h: Heap, m: Memory, m': Memory, b: nat, c: nat)
    requires Valid(h) && b in h.live && c in h.live && b != c && LiveOk(h, b) && LiveOk(h, c)
    requires SameOutside(m, m', b, Capacity(h, b))
    ensures Bytes(m', c, Capacity(h, c)) == Bytes(m, c, Capacity(h, c))
  {
    Apart(h, b, c);
    BytesSame(m, m', b, Capacity(h, b), c, Capacity(h, c));
  }

  lemma KeptOther(h: Heap, k: Heap, m: Memory, m': Memory, b: nat, size: nat, r: Option<nat>, c: nat)
    requires Kept(h, k, m, m', b, size, r) && c in h.live && c != b && LiveOk(h, c)
    ensures Bytes(m', c, Capacity(h, c)) == Bytes(m, c, Capacity(h, c))
  {
  }

  /** One event changes the bytes of a live block only if it is a write of the block's owner. */
  lemma OneEvent(h: Heap, m: Memory, e: Event, k: Heap, m': Memory, c: nat)
    requires Step(h, m, e, k, m') && Spares(e, c) && c in h.live && LiveOk(h, c)
    ensures Bytes(m', c, Capacity(h, c)) == Noted(Bytes(m, c, Capacity(h, c)), e, c)
  {
    hide Valid, Sound, Granted, Malloc, Free, Moved, LiveOk, Capacity, Bytes, SameOutside, Kept, Resized;
    ValidSound(h);
    match e
    case Asks(_, _) =>
    case Frees(b) => FreeApart(h, m, m', b, c);
    case Resizes(b, size, page) =>
      if b.Some? && size == 0 {
        FreeApart(h, m, m', b.value, c);
      } else if b.Some? {
        KeptOther(h, Moved(h, b.value, size, page), m, m', b.value, size, Malloc(h, size, page).1, c);
      }
    case Writes(b, at, v) => WriteApart(h, m, b, at, v, c);
  }

  // ---------------------------------------------------------------- every history

  lemma {:induction false} ValidThroughout(hs: seq<Heap>, ms: seq<Memory>, es: seq<Event>, i: nat)
    requires History(hs, ms, es) && i <= |es|
    ensures Valid(hs[i])
  {
    hide Valid, Legal, After, Effect;
    if i > 0 {
      ValidThroughout(hs, ms, es, i - 1);
      assert Step(hs[i - 1], ms[i - 1], es[i - 1], hs[i], ms[i]);
      AfterValid(hs[i - 1], es[i - 1]);
    }
  }

  /** Over every history: between calls the live blocks are disjoint, inside their arenas and large enough, each
      arena's count is right, and no wholly free arena is kept. */
  lemma EveryHistory(hs: seq<Heap>, ms: seq<Memory>, es: seq<Event>)
    requires History(hs, ms, es)
    ensures forall i :: 0 <= i <= |es| ==> Valid(hs[i])
    ensures forall i :: 0 <= i < |es| ==> Step(hs[i], ms[i], es[i], hs[i + 1], ms[i + 1])
  {
    forall i | 0 <= i <= |es| ensures Valid(hs[i]) { ValidThroughout(hs, ms, es, i); }
  }

  /** The bytes that the owner of block `c` has put there. */
  function OwnersBytes(bytes: seq<nat>, es: seq<Event>, c: nat): (r: seq<nat>)
    ensures |r| == |bytes|
    decreases |es|
  {
    if es == [] then bytes else Noted(OwnersBytes(bytes, es[..|es| - 1], c), es[|es| - 1], c)
  }

  /** Over every history that neither frees nor moves a live block, the block stays live with all its bytes, and they
      are what its owner's writes have made of them. */
  lemma {:induction false} OnlyOwnerWrites(hs: seq<Heap>, ms: seq<Memory>, es: seq<Event>, c: nat, i: nat)
    requires History(hs, ms, es) && i <= |es| && c in hs[0].live
    requires forall j :: 0 <= j < i ==> Spares(es[j], c)
    ensures c in hs[i].live && SameCapacity(hs[0], hs[i], c)
    ensures var n := Capacity(hs[0], c);
            Bytes(ms[i], c, n) == OwnersBytes(Bytes(ms[0], c, n), es[..i], c)
  {
    hide Valid, Legal, After, Effect, Spares, LiveOk, Capacity, Bytes, Noted;
    if i == 0 {
      ValidLive(hs[0], c);
      assert es[..0] == [];
    } else {
      OnlyOwnerWrites(hs, ms, es, c, i - 1);
      ValidThroughout(hs, ms, es, i - 1);
      assert Step(hs[i - 1], ms[i - 1], es[i - 1], hs[i], ms[i]);
      assert Spares(es[i - 1], c);
      StaysLive(hs[i - 1], es[i - 1], c);
      OneEvent(hs[i - 1], ms[i - 1], es[i - 1], hs[i], ms[i], c);
      assert es[..i][..i - 1] == es[..i - 1];
    }
  }
}
