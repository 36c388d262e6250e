/** A write to the cache that is preempted before it marks its entry dirty. */
module CacheRace {
  import opened Wrappers
  import opened DiskModel
  import opened CacheModel

  /** The new bytes are in entry `i`, which is no longer pinned and not yet marked by this write. */
  function Copied(s: State, i: nat, data: Sector): State
    requires i < |s.entries|
  {
    s.(entries := s.entries[i := s.entries[i].(data := data, isUsing := false)])
  }

  /** The late store of the dirty flag, into whatever entry `i` holds by then. */
  function Marked(s: State, i: nat): State
    requires i < |s.entries|
  {
    s.(entries := s.entries[i := s.entries[i].(isDirty := true)])
  }

  /** With nothing in between, the sector holds what was written. */
  lemma UndisturbedWrite(s: State, i: nat, data: Sector)
    requires Valid(s) && i < |s.entries|
    ensures var t := Marked(Copied(s, i, data), i);
            Valid(t) && Logical(t, s.entries[i].sector) == data
  {
    var t := Marked(Copied(s, i, data), i);
    assert Valid(t);
    FindIsUnique(t, i);
  }

  /** If the entry is evicted in between, the write survives if and only if the entry was dirty already, or the disk
      happened to hold what was written. */
  lemma EvictedBeforeMark(s: State, i: nat, data: Sector, other: nat)
    requires Valid(s) && i < |s.entries| && other < |s.disk| && !Cached(s, other)
    ensures var x := s.entries[i].sector;
            var t := Marked(Replace(Copied(s, i, data), i, other), i);
            Logical(t, x) == data <==> s.entries[i].isDirty || s.disk[x] == data
  {
    var x := s.entries[i].sector;
    var t := Marked(Replace(Copied(s, i, data), i, other), i);
    assert x != other;
    assert forall k :: 0 <= k < |t.entries| ==> t.entries[k].sector != x;
    assert FindFrom(t.entries, x, 0).None?;
  }

  /** The cache is full, and its first entry may be evicted next. */
  ghost predicate FirstIsNext(s: State) {
    Shaped(s) && |s.entries| == MAX_CACHE_SIZE && !s.entries[0].isUsing && !s.entries[0].isUsed
  }

  /** Then a miss takes the first entry, and leaves it so that, once unpinned, it may be evicted next again. */
  lemma MissTakesFirst(s: State, sector: nat)
    requires FirstIsNext(s) && sector < |s.disk| && !Cached(s, sector)
    ensures Fetch(s, sector) == Some((Replace(s, 0, sector), 0))
    ensures Shaped(Replace(s, 0, sector)) && !Replace(s, 0, sector).entries[0].isUsed
  {
    assert forall k :: 0 <= k < |s.entries| ==> s.entries[k].sector != sector;
    assert Sweep(s.entries, 0) == (s.entries, Some(0));
  }

  /** One thread misses on `x`, copies its bytes and unpins; before it marks the entry dirty a second thread misses on
      `y`.  The second miss takes the same entry, and the write is lost unless it changed nothing. */
  lemma LostWrite(s: State, x: nat, y: nat, data: Sector)
    requires Valid(s) && FirstIsNext(s) && x < |s.disk| && y < |s.disk| && x != y && !Cached(s, x) && !Cached(s, y)
    ensures var f := Fetch(s, x);
            && f.Some? && f.value.1 == 0
            && var u := Copied(f.value.0, 0, data);
               && Shaped(u) && y < |u.disk| && Fetch(u, y).Some? && Fetch(u, y).value.1 == 0
               && var t := Marked(Fetch(u, y).value.0, 0);
                  x < |t.disk| && (Logical(t, x) == data <==> Logical(s, x) == data)
  {
    MissTakesFirst(s, x);
    FetchEffect(s, x);
    var f := Replace(s, 0, x);
    NotCachedAfter(s, x, y);
    var u := Copied(f, 0, data);
    assert !Cached(u, y) by { assert forall k :: 0 <= k < |f.entries| ==> u.entries[k].sector == f.entries[k].sector; }
    MissTakesFirst(u, y);
    EvictedBeforeMark(f, 0, data, y);
    LogicalIs(s, x);
  }

  lemma NotCachedAfter(s: State, x: nat, y: nat)
    requires s.entries != [] && s.entries[0].sector < |s.disk| && x < |s.disk| && x != y && !Cached(s, y)
    ensures !Cached(Replace(s, 0, x), y)
  {
    assert forall i :: 0 <= i < |s.entries| ==> s.entries[i].sector != y;
  }

  /** Such a cache: 64 sectors cached of 66. */
  lemma FullCacheExists()
    ensures var s := State(seq(66, _ => ZeroSector()),
                           seq(MAX_CACHE_SIZE, k requires 0 <= k < MAX_CACHE_SIZE =>
                             Entry(k, ZeroSector(), k > 0, false, false)));
            Valid(s) && FirstIsNext(s) && !Cached(s, 64) && !Cached(s, 65)
  {
  }
}
