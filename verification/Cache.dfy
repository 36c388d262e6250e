/**
 The 64-entry write-back buffer cache with second-chance eviction, its operations taken one
 at a time.  The class follows the source; `Step` is the same behaviour on values, and the
 theorems at the end say that no run of the cache can be told from a plain array of sectors.
 */
module CacheModel {
  import opened Wrappers
  import opened DiskModel

  const MAX_CACHE_SIZE := 64

  datatype Entry = Entry(sector: nat, data: Sector, isUsed: bool, isDirty: bool, isUsing: bool)

  datatype State = State(disk: seq<Sector>, entries: seq<Entry>)

  // ---------------------------------------------------------------- specification

  /** The first entry, from position `i` on, that holds `sector`. */
  function FindFrom(entries: seq<Entry>, sector: nat, i: nat): (r: Option<nat>)
    requires i <= |entries|
    ensures r.Some? ==> i <= r.value < |entries| && entries[r.value].sector == sector
    ensures r.None? <==> forall k :: i <= k < |entries| ==> entries[k].sector != sector
    decreases |entries| - i
  {
    if i == |entries| then None
    else if entries[i].sector == sector then Some(i)
    else FindFrom(entries, sector, i + 1)
  }

  /** One sweep of the second-chance scan from position `i`: used entries lose their mark, pinned
      entries are passed over, the first entry that is neither is the victim. */
  function Sweep(entries: seq<Entry>, i: nat): (r: (seq<Entry>, Option<nat>))
    requires i <= |entries|
    ensures |r.0| == |entries|
    ensures r.1.Some? ==> i <= r.1.value < |entries|
    ensures forall k :: 0 <= k < |entries| ==> r.0[k].sector == entries[k].sector
    decreases |entries| - i
  {
    if i == |entries| then (entries, None)
    else if entries[i].isUsing then Sweep(entries, i + 1)
    else if entries[i].isUsed then Sweep(entries[i := entries[i].(isUsed := false)], i + 1)
    else (entries, Some(i))
  }

  /** Two sweeps, the second only when the first found nothing. */
  function Select(entries: seq<Entry>): (r: (seq<Entry>, Option<nat>))
    ensures |r.0| == |entries|
    ensures r.1.Some? ==> r.1.value < |entries|
    ensures forall k :: 0 <= k < |entries| ==> r.0[k].sector == entries[k].sector
  {
    var (cleared, victim) := Sweep(entries, 0);
    if victim.Some? then (cleared, victim) else Sweep(cleared, 0)
  }

  /** Writes the victim back if it is dirty and loads `sector` in its place. */
  function Replace(s: State, victim: nat, sector: nat): State
    requires victim < |s.entries| && s.entries[victim].sector < |s.disk| && sector < |s.disk|
  {
    var e := s.entries[victim];
    var disk := if e.isDirty then s.disk[e.sector := e.data] else s.disk;
    State(disk, s.entries[victim := Entry(sector, disk[sector], e.isUsed, false, true)])
  }

  /** Cached sectors are on the disk, no sector is cached twice, at most 64 entries. */
  ghost predicate Shaped(s: State) {
    && |s.entries| <= MAX_CACHE_SIZE
    && (forall i :: 0 <= i < |s.entries| ==> s.entries[i].sector < |s.disk|)
    && (forall i, j :: 0 <= i < j < |s.entries| ==> s.entries[i].sector != s.entries[j].sector)
  }

  /** No clean copy of sector `k` differs from the disk. */
  ghost predicate Agrees(s: State, k: nat)
    requires k < |s.disk|
  {
    forall i :: 0 <= i < |s.entries| && s.entries[i].sector == k && !s.entries[i].isDirty ==>
      s.entries[i].data == s.disk[k]
  }

  /** No copy of sector `k` waits to be written back. */
  ghost predicate Clean(s: State, k: nat) {
    forall i :: 0 <= i < |s.entries| && s.entries[i].sector == k ==> !s.entries[i].isDirty
  }

  /** The table is well formed and every clean entry agrees with the disk. */
  ghost predicate Valid(s: State) {
    && Shaped(s)
    && (forall i :: 0 <= i < |s.entries| && !s.entries[i].isDirty ==>
          s.entries[i].data == s.disk[s.entries[i].sector])
  }

  /** What sector `k` holds as far as any user of the cache can tell. */
  ghost function Logical(s: State, k: nat): Sector
    requires k < |s.disk|
  {
    var i := FindFrom(s.entries, k, 0);
    if i.Some? then s.entries[i.value].data else s.disk[k]
  }

  /** The whole disk as users see it. */
  ghost function View(s: State): (r: seq<Sector>)
    ensures |r| == |s.disk|
  {
    seq(|s.disk|, k requires 0 <= k < |s.disk| => Logical(s, k))
  }

  ghost predicate Cached(s: State, k: nat) {
    exists i :: 0 <= i < |s.entries| && s.entries[i].sector == k
  }

  /** `t` caches at most `sector` besides what `s` cached, and its disk differs from that of `s` only on
      sectors `s` cached. */
  ghost predicate Touches(s: State, t: State, sector: nat) {
    && |t.disk| == |s.disk|
    && (forall k :: 0 <= k < |s.disk| && !Cached(s, k) ==> t.disk[k] == s.disk[k])
    && (forall k: nat :: Cached(t, k) ==> Cached(s, k) || k == sector)
  }

  /** No entry can be evicted: the table is full and every entry is in use. */
  ghost predicate Stuck(s: State) {
    |s.entries| >= MAX_CACHE_SIZE && forall i :: 0 <= i < |s.entries| ==> s.entries[i].isUsing
  }

  /** The entry for `sector`, brought in if it is not there; `None` where the source's assertion
      that an entry was found fails. */
  function Fetch(s: State, sector: nat): (r: Option<(State, nat)>)
    requires sector < |s.disk| && forall i :: 0 <= i < |s.entries| ==> s.entries[i].sector < |s.disk|
    ensures r.Some? ==> r.value.1 < |r.value.0.entries|
  {
    var hit := FindFrom(s.entries, sector, 0);
    if hit.Some? then
      Some((State(s.disk, s.entries[hit.value := s.entries[hit.value].(isUsed := true)]), hit.value))
    else if |s.entries| < MAX_CACHE_SIZE then
      Some((State(s.disk, s.entries + [Entry(sector, s.disk[sector], true, false, false)]), |s.entries|))
    else
      var (cleared, victim) := Select(s.entries);
      if victim.None? then None
      else Some((Replace(State(s.disk, cleared), victim.value, sector), victim.value))
  }

  /** The state a read leaves behind. */
  function ReadState(s: State, sector: nat): (r: Option<State>)
    requires sector < |s.disk| && forall i :: 0 <= i < |s.entries| ==> s.entries[i].sector < |s.disk|
  {
    var f := Fetch(s, sector);
    if f.None? then None
    else
      var (s', i) := f.value;
      Some(State(s'.disk, s'.entries[i := s'.entries[i].(isUsing := false)]))
  }

  /** The state a write of `bytes` leaves behind. */
  function WriteState(s: State, sector: nat, ofs: nat, bytes: seq<byte>): (r: Option<State>)
    requires sector < |s.disk| && forall i :: 0 <= i < |s.entries| ==> s.entries[i].sector < |s.disk|
    requires ofs + |bytes| <= SECTOR_SIZE
  {
    var f := Fetch(s, sector);
    if f.None? then None
    else
      var (s', i) := f.value;
      var e := s'.entries[i];
      Some(State(s'.disk, s'.entries[i := e.(data := Splice(e.data, ofs, bytes), isUsing := false, isDirty := true)]))
  }

  /** One write-behind pass over the entries from position `i` on. */
  function FlushFrom(s: State, i: nat): (r: State)
    requires i <= |s.entries| && forall k :: 0 <= k < |s.entries| ==> s.entries[k].sector < |s.disk|
    ensures |r.entries| == |s.entries| && |r.disk| == |s.disk|
    decreases |s.entries| - i
  {
    if i == |s.entries| then s
    else if !s.entries[i].isDirty then FlushFrom(s, i + 1)
    else
      var e := s.entries[i];
      FlushFrom(State(s.disk[e.sector := e.data], s.entries[i := e.(isUsing := false, isDirty := false)]), i + 1)
  }

  // ---------------------------------------------------------------- eviction

  /** A sweep only clears used marks, and only of unpinned entries before the victim. */
  lemma {:induction false} SweepEffect(entries: seq<Entry>, i: nat)
    requires i <= |entries|
    ensures var (cleared, victim) := Sweep(entries, i);
            var stop := if victim.Some? then victim.value else |entries|;
            && (forall k :: 0 <= k < |entries| ==>
                  cleared[k] == if i <= k < stop && !entries[k].isUsing
                                then entries[k].(isUsed := false) else entries[k])
            && (forall k :: i <= k < stop ==> entries[k].isUsing || entries[k].isUsed)
            && (victim.Some? ==> !entries[stop].isUsing && !entries[stop].isUsed)
    decreases |entries| - i
  {
    if i < |entries| {
      if entries[i].isUsing {
        SweepEffect(entries, i + 1);
      } else if entries[i].isUsed {
        SweepEffect(entries[i := entries[i].(isUsed := false)], i + 1);
      }
    }
  }

  /** Entry `k` loses its used mark: it is not pinned, and up to it every entry is pinned or used. */
  ghost predicate LosesMark(entries: seq<Entry>, k: nat)
    requires k < |entries|
  {
    !entries[k].isUsing && forall j :: 0 <= j <= k ==> entries[j].isUsing || entries[j].isUsed
  }

  /** The victim is the first entry neither pinned nor used; failing that, the first unpinned one.
      There is a victim iff some entry is unpinned; exactly the entries that are passed over lose their marks. */
  lemma SelectEffect(entries: seq<Entry>)
    ensures var (cleared, victim) := Select(entries);
            && (victim.None? <==> forall k :: 0 <= k < |entries| ==> entries[k].isUsing)
            && (victim.Some? ==>
                  && !entries[victim.value].isUsing
                  && !cleared[victim.value].isUsed
                  && (!entries[victim.value].isUsed ==>
                        forall k :: 0 <= k < victim.value ==> entries[k].isUsing || entries[k].isUsed)
                  && (entries[victim.value].isUsed ==>
                        && (forall k :: 0 <= k < |entries| ==> entries[k].isUsing || entries[k].isUsed)
                        && (forall k :: 0 <= k < victim.value ==> entries[k].isUsing)))
            && (forall k :: 0 <= k < |entries| ==>
                  cleared[k] == if LosesMark(entries, k) then entries[k].(isUsed := false) else entries[k])
  {
    SweepEffect(entries, 0);
    var (cleared, victim) := Sweep(entries, 0);
    if victim.None? {
      SweepEffect(cleared, 0);
      var (again, second) := Sweep(cleared, 0);
      if second.Some? {
        assert forall k :: 0 <= k < second.value ==> cleared[k].isUsing;
        assert !cleared[second.value].isUsing;
      } else {
        assert forall k :: 0 <= k < |entries| ==> entries[k].isUsing == cleared[k].isUsing;
      }
    }
  }

  /** What fetching a sector does to the table: a hit is marked used; with room left, a clean used entry is appended;
      otherwise the sector takes the place of the victim, clean, pinned and unused. */
  lemma FetchMarks(s: State, sector: nat)
    requires Shaped(s) && sector < |s.disk| && Fetch(s, sector).Some?
    ensures var (t, i) := Fetch(s, sector).value;
            && |t.disk| == |s.disk| && t.entries[i].sector == sector
            && (Cached(s, sector) ==>
                  t.disk == s.disk && i < |s.entries| && t.entries == s.entries[i := s.entries[i].(isUsed := true)])
            && (!Cached(s, sector) && |s.entries| < 64 ==>
                  t.disk == s.disk && t.entries == s.entries + [Entry(sector, s.disk[sector], true, false, false)])
            && (!Cached(s, sector) && |s.entries| == 64 ==>
                  && t.entries[i] == Entry(sector, t.disk[sector], false, false, true)
                  && |t.entries| == 64 && !s.entries[i].isUsing
                  && forall k :: 0 <= k < 64 && k != i ==>
                       t.entries[k] == if LosesMark(s.entries, k) then s.entries[k].(isUsed := false)
                                       else s.entries[k])
  {
    SelectEffect(s.entries);
    hide Select, LosesMark;
  }

  // ---------------------------------------------------------------- the cache is invisible

  /** The entry at `i` is the one found for its sector. */
  lemma FindIsUnique(s: State, i: nat)
    requires Shaped(s) && i < |s.entries|
    ensures FindFrom(s.entries, s.entries[i].sector, 0) == Some(i)
  {
    var f := FindFrom(s.entries, s.entries[i].sector, 0);
    assert f.Some?;
  }

  /** A cached sector shows its entry, any other the disk. */
  lemma LogicalIs(s: State, k: nat)
    requires Shaped(s) && k < |s.disk|
    ensures View(s)[k] == Logical(s, k)
    ensures forall i :: 0 <= i < |s.entries| && s.entries[i].sector == k ==> Logical(s, k) == s.entries[i].data
    ensures !Cached(s, k) ==> Logical(s, k) == s.disk[k]
  {
    forall i | 0 <= i < |s.entries| && s.entries[i].sector == k
      ensures Logical(s, k) == s.entries[i].data
    {
      FindIsUnique(s, i);
    }
  }

  /** From `s` to `t` nothing happens to sector `k`: if its copy agreed with the disk, users see the same; if no copy
      waited to be written back, the disk holds the same, and users see the same or, the copy dropped, what is there. */
  ghost predicate Spares(s: State, t: State, k: nat)
    requires k < |s.disk| == |t.disk|
  {
    && (Agrees(s, k) ==> Agrees(t, k) && Logical(t, k) == Logical(s, k))
    && (Clean(s, k) ==>
          && Clean(t, k) && t.disk[k] == s.disk[k]
          && (Logical(t, k) == Logical(s, k) || Logical(t, k) == s.disk[k]))
  }

  /** A copy that differs from the disk without waiting to be written back is clean. */
  lemma AgreesOrClean(s: State, k: nat)
    requires Shaped(s) && k < |s.disk|
    ensures Agrees(s, k) || Clean(s, k)
  {
  }

  lemma SparesTrans(s: State, t: State, u: State, k: nat)
    requires k < |s.disk| == |t.disk| == |u.disk| && Spares(s, t, k) && Spares(t, u, k)
    ensures Spares(s, u, k)
  {
  }

  /** The copy of sector `k`, at position `i`, and its place on the disk stay. */
  lemma SameCopy(s: State, t: State, i: nat, k: nat)
    requires Shaped(s) && Shaped(t) && k < |s.disk| == |t.disk| && t.disk[k] == s.disk[k]
    requires i < |s.entries| && i < |t.entries| && s.entries[i].sector == t.entries[i].sector == k
    requires t.entries[i].data == s.entries[i].data && t.entries[i].isDirty == s.entries[i].isDirty
    ensures Spares(s, t, k) && Logical(t, k) == Logical(s, k)
  {
    FindIsUnique(s, i);
    FindIsUnique(t, i);
  }

  lemma NoCopy(s: State, t: State, k: nat)
    requires k < |s.disk| == |t.disk| && t.disk[k] == s.disk[k] && !Cached(s, k) && !Cached(t, k)
    ensures Spares(s, t, k) && Logical(t, k) == Logical(s, k)
  {
  }

  /** The table changes in flags only. */
  ghost predicate SameCopies(s: State, t: State) {
    && t.disk == s.disk && |t.entries| == |s.entries|
    && forall i :: 0 <= i < |s.entries| ==>
         && t.entries[i].sector == s.entries[i].sector && t.entries[i].data == s.entries[i].data
         && t.entries[i].isDirty == s.entries[i].isDirty
  }

  lemma FlagsSpare(s: State, t: State, k: nat)
    requires Shaped(s) && SameCopies(s, t) && k < |s.disk|
    ensures Shaped(t) && Spares(s, t, k) && Logical(t, k) == Logical(s, k)
  {
    hide Spares, Logical;
    if i :| 0 <= i < |s.entries| && s.entries[i].sector == k {
      SameCopy(s, t, i, k);
    } else {
      NoCopy(s, t, k);
    }
  }

  lemma ReplaceShaped(s: State, victim: nat, sector: nat)
    requires Shaped(s) && victim < |s.entries| && sector < |s.disk| && !Cached(s, sector)
    ensures var t := Replace(s, victim, sector);
            && Shaped(t) && t.entries[victim].data == Logical(s, sector)
            && s.entries[victim].sector != sector && !Cached(t, s.entries[victim].sector)
  {
    assert forall i :: 0 <= i < |s.entries| ==> s.entries[i].sector != sector;
  }

  /** The victim goes to disk if it must, and is then on the disk what it was in the cache. */
  lemma VictimSpared(s: State, victim: nat, sector: nat)
    requires Shaped(s) && victim < |s.entries| && sector < |s.disk| && !Cached(s, sector)
    ensures Spares(s, Replace(s, victim, sector), s.entries[victim].sector)
  {
    ReplaceShaped(s, victim, sector);
    FindIsUnique(s, victim);
  }

  /** A sector that is brought in shows what it showed. */
  lemma BroughtIn(s: State, t: State, i: nat, k: nat)
    requires Shaped(t) && k < |s.disk| == |t.disk| && t.disk[k] == s.disk[k] && !Cached(s, k)
    requires i < |t.entries| && t.entries[i].sector == k && t.entries[i].data == s.disk[k] && !t.entries[i].isDirty
    ensures Spares(s, t, k)
  {
    FindIsUnique(t, i);
  }

  /** Replacing a victim: the table stays well formed, the sector brought in shows what it showed, and nothing happens
      to any other. */
  lemma ReplaceSpares(s: State, victim: nat, sector: nat, k: nat)
    requires Shaped(s) && victim < |s.entries| && sector < |s.disk| && !Cached(s, sector) && k < |s.disk|
    ensures var t := Replace(s, victim, sector);
            Shaped(t) && Spares(s, t, k) && t.entries[victim].data == Logical(s, sector)
  {
    hide Spares, Logical;
    var t := Replace(s, victim, sector);
    ReplaceShaped(s, victim, sector);
    if k == s.entries[victim].sector {
      VictimSpared(s, victim, sector);
    } else if k == sector {
      BroughtIn(s, t, victim, k);
    } else if i :| 0 <= i < |s.entries| && s.entries[i].sector == k {
      SameCopy(s, t, i, k);
    } else {
      NoCopy(s, t, k);
    }
  }

  /** A miss with room left. */
  lemma AppendSpares(s: State, sector: nat, k: nat)
    requires Shaped(s) && sector < |s.disk| && |s.entries| < MAX_CACHE_SIZE && !Cached(s, sector) && k < |s.disk|
    ensures var t := State(s.disk, s.entries + [Entry(sector, s.disk[sector], true, false, false)]);
            Shaped(t) && Spares(s, t, k) && s.disk[sector] == Logical(s, sector)
  {
    hide Spares;
    var t := State(s.disk, s.entries + [Entry(sector, s.disk[sector], true, false, false)]);
    assert forall i :: 0 <= i < |s.entries| ==> s.entries[i].sector != sector;
    if k == sector {
      BroughtIn(s, t, |s.entries|, k);
    } else if i :| 0 <= i < |s.entries| && s.entries[i].sector == k {
      SameCopy(s, t, i, k);
    } else {
      NoCopy(s, t, k);
    }
  }

  /** Fetching fails exactly on a stuck cache that misses; otherwise the entry it hands out holds what the sector
      showed, and nothing happens to any sector, whatever the other entries hold. */
  lemma FetchSpares(s: State, sector: nat, k: nat)
    requires Shaped(s) && sector < |s.disk| && k < |s.disk|
    ensures Fetch(s, sector).None? <==> Stuck(s) && FindFrom(s.entries, sector, 0).None?
    ensures Fetch(s, sector).Some? ==>
              var (t, i) := Fetch(s, sector).value;
              && Shaped(t) && |t.disk| == |s.disk| && Spares(s, t, k)
              && t.entries[i].sector == sector && t.entries[i].data == Logical(s, sector)
  {
    hide Spares;
    var hit := FindFrom(s.entries, sector, 0);
    if hit.Some? {
      var t := State(s.disk, s.entries[hit.value := s.entries[hit.value].(isUsed := true)]);
      FlagsSpare(s, t, k);
      LogicalIs(s, sector);
    } else if |s.entries| < MAX_CACHE_SIZE {
      AppendSpares(s, sector, k);
    } else {
      SelectEffect(s.entries);
      var (cleared, victim) := Select(s.entries);
      var t := State(s.disk, cleared);
      FlagsSpare(s, t, k);
      FlagsSpare(s, t, sector);
      if victim.Some? {
        ReplaceSpares(t, victim.value, sector, k);
        SparesTrans(s, t, Replace(t, victim.value, sector), k);
      }
    }
  }

  /** If nothing happens to any sector of a valid cache, it stays valid and looks the same. */
  lemma AllSpared(s: State, t: State)
    requires Valid(s) && Shaped(t) && |t.disk| == |s.disk|
    requires forall k :: 0 <= k < |s.disk| ==> Spares(s, t, k)
    ensures Valid(t) && View(t) == View(s)
  {
    forall k | 0 <= k < |s.disk|
      ensures Agrees(t, k) && Logical(t, k) == Logical(s, k)
    {
      assert Spares(s, t, k) && Agrees(s, k);
    }
    forall i | 0 <= i < |t.entries| && !t.entries[i].isDirty
      ensures t.entries[i].data == t.disk[t.entries[i].sector]
    {
      assert Agrees(t, t.entries[i].sector);
    }
  }

  /** Fetching fails exactly on a stuck cache that misses; otherwise it keeps validity and view and
      hands out the entry that holds the sector's current contents. */
  lemma FetchEffect(s: State, sector: nat)
    requires Valid(s) && sector < |s.disk|
    ensures Fetch(s, sector).None? <==> Stuck(s) && FindFrom(s.entries, sector, 0).None?
    ensures Fetch(s, sector).Some? ==>
              var (t, i) := Fetch(s, sector).value;
              && Valid(t) && |t.disk| == |s.disk| && View(t) == View(s)
              && t.entries[i].sector == sector && t.entries[i].data == View(s)[sector]
  {
    hide Spares, Fetch;
    FetchSpares(s, sector, sector);
    if Fetch(s, sector).Some? {
      var t := Fetch(s, sector).value.0;
      forall k | 0 <= k < |s.disk| ensures Spares(s, t, k) { FetchSpares(s, sector, k); }
      AllSpared(s, t);
    }
  }

  /** A fetch caches at most one more sector, and writes no disk sector that was not cached. */
  lemma FetchTouches(s: State, sector: nat)
    requires Shaped(s) && sector < |s.disk| && Fetch(s, sector).Some?
    ensures Touches(s, Fetch(s, sector).value.0, sector)
  {
    var t := Fetch(s, sector).value.0;
    forall k: nat | Cached(t, k)
      ensures Cached(s, k) || k == sector
    {
      var i :| 0 <= i < |t.entries| && t.entries[i].sector == k;
      assert i < |s.entries| ==> s.entries[i].sector == k || k == sector;
    }
    var hit := FindFrom(s.entries, sector, 0);
    if hit.None? && |s.entries| >= MAX_CACHE_SIZE {
      var (cleared, victim) := Select(s.entries);
      assert cleared[victim.value].sector == s.entries[victim.value].sector;
      assert Cached(s, s.entries[victim.value].sector);
    }
  }

  lemma TouchesSameSectors(s: State, t: State, u: State, sector: nat)
    requires Touches(s, t, sector) && u.disk == t.disk && |u.entries| == |t.entries|
    requires forall i :: 0 <= i < |t.entries| ==> u.entries[i].sector == t.entries[i].sector
    ensures Touches(s, u, sector)
  {
    forall k: nat | Cached(u, k)
      ensures Cached(t, k)
    {
      var i :| 0 <= i < |u.entries| && u.entries[i].sector == k;
      assert t.entries[i].sector == k;
    }
  }

  /** A read does nothing to any sector. */
  lemma ReadSpares(s: State, sector: nat, k: nat)
    requires Shaped(s) && sector < |s.disk| && k < |s.disk| && ReadState(s, sector).Some?
    ensures var t := ReadState(s, sector).value;
            Shaped(t) && |t.disk| == |s.disk| && Spares(s, t, k)
  {
    hide Spares, Fetch;
    FetchSpares(s, sector, k);
    var (f, i) := Fetch(s, sector).value;
    FlagsSpare(f, ReadState(s, sector).value, k);
    SparesTrans(s, f, ReadState(s, sector).value, k);
  }

  /** A read changes nothing anybody can see. */
  lemma ReadIsInvisible(s: State, sector: nat)
    requires Valid(s) && sector < |s.disk| && ReadState(s, sector).Some?
    ensures Valid(ReadState(s, sector).value) && View(ReadState(s, sector).value) == View(s)
  {
    hide Spares, ReadState;
    var t := ReadState(s, sector).value;
    ReadSpares(s, sector, sector);
    forall k | 0 <= k < |s.disk| ensures Spares(s, t, k) { ReadSpares(s, sector, k); }
    AllSpared(s, t);
  }

  /** From `s` to `t` the contents of `sector` become `data`, and nothing happens to any other sector. */
  ghost predicate Stores(s: State, t: State, sector: nat, data: Sector) {
    && Shaped(t) && sector < |s.disk| == |t.disk|
    && Agrees(t, sector) && Logical(t, sector) == data
    && forall k :: 0 <= k < |s.disk| && k != sector ==> Spares(s, t, k)
  }

  /** Storing into one entry changes its sector and no other. */
  lemma StoreInEntry(s: State, i: nat, data: Sector)
    requires Shaped(s) && i < |s.entries|
    ensures var t := State(s.disk, s.entries[i := s.entries[i].(data := data, isUsing := false, isDirty := true)]);
            Stores(s, t, s.entries[i].sector, data)
  {
    var t := State(s.disk, s.entries[i := s.entries[i].(data := data, isUsing := false, isDirty := true)]);
    FindIsUnique(t, i);
    hide Spares;
    forall k | 0 <= k < |s.disk| && k != s.entries[i].sector
      ensures Spares(s, t, k)
    {
      if j :| 0 <= j < |s.entries| && s.entries[j].sector == k {
        SameCopy(s, t, j, k);
      } else {
        NoCopy(s, t, k);
      }
    }
  }

  /** A write changes exactly the addressed bytes of the addressed sector, whatever the other entries hold. */
  lemma WriteStores(s: State, sector: nat, ofs: nat, bytes: seq<byte>)
    requires Shaped(s) && sector < |s.disk| && ofs + |bytes| <= SECTOR_SIZE
    requires WriteState(s, sector, ofs, bytes).Some?
    ensures Stores(s, WriteState(s, sector, ofs, bytes).value, sector, Splice(Logical(s, sector), ofs, bytes))
  {
    hide Spares, Fetch;
    FetchSpares(s, sector, sector);
    var (f, i) := Fetch(s, sector).value;
    var data: Sector := Splice(f.entries[i].data, ofs, bytes);
    StoreInEntry(f, i, data);
    var t := State(f.disk, f.entries[i := f.entries[i].(data := data, isUsing := false, isDirty := true)]);
    forall k | 0 <= k < |s.disk| && k != sector
      ensures Spares(s, t, k)
    {
      FetchSpares(s, sector, k);
      SparesTrans(s, f, t, k);
    }
  }

  /** In a valid cache that is a store into the plain array of sectors. */
  lemma StoresInView(s: State, t: State, sector: nat, data: Sector)
    requires Valid(s) && Stores(s, t, sector, data)
    ensures Valid(t) && View(t) == View(s)[sector := data]
  {
    forall k | 0 <= k < |s.disk|
      ensures Agrees(t, k) && Logical(t, k) == if k == sector then data else Logical(s, k)
    {
      if k != sector { assert Spares(s, t, k) && Agrees(s, k); }
    }
    forall i | 0 <= i < |t.entries| && !t.entries[i].isDirty
      ensures t.entries[i].data == t.disk[t.entries[i].sector]
    {
      assert Agrees(t, t.entries[i].sector);
    }
  }

  /** A write changes exactly the addressed bytes of the addressed sector. */
  lemma WriteIsSplice(s: State, sector: nat, ofs: nat, bytes: seq<byte>)
    requires Valid(s) && sector < |s.disk| && ofs + |bytes| <= SECTOR_SIZE
    requires WriteState(s, sector, ofs, bytes).Some?
    ensures var t := WriteState(s, sector, ofs, bytes).value;
            Valid(t) && View(t) == View(s)[sector := Splice(View(s)[sector], ofs, bytes)]
  {
    hide Stores, WriteState;
    WriteStores(s, sector, ofs, bytes);
    StoresInView(s, WriteState(s, sector, ofs, bytes).value, sector, Splice(Logical(s, sector), ofs, bytes));
  }

  /** One flushed entry. */
  function FlushOne(s: State, i: nat): State
    requires i < |s.entries| && s.entries[i].sector < |s.disk|
  {
    var e := s.entries[i];
    State(s.disk[e.sector := e.data], s.entries[i := e.(isUsing := false, isDirty := false)])
  }

  lemma EntriesOnDisk(s: State)
    requires Shaped(s)
    ensures forall k :: 0 <= k < |s.entries| ==> s.entries[k].sector < |s.disk|
  {
  }

  lemma FlushOneSpares(s: State, i: nat, k: nat)
    requires Shaped(s) && i < |s.entries| && s.entries[i].isDirty && k < |s.disk|
    ensures Shaped(FlushOne(s, i)) && Spares(s, FlushOne(s, i), k)
  {
    var t := FlushOne(s, i);
    if k == s.entries[i].sector {
      FindIsUnique(s, i);
      FindIsUnique(t, i);
    } else {
      hide Spares;
      if j :| 0 <= j < |s.entries| && s.entries[j].sector == k {
        SameCopy(s, t, j, k);
      } else {
        NoCopy(s, t, k);
      }
    }
  }

  /** A pass does nothing to any sector, and leaves no entry from `i` on dirty. */
  lemma {:induction false} FlushEffect(s: State, i: nat, k: nat)
    requires Shaped(s) && i <= |s.entries| && k < |s.disk|
    ensures var t := FlushFrom(s, i);
            && Shaped(t) && Spares(s, t, k)
            && (forall j :: 0 <= j < i ==> t.entries[j] == s.entries[j])
            && (forall j :: i <= j < |t.entries| ==> !t.entries[j].isDirty)
    decreases |s.entries| - i
  {
    hide Shaped;
    EntriesOnDisk(s);
    if i < |s.entries| {
      if !s.entries[i].isDirty {
        FlushEffect(s, i + 1, k);
      } else {
        FlushOneSpares(s, i, k);
        FlushEffect(FlushOne(s, i), i + 1, k);
        SparesTrans(s, FlushOne(s, i), FlushFrom(FlushOne(s, i), i + 1), k);
      }
    }
  }

  lemma FlushOnDisk(s: State, k: nat)
    requires Shaped(s) && k < |s.disk| && Agrees(s, k)
    ensures FlushFrom(s, 0).disk[k] == Logical(s, k)
  {
    FlushEffect(s, 0, k);
    LogicalIs(FlushFrom(s, 0), k);
  }

  /** After a write-behind pass the disk itself holds the logical contents. */
  lemma FlushMakesDiskCurrent(s: State)
    requires Valid(s)
    ensures FlushFrom(s, 0).disk == View(s)
  {
    forall k | 0 <= k < |s.disk|
      ensures FlushFrom(s, 0).disk[k] == View(s)[k]
    {
      FlushOnDisk(s, k);
    }
  }

  lemma FlushShaped(s: State)
    requires Shaped(s)
    ensures Shaped(FlushFrom(s, 0))
  {
    if s.disk != [] { FlushEffect(s, 0, 0); } else { NothingCached(s); }
  }

  lemma FlushIsInvisible(s: State)
    requires Valid(s)
    ensures Valid(FlushFrom(s, 0)) && View(FlushFrom(s, 0)) == View(s)
  {
    hide Spares, FlushFrom;
    FlushShaped(s);
    forall k | 0 <= k < |s.disk| ensures Spares(s, FlushFrom(s, 0), k) { FlushEffect(s, 0, k); }
    AllSpared(s, FlushFrom(s, 0));
  }

  lemma NothingCached(s: State)
    requires Shaped(s) && s.disk == []
    ensures FlushFrom(s, 0) == s
  {
    assert s.entries != [] ==> s.entries[0].sector < 0;
  }

  // ---------------------------------------------------------------- whole runs

  datatype Op = Read(sector: nat, ofs: nat, size: nat)
              | Write(sector: nat, ofs: nat, bytes: seq<byte>)
              | WriteBehind

  ghost predicate OpOk(op: Op, sectors: nat) {
    match op
    case Read(k, ofs, size) => k < sectors && ofs + size <= SECTOR_SIZE
    case Write(k, ofs, bytes) => k < sectors && ofs + |bytes| <= SECTOR_SIZE
    case WriteBehind => true
  }

  /** A plain array of sectors: the reference a cache is compared with. */
  function PlainStep(disk: seq<Sector>, op: Op): (seq<Sector>, seq<byte>)
    requires OpOk(op, |disk|)
  {
    match op
    case Read(k, ofs, size) => (disk, disk[k][ofs..ofs + size])
    case Write(k, ofs, bytes) => (disk[k := Splice(disk[k], ofs, bytes)], [])
    case WriteBehind => (disk, [])
  }

  function PlainRun(disk: seq<Sector>, ops: seq<Op>): seq<seq<byte>>
    requires forall i :: 0 <= i < |ops| ==> OpOk(ops[i], |disk|)
    decreases |ops|
  {
    if ops == [] then []
    else
      var (disk', out) := PlainStep(disk, ops[0]);
      [out] + PlainRun(disk', ops[1..])
  }

  /** One cache operation on values, with the bytes it hands to the caller. */
  ghost function CacheStep(s: State, op: Op): (r: Option<(State, seq<byte>)>)
    requires Shaped(s) && OpOk(op, |s.disk|)
  {
    match op
    case Read(k, ofs, size) =>
      var f := Fetch(s, k);
      if f.None? then None
      else Some((ReadState(s, k).value, f.value.0.entries[f.value.1].data[ofs..ofs + size]))
    case Write(k, ofs, bytes) =>
      var t := WriteState(s, k, ofs, bytes);
      if t.None? then None else Some((t.value, []))
    case WriteBehind => Some((FlushFrom(s, 0), []))
  }

  ghost predicate Unpinned(s: State) {
    forall i :: 0 <= i < |s.entries| ==> !s.entries[i].isUsing
  }

  /** One step: never stuck, valid again, nothing left pinned, same answer and same next view as the
      plain array. */
  lemma StepRefines(s: State, op: Op)
    requires Valid(s) && Unpinned(s) && OpOk(op, |s.disk|)
    ensures CacheStep(s, op).Some?
    ensures var (t, out) := CacheStep(s, op).value;
            Valid(t) && Unpinned(t) && |t.disk| == |s.disk| && (View(t), out) == PlainStep(View(s), op)
  {
    match op
    case Read(k, ofs, size) =>
      FetchEffect(s, k);
      FetchPinsOne(s, k);
      ReadIsInvisible(s, k);
    case Write(k, ofs, bytes) =>
      FetchEffect(s, k);
      FetchPinsOne(s, k);
      WriteIsSplice(s, k, ofs, bytes);
    case WriteBehind =>
      FlushIsInvisible(s);
      FlushUnpins(s, 0);
  }

  lemma FetchPinsOne(s: State, sector: nat)
    requires Shaped(s) && Unpinned(s) && sector < |s.disk| && Fetch(s, sector).Some?
    ensures var (t, i) := Fetch(s, sector).value;
            forall k :: 0 <= k < |t.entries| && k != i ==> !t.entries[k].isUsing
  {
    SelectEffect(s.entries);
  }

  lemma {:induction false} FlushUnpins(s: State, i: nat)
    requires Shaped(s) && Unpinned(s) && i <= |s.entries|
    ensures Unpinned(FlushFrom(s, i))
    decreases |s.entries| - i
  {
    if i < |s.entries| {
      if !s.entries[i].isDirty {
        FlushUnpins(s, i + 1);
      } else {
        FlushUnpins(FlushOne(s, i), i + 1);
      }
    }
  }

  ghost function CacheRun(s: State, ops: seq<Op>): (r: (State, seq<seq<byte>>))
    requires Valid(s) && Unpinned(s)
    requires forall i :: 0 <= i < |ops| ==> OpOk(ops[i], |s.disk|)
    ensures |r.0.disk| == |s.disk|
    decreases |ops|
  {
    if ops == [] then (s, [])
    else
      StepRefines(s, ops[0]);
      var (t, out) := CacheStep(s, ops[0]).value;
      var (end, outs) := CacheRun(t, ops[1..]);
      (end, [out] + outs)
  }

  /** Every run of reads, writes and write-behind passes, with whatever evictions they cause, gives
      exactly the answers of a plain array of sectors, and keeps the cache valid. */
  lemma {:induction false} CacheIsInvisible(s: State, ops: seq<Op>)
    requires Valid(s) && Unpinned(s)
    requires forall i :: 0 <= i < |ops| ==> OpOk(ops[i], |s.disk|)
    ensures CacheRun(s, ops).1 == PlainRun(View(s), ops)
    ensures Valid(CacheRun(s, ops).0)
    decreases |ops|
  {
    if ops != [] {
      StepRefines(s, ops[0]);
      CacheIsInvisible(CacheStep(s, ops[0]).value.0, ops[1..]);
    }
  }

  // ---------------------------------------------------------------- the source's own form

  class BufferCache {
    var disk: seq<Sector>
    var entries: seq<Entry>
    var currentSize: nat

    ghost predicate Ok()
      reads this
    {
      Shaped(Now()) && currentSize == |entries|
    }

    ghost function Now(): State
      reads this
    {
      State(disk, entries)
    }

    constructor (disk: seq<Sector>)
      ensures Ok() && Valid(Now()) && this.disk == disk && entries == []
    {
      this.disk := disk;
      entries := [];
      currentSize := 0;
    }

    method FindCache(sector: nat) returns (r: Option<nat>)
      ensures r == FindFrom(entries, sector, 0)
    {
      var i := 0;
      while i < |entries|
        invariant i <= |entries|
        invariant FindFrom(entries, sector, 0) == FindFrom(entries, sector, i)
      {
        if entries[i].sector == sector { return Some(i); }
        i := i + 1;
      }
      return None;
    }

    /** Writes entry `i` back if dirty, loads `sector` into it and leaves it pinned. */
    method TakeOver(i: nat, sector: nat)
      requires i < |entries| && entries[i].sector < |disk| && sector < |disk|
      modifies this`disk, this`entries
      ensures Now() == Replace(old(Now()), i, sector)
    {
      if entries[i].isDirty { disk := disk[entries[i].sector := entries[i].data]; }
      entries := entries[i := entries[i].(isUsing := true)];
      entries := entries[i := entries[i].(sector := sector)];
      entries := entries[i := entries[i].(data := disk[sector])];
      entries := entries[i := entries[i].(isDirty := false)];
    }

    method EvictCache(sector: nat) returns (r: Option<nat>)
      requires Ok() && sector < |disk|
      modifies this`disk, this`entries
      ensures r == Select(old(entries)).1
      ensures var cleared := Select(old(entries)).0;
              Now() == if r.None? then State(old(disk), cleared)
                       else Replace(State(old(disk), cleared), r.value, sector)
    {
      ghost var was := entries;
      var i := 0;
      while i < |entries|
        invariant i <= |entries| == |was| && disk == old(disk)
        invariant Sweep(was, 0) == Sweep(entries, i)
        invariant forall k :: 0 <= k < |was| ==> entries[k].sector == was[k].sector
      {
        if entries[i].isUsing {
        } else if entries[i].isUsed {
          entries := entries[i := entries[i].(isUsed := false)];
        } else {
          TakeOver(i, sector);
          return Some(i);
        }
        i := i + 1;
      }
      ghost var again := entries;
      i := 0;
      while i < |entries|
        invariant i <= |entries| == |was| && disk == old(disk)
        invariant Sweep(again, 0) == Sweep(entries, i)
        invariant forall k :: 0 <= k < |was| ==> entries[k].sector == was[k].sector
      {
        if entries[i].isUsing {
        } else if entries[i].isUsed {
          entries := entries[i := entries[i].(isUsed := false)];
        } else {
          TakeOver(i, sector);
          return Some(i);
        }
        i := i + 1;
      }
      return None;
    }

    method AllocateNewCache(sector: nat) returns (i: nat)
      requires Ok() && sector < |disk| && currentSize < MAX_CACHE_SIZE
      modifies this`entries, this`currentSize
      ensures i == |old(entries)| && currentSize == |entries|
      ensures entries == old(entries) + [Entry(sector, disk[sector], true, false, false)]
    {
      i := |entries|;
      entries := entries + [Entry(sector, disk[sector], true, false, true)];
      currentSize := currentSize + 1;
      entries := entries[i := entries[i].(isUsing := false)];
    }

    /** The part that reads and writes share: find the entry or bring it in. */
    method Obtain(sector: nat) returns (r: Option<nat>)
      requires Ok() && sector < |disk|
      modifies this
      ensures currentSize == |entries|
      ensures r.None? <==> Fetch(old(Now()), sector).None?
      ensures r.Some? ==> Fetch(old(Now()), sector) == Some((Now(), r.value))
      ensures r.None? ==> SameCopies(old(Now()), Now())
    {
      SelectEffect(entries);
      r := FindCache(sector);
      if r.None? {
        if currentSize < MAX_CACHE_SIZE {
          var i := AllocateNewCache(sector);
          r := Some(i);
        } else {
          r := EvictCache(sector);
        }
      } else {
        entries := entries[r.value := entries[r.value].(isUsed := true)];
      }
    }

    /** The bytes of the sector as users see it, unless the cache is stuck; nothing happens to any sector. */
    method Read(sector: nat, ofs: nat, size: nat) returns (r: Option<seq<byte>>)
      requires Ok() && sector < |disk| && ofs + size <= SECTOR_SIZE
      modifies this
      ensures Ok() && |disk| == |old(disk)| && forall k :: 0 <= k < |disk| ==> Spares(old(Now()), Now(), k)
      ensures r.None? <==> Stuck(old(Now())) && FindFrom(old(entries), sector, 0).None?
      ensures r.Some? ==> Touches(old(Now()), Now(), sector)
      ensures r.Some? && Unpinned(old(Now())) ==> Unpinned(Now())
      ensures r.Some? ==> CacheStep(old(Now()), Op.Read(sector, ofs, size)) == Some((Now(), r.value))
      ensures r.Some? ==> r.value == Logical(old(Now()), sector)[ofs..ofs + size]
      ensures Valid(old(Now())) ==> Valid(Now()) && View(Now()) == View(old(Now()))
    {
      hide Touches, View, Select, FindFrom, Replace, Stuck, Spares, Valid, SameCopies, Fetch;
      ghost var s := Now();
      FetchSpares(s, sector, sector);
      var i := Obtain(sector);
      if i.None? {
        FlagsSpare(s, Now(), sector);
        forall k | 0 <= k < |disk| ensures Spares(s, Now(), k) { FlagsSpare(s, Now(), k); }
        if Valid(s) { AllSpared(s, Now()); }
        return None;
      }
      FetchTouches(s, sector);
      if Unpinned(s) { FetchPinsOne(s, sector); }
      ghost var fetched := entries;
      entries := entries[i.value := entries[i.value].(isUsing := true)];
      r := Some(entries[i.value].data[ofs..ofs + size]);
      entries := entries[i.value := entries[i.value].(isUsing := false)];
      assert entries == fetched[i.value := fetched[i.value].(isUsing := false)];
      ReadSpares(s, sector, sector);
      forall k | 0 <= k < |disk| ensures Spares(s, Now(), k) { ReadSpares(s, sector, k); }
      if Valid(s) { AllSpared(s, Now()); }
      TouchesSameSectors(s, State(disk, fetched), Now(), sector);
    }

    /** Stores the bytes in the sector, unless the cache is stuck; nothing happens to any other sector. */
    method Write(sector: nat, ofs: nat, bytes: seq<byte>) returns (ok: bool)
      requires Ok() && sector < |disk| && ofs + |bytes| <= SECTOR_SIZE
      modifies this
      ensures Ok() && |disk| == |old(disk)|
      ensures !ok <==> Stuck(old(Now())) && FindFrom(old(entries), sector, 0).None?
      ensures ok ==> Stores(old(Now()), Now(), sector, Splice(Logical(old(Now()), sector), ofs, bytes))
      ensures ok ==> Touches(old(Now()), Now(), sector) && (Unpinned(old(Now())) ==> Unpinned(Now()))
      ensures ok ==> CacheStep(old(Now()), Op.Write(sector, ofs, bytes)) == Some((Now(), []))
      ensures !ok ==> forall k :: 0 <= k < |disk| ==> Spares(old(Now()), Now(), k)
      ensures Valid(old(Now())) ==>
                && Valid(Now())
                && View(Now()) == if !ok then View(old(Now()))
                                  else View(old(Now()))[sector := Splice(View(old(Now()))[sector], ofs, bytes)]
    {
      hide Touches, View, Select, FindFrom, Replace, Stuck, Spares, Valid, SameCopies, Fetch;
      ghost var s := Now();
      FetchSpares(s, sector, sector);
      var i := Obtain(sector);
      if i.None? {
        FlagsSpare(s, Now(), sector);
        forall k | 0 <= k < |disk| ensures Spares(s, Now(), k) { FlagsSpare(s, Now(), k); }
        if Valid(s) { AllSpared(s, Now()); }
        return false;
      }
      FetchTouches(s, sector);
      if Unpinned(s) { FetchPinsOne(s, sector); }
      ghost var fetched := entries;
      entries := entries[i.value := entries[i.value].(isUsing := true)];
      entries := entries[i.value := entries[i.value].(data := Splice(entries[i.value].data, ofs, bytes))];
      entries := entries[i.value := entries[i.value].(isUsing := false)];
      entries := entries[i.value := entries[i.value].(isDirty := true)];
      assert entries == fetched[i.value := fetched[i.value].(data := Splice(fetched[i.value].data, ofs, bytes),
                                                             isUsing := false, isDirty := true)];
      WriteStores(s, sector, ofs, bytes);
      if Valid(s) { WriteIsSplice(s, sector, ofs, bytes); }
      TouchesSameSectors(s, State(disk, fetched), Now(), sector);
      return true;
    }

    /** One write-behind pass: nothing happens to any sector, and the disk holds what users see, except where a clean
        copy differed from it. */
    method WriteBehindLoop()
      requires Ok()
      modifies this`disk, this`entries
      ensures Ok() && Now() == FlushFrom(old(Now()), 0) && |disk| == |old(disk)|
      ensures forall k :: 0 <= k < |disk| ==> Spares(old(Now()), Now(), k)
      ensures forall k :: 0 <= k < |disk| && Agrees(old(Now()), k) ==> disk[k] == Logical(old(Now()), k)
      ensures Valid(old(Now())) ==> Valid(Now()) && disk == View(old(Now())) && View(Now()) == View(old(Now()))
      ensures Unpinned(old(Now())) ==> Unpinned(Now())
    {
      hide View, Valid, Shaped, Spares, Agrees, Logical;
      ghost var s := Now();
      EntriesOnDisk(s);
      FlushShaped(s);
      forall k | 0 <= k < |disk| ensures Spares(s, FlushFrom(s, 0), k) { FlushEffect(s, 0, k); }
      forall k | 0 <= k < |disk| && Agrees(s, k) ensures FlushFrom(s, 0).disk[k] == Logical(s, k) { FlushOnDisk(s, k); }
      if Valid(s) {
        FlushIsInvisible(s);
        FlushMakesDiskCurrent(s);
      }
      if Unpinned(s) { FlushUnpins(s, 0); }
      var i := 0;
      while i < |entries|
        invariant i <= |entries| == currentSize
        invariant forall k :: 0 <= k < |entries| ==> entries[k].sector < |disk|
        invariant FlushFrom(Now(), i) == FlushFrom(s, 0)
      {
        ghost var before := Now();
        if entries[i].isDirty {
          entries := entries[i := entries[i].(isUsing := true)];
          disk := disk[entries[i].sector := entries[i].data];
          entries := entries[i := entries[i].(isUsing := false)];
          entries := entries[i := entries[i].(isDirty := false)];
          assert Now() == FlushOne(before, i);
        }
        i := i + 1;
      }
    }
  }
}
