/** The chunk loop of a write, on values: which bytes of the file are settled after each chunk. */
module FileWriting {
  import opened Wrappers
  import opened DiskModel
  import opened CacheModel
  import opened InodeLayout
  import opened FileSystemModel
  import opened FileContents

  /** The first sector position that a write from `offset` has not reached when it is at `at`. */
  function Reached(offset: nat, at: nat): nat
    requires offset <= at
  {
    if at == offset then offset / SECTOR_SIZE else BytesToSectors(at)
  }

  predicate IsReached(offset: nat, at: nat, i: nat)
    requires offset <= at
  {
    offset / SECTOR_SIZE <= i < Reached(offset, at)
  }

  lemma ReachedStep(offset: nat, at: nat, n: nat)
    requires offset <= at && n > 0 && at % SECTOR_SIZE + n <= SECTOR_SIZE
    ensures forall i :: IsReached(offset, at + n, i) <==> IsReached(offset, at, i) || i == at / SECTOR_SIZE
  {
  }

  lemma ReachedByte(offset: nat, at: nat, p: nat)
    requires offset <= p < at
    ensures IsReached(offset, at, p / SECTOR_SIZE)
  {
  }

  /** Of the stale positions, those the write has not reached. */
  ghost function StaleAt(stale: set<nat>, offset: nat, at: nat): set<nat>
    requires offset <= at
  {
    set i | i in stale && !IsReached(offset, at, i)
  }

  ghost predicate HoldsBuffer(t: State, data: seq<nat>, length: nat, offset: nat, buffer: seq<byte>, at: nat) {
    && offset <= at <= offset + |buffer| <= length && Covers(|t.disk|, data, length)
    && forall p :: offset <= p < at ==> ByteAt(t, data, length, p) == buffer[p - offset]
  }

  /** The bytes that are not written show what they showed. */
  ghost predicate Unwritten(c: State, t: State, data: seq<nat>, length: nat, offset: nat, at: nat) {
    && |t.disk| == |c.disk| && Covers(|c.disk|, data, length)
    && forall p :: 0 <= p < length && !(offset <= p < at) ==> Shown(c, t, data, length, p)
  }

  /** Nothing happens to sectors that the write has not reached. */
  ghost predicate Unreached(c: State, t: State, data: seq<nat>, offset: nat, at: nat)
    requires offset <= at
  {
    && |t.disk| == |c.disk|
    && (forall k :: 0 <= k < |c.disk| && k !in data ==> Spares(c, t, k))
    && (forall i :: 0 <= i < |data| && !IsReached(offset, at, i) && data[i] < |c.disk| ==> Spares(c, t, data[i]))
  }

  /** The write has come to `at`: the file is intact, the chunks so far are in place, the other bytes show what they
      showed in `c`, and other sectors are left alone. */
  ghost predicate Progress(c: State, t: State, used: seq<bool>, node: Node, data: seq<nat>, index: seq<nat>,
                           length: nat, stale: set<nat>, offset: nat, buffer: seq<byte>, at: nat)
  {
    && Shaped(c) && offset <= at <= offset + |buffer| <= length && Covers(|t.disk|, data, length)
    && HoldsBuffer(t, data, length, offset, buffer, at)
    && Unwritten(c, t, data, length, offset, at)
    && Unreached(c, t, data, offset, at)
    && Intact(t, used, node, data, index, StaleAt(stale, offset, at))
  }

  // ---------------------------------------------------------------- one chunk

  /** The byte at `p` after a chunk was stored in its sector. */
  lemma ByteAfter(t: State, u: State, data: seq<nat>, length: nat, at: nat, chunk: seq<byte>, p: nat)
    requires |u.disk| == |t.disk| && Covers(|t.disk|, data, length) && p < length && at < length
    requires at % SECTOR_SIZE + |chunk| <= SECTOR_SIZE && at / SECTOR_SIZE < |data|
    requires Logical(u, data[at / SECTOR_SIZE]) == Splice(Logical(t, data[at / SECTOR_SIZE]), at % SECTOR_SIZE, chunk)
    requires p / SECTOR_SIZE == at / SECTOR_SIZE
    ensures ByteAt(u, data, length, p)
            == if at <= p < at + |chunk| then chunk[p - at] else ByteAt(t, data, length, p)
  {
    hide Logical;
    var o := at % SECTOR_SIZE;
    assert p % SECTOR_SIZE - o == p - at;
    var was, now := Logical(t, data[at / SECTOR_SIZE]), Logical(u, data[at / SECTOR_SIZE]);
    if at <= p < at + |chunk| {
      assert now[o..o + |chunk|][p - at] == chunk[p - at];
    }
  }

  lemma ByteElsewhere(t: State, u: State, data: seq<nat>, length: nat, p: nat)
    requires |u.disk| == |t.disk| && Covers(|t.disk|, data, length) && p < length
    requires p / SECTOR_SIZE < |data| ==> Logical(u, data[p / SECTOR_SIZE]) == Logical(t, data[p / SECTOR_SIZE])
    ensures ByteAt(u, data, length, p) == ByteAt(t, data, length, p)
  {
    hide Logical;
    SectorOfByte(length, p);
  }

  lemma OtherSector(pos: nat, n: nat, p: nat)
    requires pos % SECTOR_SIZE + n <= SECTOR_SIZE && p / SECTOR_SIZE != pos / SECTOR_SIZE
    ensures !(pos <= p < pos + n)
  {
  }

  /** The sectors that the write has reached keep what they show, except that of the chunk. */
  ghost predicate ReachedKept(t: State, u: State, data: seq<nat>, offset: nat, at: nat)
    requires offset <= at
  {
    && |u.disk| == |t.disk|
    && forall j :: 0 <= j < |data| && j != at / SECTOR_SIZE && IsReached(offset, at, j) && data[j] < |t.disk| ==>
         Logical(u, data[j]) == Logical(t, data[j])
  }

  /** The chunk is in place, and what was in place stays. */
  lemma BufferStep(t: State, u: State, data: seq<nat>, length: nat, offset: nat, buffer: seq<byte>, at: nat, n: nat)
    requires HoldsBuffer(t, data, length, offset, buffer, at) && ReachedKept(t, u, data, offset, at)
    requires 0 < n <= offset + |buffer| - at && at % SECTOR_SIZE + n <= SECTOR_SIZE && at / SECTOR_SIZE < |data|
    requires Logical(u, data[at / SECTOR_SIZE])
             == Splice(Logical(t, data[at / SECTOR_SIZE]), at % SECTOR_SIZE, buffer[at - offset..at - offset + n])
    ensures HoldsBuffer(u, data, length, offset, buffer, at + n)
  {
    hide Logical, ByteAt, IsReached;
    var chunk, i := buffer[at - offset..at - offset + n], at / SECTOR_SIZE;
    forall p | offset <= p < at + n
      ensures ByteAt(u, data, length, p) == buffer[p - offset]
    {
      if p / SECTOR_SIZE == i {
        ByteAfter(t, u, data, length, at, chunk, p);
      } else {
        OtherSector(at, n, p);
        ReachedByte(offset, at, p);
        ByteElsewhere(t, u, data, length, p);
      }
    }
  }

  lemma SameShown(c: State, t: State, u: State, data: seq<nat>, length: nat, p: nat)
    requires |u.disk| == |t.disk| == |c.disk| && Covers(|c.disk|, data, length) && p < length
    requires Shown(c, t, data, length, p) && ByteAt(u, data, length, p) == ByteAt(t, data, length, p)
    ensures Shown(c, u, data, length, p)
  {
  }

  lemma UnwrittenStep(c: State, t: State, u: State, data: seq<nat>, length: nat, offset: nat, chunk: seq<byte>, at: nat)
    requires Shaped(c) && offset <= at && 0 < |chunk| && at + |chunk| <= length
    requires Unwritten(c, t, data, length, offset, at)
    requires at % SECTOR_SIZE + |chunk| <= SECTOR_SIZE && at / SECTOR_SIZE < |data|
    requires ReachedKept(t, u, data, offset, at) && Unreached(c, u, data, offset, at + |chunk|)
    requires Logical(u, data[at / SECTOR_SIZE]) == Splice(Logical(t, data[at / SECTOR_SIZE]), at % SECTOR_SIZE, chunk)
    ensures Unwritten(c, u, data, length, offset, at + |chunk|)
  {
    hide Logical, ByteAt, Shown, IsReached, Spares, Shaped;
    ReachedStep(offset, at, |chunk|);
    forall p | 0 <= p < length && !(offset <= p < at + |chunk|)
      ensures Shown(c, u, data, length, p)
    {
      SectorOfByte(length, p);
      var j := p / SECTOR_SIZE;
      if j == at / SECTOR_SIZE {
        ByteAfter(t, u, data, length, at, chunk, p);
        SameShown(c, t, u, data, length, p);
      } else if IsReached(offset, at, j) {
        ByteElsewhere(t, u, data, length, p);
        SameShown(c, t, u, data, length, p);
      } else {
        SparesShown(c, u, data, length, p);
      }
    }
  }

  lemma UnreachedStep(c: State, t: State, u: State, data: seq<nat>, offset: nat, at: nat, n: nat, bytes: Sector)
    requires offset <= at && n > 0 && at % SECTOR_SIZE + n <= SECTOR_SIZE && at / SECTOR_SIZE < |data|
    requires Unreached(c, t, data, offset, at) && Distinct(data) && Stores(t, u, data[at / SECTOR_SIZE], bytes)
    ensures Unreached(c, u, data, offset, at + n)
  {
    hide Spares, IsReached, Logical, Agrees, Shaped;
    ReachedStep(offset, at, n);
    forall k | 0 <= k < |c.disk| && k !in data
      ensures Spares(c, u, k)
    {
      SparesTrans(c, t, u, k);
    }
    forall i | 0 <= i < |data| && !IsReached(offset, at + n, i) && data[i] < |c.disk|
      ensures Spares(c, u, data[i])
    {
      assert i != at / SECTOR_SIZE;
      SparesTrans(c, t, u, data[i]);
    }
  }

  lemma StaleStep(stale: set<nat>, offset: nat, at: nat, n: nat)
    requires offset <= at && n > 0 && at % SECTOR_SIZE + n <= SECTOR_SIZE
    ensures StaleAt(stale, offset, at + n) == StaleAt(stale, offset, at) - {at / SECTOR_SIZE}
  {
    hide IsReached;
    ReachedStep(offset, at, n);
  }

  /** One chunk. */
  lemma ProgressStep(c: State, t: State, u: State, used: seq<bool>, node: Node, data: seq<nat>, index: seq<nat>,
                     length: nat, stale: set<nat>, offset: nat, buffer: seq<byte>, at: nat, n: nat)
    requires Progress(c, t, used, node, data, index, length, stale, offset, buffer, at)
    requires 0 < n <= offset + |buffer| - at && at % SECTOR_SIZE + n <= SECTOR_SIZE && at / SECTOR_SIZE < |data|
    requires data[at / SECTOR_SIZE] < |t.disk|
    requires Stores(t, u, data[at / SECTOR_SIZE],
                    Splice(Logical(t, data[at / SECTOR_SIZE]), at % SECTOR_SIZE, buffer[at - offset..at - offset + n]))
    ensures Progress(c, u, used, node, data, index, length, stale, offset, buffer, at + n)
  {
    hide Logical, Intact, HoldsBuffer, Unwritten, Unreached, Spares, Agrees, Shaped, IsReached;
    var i, chunk := at / SECTOR_SIZE, buffer[at - offset..at - offset + n];
    var bytes: Sector := Splice(Logical(t, data[i]), at % SECTOR_SIZE, chunk);
    FileStored(t, u, used, node, data, index, StaleAt(stale, offset, at), i, bytes);
    StaleStep(stale, offset, at, n);
    IntactDistinct(t, used, node, data, index, StaleAt(stale, offset, at));
    UnreachedStep(c, t, u, data, offset, at, n, bytes);
    assert ReachedKept(t, u, data, offset, at);
    BufferStep(t, u, data, length, offset, buffer, at, n);
    UnwrittenStep(c, t, u, data, length, offset, chunk, at);
  }

  lemma IntactDistinct(c: State, used: seq<bool>, node: Node, data: seq<nat>, index: seq<nat>, stale: set<nat>)
    requires Intact(c, used, node, data, index, stale)
    ensures Distinct(data)
  {
  }

  // ---------------------------------------------------------------- the whole write

  lemma NothingYet(c: State, used: seq<bool>, node: Node, data: seq<nat>, index: seq<nat>,
                   length: nat, stale: set<nat>, offset: nat, buffer: seq<byte>)
    requires Shaped(c) && offset + |buffer| <= length && Covers(|c.disk|, data, length)
    requires Intact(c, used, node, data, index, stale)
    ensures Progress(c, c, used, node, data, index, length, stale, offset, buffer, offset)
  {
    hide Intact, ByteAt;
    assert StaleAt(stale, offset, offset) == stale;
  }

  /** `now` is `was` with `buffer` stored at `offset`, as long as both reach. */
  ghost predicate Written(was: seq<byte>, offset: nat, buffer: seq<byte>, now: seq<byte>) {
    var end := offset + |buffer|;
    && |now| == (if end > |was| then end else |was|)
    && now[offset..end] == buffer
    && forall p :: 0 <= p < |was| && !(offset <= p < end) ==> now[p] == was[p]
  }

  /** With no gap between the old end and the write, that determines the new contents. */
  lemma WrittenExactly(was: seq<byte>, offset: nat, buffer: seq<byte>, now: seq<byte>)
    requires Written(was, offset, buffer, now) && offset <= |was|
    ensures now == was[..offset] + buffer + (if offset + |buffer| < |was| then was[offset + |buffer|..] else [])
  {
    var want := was[..offset] + buffer + (if offset + |buffer| < |was| then was[offset + |buffer|..] else []);
    forall p | 0 <= p < |now|
      ensures now[p] == want[p]
    {
      if offset <= p < offset + |buffer| { assert now[offset..offset + |buffer|][p - offset] == now[p]; }
    }
  }

  /** A byte of a sector that is new at `known`: zero if the sector was not cached; what the copy held if that waited to
      be written back; one of the two if the copy was clean. */
  ghost predicate NewByte(c: State, t: State, data: seq<nat>, length: nat, p: nat)
    requires |t.disk| == |c.disk| && Covers(|c.disk|, data, length) && p < length
  {
    SectorOfByte(length, p);
    var k, b := data[p / SECTOR_SIZE], ByteAt(t, data, length, p);
    && (!Cached(c, k) ==> b == 0)
    && (Cached(c, k) && !Clean(c, k) ==> b == ByteAt(c, data, length, p))
    && (Cached(c, k) && Clean(c, k) ==> b == ByteAt(c, data, length, p) || b == 0)
  }

  /** A write of the bytes from `offset` to `end` from `c` to `t`, the file having had `known` sectors: the other bytes
      of old sectors show what they showed, and those of new ones are as said. */
  ghost predicate OthersShown(c: State, t: State, data: seq<nat>, length: nat, known: nat, offset: nat, end: nat) {
    && |t.disk| == |c.disk| && Covers(|c.disk|, data, length)
    && forall p :: 0 <= p < length && !(offset <= p < end) ==>
         if p / SECTOR_SIZE < known then Shown(c, t, data, length, p) else NewByte(c, t, data, length, p)
  }

  /** What a byte shows does not depend on the growth, if its sector is old. */
  lemma OldByte(c: State, t: State, u: State, data: seq<nat>, data': seq<nat>, length: nat, p: nat)
    requires Grown(c, t, data, data') && |u.disk| == |t.disk| && Covers(|c.disk|, data', length) && p < length
    requires Shown(t, u, data', length, p) && p / SECTOR_SIZE < |data|
    ensures Shown(c, u, data', length, p)
  {
    var i := p / SECTOR_SIZE;
    DiskSpares(c, t, data'[i]);
  }

  lemma FreshByte(c: State, t: State, u: State, data: seq<nat>, data': seq<nat>, length: nat, p: nat)
    requires Shaped(c) && Grown(c, t, data, data') && |u.disk| == |t.disk|
    requires Covers(|c.disk|, data', length) && p < length
    requires Shown(t, u, data', length, p) && p / SECTOR_SIZE >= |data|
    ensures NewByte(c, u, data', length, p)
  {
    hide Logical, Agrees, Cached, Clean, Shaped;
    SectorOfByte(length, p);
    NewSector(c, t, data'[p / SECTOR_SIZE]);
  }

  lemma ProgressParts(c: State, t: State, used: seq<bool>, node: Node, data: seq<nat>, index: seq<nat>,
                      length: nat, stale: set<nat>, offset: nat, buffer: seq<byte>, at: nat)
    requires Progress(c, t, used, node, data, index, length, stale, offset, buffer, at)
    ensures |t.disk| == |c.disk| && Covers(|t.disk|, data, length) && HoldsBuffer(t, data, length, offset, buffer, at)
    ensures offset <= at <= offset + |buffer| <= length && Unwritten(c, t, data, length, offset, at)
    ensures Intact(t, used, node, data, index, StaleAt(stale, offset, at))
    ensures forall k :: 0 <= k < |c.disk| && k !in data ==> Spares(c, t, k)
  {
  }

  /** When all chunks are stored: every byte that was not written. */
  lemma RestShown(c: State, t: State, u: State, data: seq<nat>, data': seq<nat>, length: nat, offset: nat, end: nat)
    requires Shaped(c) && Grown(c, t, data, data') && Unwritten(t, u, data', length, offset, end)
    ensures OthersShown(c, u, data', length, |data|, offset, end)
  {
    hide Shown, NewByte, Shaped;
    forall p | 0 <= p < length && !(offset <= p < end)
      ensures if p / SECTOR_SIZE < |data| then Shown(c, u, data', length, p) else NewByte(c, u, data', length, p)
    {
      if p / SECTOR_SIZE < |data| {
        OldByte(c, t, u, data, data', length, p);
      } else {
        FreshByte(c, t, u, data, data', length, p);
      }
    }
  }

  /** When all chunks are stored, a file that was in order is its old contents with the buffer in place. */
  lemma Finished(c: State, u: State, data: seq<nat>, data': seq<nat>, was: nat, length: nat, offset: nat,
                 buffer: seq<byte>)
    requires data <= data' && AllAgree(c, data, {}) && Covers(|c.disk|, data, was) && |data| == BytesToSectors(was)
    requires length == if offset + |buffer| > was then offset + |buffer| else was
    requires OthersShown(c, u, data', length, |data|, offset, offset + |buffer|)
    requires HoldsBuffer(u, data', length, offset, buffer, offset + |buffer|)
    ensures Written(FileBytes(c, data, was), offset, buffer, FileBytes(u, data', length))
  {
    hide Logical, Agrees, NewByte;
    var before, after, end := FileBytes(c, data, was), FileBytes(u, data', length), offset + |buffer|;
    forall p | 0 <= p < was && !(offset <= p < end)
      ensures after[p] == before[p]
    {
      SectorOfByte(was, p);
      assert Shown(c, u, data', length, p);
      assert data'[p / SECTOR_SIZE] == data[p / SECTOR_SIZE];
    }
    hide ByteAt;
    forall i | 0 <= i < |buffer|
      ensures after[offset..end][i] == buffer[i]
    {
      assert after[offset + i] == ByteAt(u, data', length, offset + i);
    }
  }

  /** A write that does not start behind the old end leaves nothing stale that was not so before. */
  lemma NoGapNothingStale(c: State, data: seq<nat>, was: nat, length: nat, offset: nat, size: nat)
    requires length == (if offset + size > was then offset + size else was) && |data| == BytesToSectors(length)
    requires offset <= was
    ensures StaleAt(NewStale(c, data, BytesToSectors(was)), offset, offset + size) == {}
  {
  }
}
