/** Open files beside the cache: what happens to all of them when one is written, created or removed. */
module OpenFiles {
  import opened Wrappers
  import opened DiskModel
  import opened CacheModel
  import opened InodeLayout
  import opened InodeGrowLaws
  import opened InodeSteps
  import opened InodeTheorems
  import opened FileSystemModel
  import opened FileContents
  import opened FileIO

  /** An open file: its inode's sector, its pointers, the sectors they lead to, and its length. */
  datatype File = File(sector: nat, node: Node, data: seq<nat>, index: seq<nat>, length: nat)

  ghost function Own(f: File): seq<nat> {
    [f.sector] + (f.data + f.index)
  }

  ghost predicate InOrder(c: State, used: seq<bool>, f: File) {
    && Intact(c, used, f.node, f.data, f.index, {}) && Covers(|c.disk|, f.data, f.length)
    && |f.data| == BytesToSectors(f.length)
    && f.sector < |used| && used[f.sector] && f.sector !in f.data && f.sector !in f.index
  }

  /** All files are intact, and no two share a sector. */
  ghost predicate AllInOrder(c: State, used: seq<bool>, files: seq<File>) {
    && (forall i :: 0 <= i < |files| ==> InOrder(c, used, files[i]))
    && (forall i, j :: 0 <= i < |files| && 0 <= j < |files| && i != j ==> Disjoint(Own(files[i]), Own(files[j])))
  }

  ghost function BytesOf(c: State, f: File): seq<byte>
    requires Covers(|c.disk|, f.data, f.length)
  {
    FileBytes(c, f.data, f.length)
  }

  /** The contents of all files. */
  ghost function AllBytes(c: State, files: seq<File>): (r: seq<seq<byte>>)
    requires forall i :: 0 <= i < |files| ==> Covers(|c.disk|, files[i].data, files[i].length)
    ensures |r| == |files| && forall i :: 0 <= i < |files| ==> r[i] == BytesOf(c, files[i])
  {
    seq(|files|, i requires 0 <= i < |files| => BytesOf(c, files[i]))
  }

  function LengthsOf(files: seq<File>): (r: seq<nat>)
    ensures |r| == |files| && forall i :: 0 <= i < |files| ==> r[i] == files[i].length
  {
    seq(|files|, i requires 0 <= i < |files| => files[i].length)
  }

  // ---------------------------------------------------------------- what a file owns

  /** Its sectors are in use, different, and one more than its data and pointer sectors. */
  lemma OwnParts(c: State, used: seq<bool>, f: File)
    requires InOrder(c, used, f)
    ensures |Own(f)| == 1 + Total(|f.data|) && |f.data + f.index| == Total(|f.data|) && Distinct(Own(f))
    ensures forall k :: k in Own(f) ==> k < |used| && used[k]
    ensures forall k :: k in Own(f) <==> k == f.sector || k in f.data || k in f.index
  {
    HoldsParts(Store(c.disk, used), f.node, f.data, f.index);
    assert |f.index| == IndexCount(|f.data|);
    hide Intact, Holds, Covers;
    forall k
      ensures k in Own(f) <==> k == f.sector || k in f.data || k in f.index
    {
      assert k in f.data + f.index <==> k in f.data || k in f.index;
    }
    OwnDistinct(f);
  }

  lemma OwnDistinct(f: File)
    requires Distinct(f.data) && Distinct(f.index) && Disjoint(f.data, f.index)
    requires f.sector !in f.data && f.sector !in f.index
    ensures Distinct(Own(f))
  {
    var rest := f.data + f.index;
    forall i, j | 0 <= i < j < |Own(f)|
      ensures Own(f)[i] != Own(f)[j]
    {
      assert Own(f)[j] == rest[j - 1];
      if i > 0 { assert Own(f)[i] == rest[i - 1]; }
    }
  }

  /** More sectors may be counted as the operation's own. */
  lemma LeavesMore(c: State, used: seq<bool>, t: State, used': seq<bool>, own: seq<nat>, own': seq<nat>)
    requires Leaves(c, used, t, used', own) && forall k :: k in own ==> k in own'
    ensures Leaves(c, used, t, used', own')
  {
    hide Spares;
  }

  lemma DisjointFrom(s: seq<nat>, t: seq<nat>)
    ensures Disjoint(s, t) <==> forall k :: k in s ==> k !in t
  {
    if Disjoint(s, t) {
      forall k | k in s
        ensures k !in t
      {
        var i :| 0 <= i < |s| && s[i] == k;
        assert forall j :: 0 <= j < |t| ==> s[i] != t[j];
      }
    } else {
      var i, j :| 0 <= i < |s| && 0 <= j < |t| && s[i] == t[j];
      assert s[i] in s && s[i] in t;
    }
  }

  // ---------------------------------------------------------------- the other files

  /** A file whose sectors an operation leaves alone stays as it is. */
  lemma OneStays(c: State, used: seq<bool>, t: State, used': seq<bool>, own: seq<nat>, f: File)
    requires InOrder(c, used, f) && Leaves(c, used, t, used', own) && Shaped(t) && Disjoint(Own(f), own)
    ensures InOrder(t, used', f) && BytesOf(t, f) == BytesOf(c, f)
  {
    OwnParts(c, used, f);
    hide Intact, FileBytes, Shaped, Spares;
    DisjointFrom(Own(f), own);
    DisjointFrom(f.data, own);
    DisjointFrom(f.index, own);
    hide Disjoint, Distinct;
    OtherFile(c, used, t, used', own, f.node, f.data, f.index, f.length, {});
    assert f.sector in Own(f);
  }

  /** Sectors that were free, or were those of `f`, are no sectors of another file. */
  lemma StillApart(c: State, used: seq<bool>, f: File, own: File, own': File, used': seq<bool>)
    requires InOrder(c, used, f) && Disjoint(Own(f), Own(own)) && own'.sector == own.sector
    requires Takes(used, used', own.data + own.index, own'.data + own'.index)
    ensures Disjoint(Own(f), Own(own')) && Disjoint(Own(own'), Own(f))
  {
    hide Free;
    OwnParts(c, used, f);
    DisjointFrom(Own(f), Own(own));
    DisjointFrom(Own(f), Own(own'));
    DisjointFrom(Own(own'), Own(f));
    hide Intact, Covers, Disjoint, Distinct;
    forall k | k in Own(f)
      ensures k !in Own(own')
    {
      var rest := own'.data + own'.index;
      assert k !in Own(own);
      forall i | 0 <= i < |rest| ensures rest[i] != k {
        assert rest[i] in own.data + own.index || (rest[i] < |used| && !used[rest[i]]);
        assert forall x :: x in own.data + own.index ==> x in Own(own);
      }
      assert own.sector in Own(own);
    }
  }

  /** One file changes to `own`, within its own and free sectors: the others keep their bytes. */
  lemma OthersStay(c: State, used: seq<bool>, t: State, used': seq<bool>, files: seq<File>, j: nat, own: File)
    requires AllInOrder(c, used, files) && j < |files| && Shaped(t) && InOrder(t, used', own)
    requires Leaves(c, used, t, used', own.data + own.index) && own.sector == files[j].sector
    requires Takes(used, used', files[j].data + files[j].index, own.data + own.index)
    ensures AllInOrder(t, used', files[j := own])
    ensures AllBytes(t, files[j := own]) == AllBytes(c, files)[j := BytesOf(t, own)]
  {
    hide Intact, Covers, FileBytes, Leaves, Takes, Shaped, Disjoint, Own;
    LeavesOwn(c, used, t, used', own);
    forall i | 0 <= i < |files| && i != j
      ensures InOrder(t, used', files[i]) && BytesOf(t, files[i]) == BytesOf(c, files[i])
      ensures Disjoint(Own(files[i]), Own(own)) && Disjoint(Own(own), Own(files[i]))
    {
      assert Disjoint(Own(files[i]), Own(files[j]));
      StillApart(c, used, files[i], files[j], own, used');
      OneStays(c, used, t, used', Own(own), files[i]);
    }
  }

  lemma LeavesOwn(c: State, used: seq<bool>, t: State, used': seq<bool>, f: File)
    requires Leaves(c, used, t, used', f.data + f.index)
    ensures Leaves(c, used, t, used', Own(f))
  {
    LeavesMore(c, used, t, used', f.data + f.index, Own(f));
  }

  /** A file of free sectors joins: the others keep their bytes. */
  lemma FileJoins(c: State, used: seq<bool>, t: State, used': seq<bool>, files: seq<File>, f: File)
    requires AllInOrder(c, used, files) && Shaped(t) && InOrder(t, used', f)
    requires Leaves(c, used, t, used', Own(f)) && forall k :: k in Own(f) ==> k < |used| && !used[k]
    ensures AllInOrder(t, used', files + [f])
    ensures AllBytes(t, files + [f]) == AllBytes(c, files) + [BytesOf(t, f)]
  {
    hide Intact, Covers, FileBytes, Leaves, Shaped, Disjoint, Own;
    forall i | 0 <= i < |files|
      ensures InOrder(t, used', files[i]) && BytesOf(t, files[i]) == BytesOf(c, files[i])
      ensures Disjoint(Own(files[i]), Own(f)) && Disjoint(Own(f), Own(files[i]))
    {
      OwnParts(c, used, files[i]);
      DisjointFrom(Own(files[i]), Own(f));
      DisjointFrom(Own(f), Own(files[i]));
      OneStays(c, used, t, used', Own(f), files[i]);
    }
  }

  function Without<T>(s: seq<T>, j: nat): seq<T>
    requires j < |s|
  {
    s[..j] + s[j + 1..]
  }

  lemma WithoutAt<T>(s: seq<T>, j: nat)
    requires j < |s|
    ensures |Without(s, j)| == |s| - 1
    ensures forall i :: 0 <= i < |s| - 1 ==> Without(s, j)[i] == s[if i < j then i else i + 1]
  {
  }

  lemma OthersRelease(c: State, used: seq<bool>, used': seq<bool>, files: seq<File>, j: nat, i: nat)
    requires AllInOrder(c, used, files) && j < |files| && i < |files| && i != j && |c.disk| == |used| == |used'|
    requires forall k :: 0 <= k < |used| ==> (used'[k] <==> used[k] && k !in Own(files[j]))
    ensures InOrder(c, used', files[i])
  {
    hide Intact, Covers, FileBytes, Leaves, Disjoint, Own, Shaped;
    ReleaseLeaves(c, used, used', Own(files[j]));
    assert Disjoint(Own(files[i]), Own(files[j]));
    InOrderShaped(c, used, files[i]);
    OneStays(c, used, c, used', Own(files[j]), files[i]);
  }

  /** A file's sectors are released: the others keep their bytes. */
  lemma FileLeaves(c: State, used: seq<bool>, used': seq<bool>, files: seq<File>, j: nat)
    requires AllInOrder(c, used, files) && j < |files| && |c.disk| == |used| == |used'|
    requires forall k :: 0 <= k < |used| ==> (used'[k] <==> used[k] && k !in Own(files[j]))
    ensures AllInOrder(c, used', Without(files, j))
    ensures AllBytes(c, Without(files, j)) == Without(AllBytes(c, files), j)
  {
    hide InOrder, Disjoint, Own, Without, BytesOf;
    var rest := Without(files, j);
    WithoutAt(files, j);
    forall i | 0 <= i < |rest|
      ensures InOrder(c, used', rest[i])
    {
      OthersRelease(c, used, used', files, j, if i < j then i else i + 1);
    }
    forall i, k | 0 <= i < |rest| && 0 <= k < |rest| && i != k
      ensures Disjoint(Own(rest[i]), Own(rest[k]))
    {
      var i', k' := if i < j then i else i + 1, if k < j then k else k + 1;
      assert rest[i] == files[i'] && rest[k] == files[k'];
    }
    AllCovered(c, used', rest);
    AllCovered(c, used, files);
    WithoutAt(AllBytes(c, files), j);
  }

  lemma AllCovered(c: State, used: seq<bool>, files: seq<File>)
    requires forall i :: 0 <= i < |files| ==> InOrder(c, used, files[i])
    ensures forall i :: 0 <= i < |files| ==> Covers(|c.disk|, files[i].data, files[i].length)
  {
    hide Intact, Covers;
  }

  lemma InOrderShaped(c: State, used: seq<bool>, f: File)
    requires InOrder(c, used, f)
    ensures Shaped(c)
  {
  }

  lemma ReleaseLeaves(c: State, used: seq<bool>, used': seq<bool>, own: seq<nat>)
    requires |c.disk| == |used| == |used'|
    requires forall k :: 0 <= k < |used| ==> (used'[k] <==> used[k] && k !in own)
    ensures Leaves(c, used, c, used', own)
  {
  }

  /** Releasing them makes as many sectors free as the file owned. */
  lemma FreeAfterRelease(c: State, used: seq<bool>, used': seq<bool>, f: File)
    requires InOrder(c, used, f) && |used'| == |used|
    requires forall k :: 0 <= k < |used| ==> (used'[k] <==> used[k] && k !in Own(f))
    ensures Free(used') == Free(used) + 1 + Total(|f.data|)
  {
    OwnParts(c, used, f);
    hide InOrder, Own, Total, Free;
    FreeAfter(used', used, Own(f));
  }

  // ---------------------------------------------------------------- the cache over free sectors

  /** No free sector becomes dirty by a write to a file. */
  lemma FreeStaysClean(c: State, used: seq<bool>, t: State, used': seq<bool>, node: Node, data: seq<nat>,
                       index: seq<nat>, stale: set<nat>)
    requires FreeClean(c, used) && Leaves(c, used, t, used', data + index) && Intact(t, used', node, data, index, stale)
    ensures FreeClean(t, used')
  {
    hide Clean, Agrees, Logical, Shaped;
    HoldsParts(Store(t.disk, used'), node, data, index);
    hide Holds;
    forall k | 0 <= k < |used'| && !used'[k]
      ensures Clean(t, k)
    {
      assert k !in data + index;
      assert Spares(c, t, k);
    }
  }

  /** After a write-behind pass nothing waits to be written anywhere. */
  lemma PassCleans(c: State, used: seq<bool>)
    requires Shaped(c) && |used| == |c.disk|
    ensures FreeClean(FlushFrom(c, 0), used)
  {
    forall k | 0 <= k < |used| ensures Clean(FlushFrom(c, 0), k) { FlushEffect(c, 0, k); }
  }

  /** An operation that does nothing to any sector leaves all files alone. */
  lemma LeavesAll(c: State, t: State, used: seq<bool>, files: seq<File>)
    requires AllInOrder(c, used, files) && Untouched(c, t) && Shaped(t) && |used| == |c.disk|
    ensures AllInOrder(t, used, files) && AllBytes(t, files) == AllBytes(c, files)
    ensures FreeClean(c, used) ==> FreeClean(t, used)
  {
    hide Intact, Covers, FileBytes, Disjoint, Own, Shaped, Clean, Agrees, Logical;
    forall i | 0 <= i < |files|
      ensures InOrder(t, used, files[i]) && BytesOf(t, files[i]) == BytesOf(c, files[i])
    {
      FileKept(c, t, used, files[i].node, files[i].data, files[i].index, files[i].length);
    }
    forall k | 0 <= k < |used| && Clean(c, k) ensures Clean(t, k) { assert Spares(c, t, k); }
  }
}
