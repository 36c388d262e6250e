/** The hash table's operations, as operations on a finite set. */
module HashTableModel {
  import opened Wrappers
  import opened Bits
  import opened HashModel

  // ---------------------------------------------------------------- what the steps do to the contents

  lemma Cancel(a: multiset<Elem>, b: multiset<Elem>, c: multiset<Elem>)
    requires a + c == b + c
    ensures a == b
  {
    forall x ensures a[x] == b[x] {
      assert (a + c)[x] == (b + c)[x];
    }
  }

  lemma InPlaceUpdate(hash: Hasher, b: seq<seq<Elem>>, i: nat, q: seq<Elem>)
    requires InPlace(hash, b) && i < |b| && forall x :: x in q ==> hash(x) % |b| == i
    ensures InPlace(hash, b[i := q])
  {
  }

  lemma PushFront(hash: Hasher, b: seq<seq<Elem>>, i: nat, e: Elem)
    requires InPlace(hash, b) && i < |b| && hash(e) % |b| == i
    ensures InPlace(hash, b[i := [e] + b[i]])
    ensures Elements(b[i := [e] + b[i]]) == Elements(b) + multiset{e}
  {
    var q := [e] + b[i];
    InPlaceUpdate(hash, b, i, q);
    ElementsUpdate(b, i, q);
    hide Elements, InPlace;
    assert multiset(q) == multiset{e} + multiset(b[i]);
    Regroup(Elements(b), multiset{e}, multiset(b[i]));
    Cancel(Elements(b[i := q]), Elements(b) + multiset{e}, multiset(b[i]));
  }

  lemma Regroup(a: multiset<Elem>, b: multiset<Elem>, c: multiset<Elem>)
    ensures a + (b + c) == (a + b) + c
  {
  }

  lemma OneOut(q: seq<Elem>, j: nat)
    requires j < |q|
    ensures multiset(q) == multiset{q[j]} + multiset(q[..j] + q[j + 1..])
  {
    assert q == q[..j] + [q[j]] + q[j + 1..];
  }

  lemma TakeOut(hash: Hasher, b: seq<seq<Elem>>, i: nat, j: nat)
    requires InPlace(hash, b) && i < |b| && j < |b[i]|
    ensures var q := b[i][..j] + b[i][j + 1..];
            InPlace(hash, b[i := q]) && Elements(b) == Elements(b[i := q]) + multiset{b[i][j]}
  {
    var q := b[i][..j] + b[i][j + 1..];
    assert forall x :: x in q ==> x in b[i];
    InPlaceUpdate(hash, b, i, q);
    hide Elements, InPlace;
    ElementsUpdate(b, i, q);
    OneOut(b[i], j);
    Regroup(Elements(b[i := q]), multiset{b[i][j]}, multiset(q));
    Cancel(Elements(b), Elements(b[i := q]) + multiset{b[i][j]}, multiset(q));
  }

  lemma WithElement(s: set<Elem>, e: Elem)
    requires e !in s
    ensures multiset(s + {e}) == multiset(s) + multiset{e} && |s + {e}| == |s| + 1
  {
  }

  // ---------------------------------------------------------------- the table

  class HashTable {
    const hash: Hasher
    const less: Less
    var buckets: seq<seq<Elem>>
    var count: nat
    ghost var contents: set<Elem>
    ghost var bits: nat

    ghost predicate Valid()
      reads this
    {
      && Lawful(hash, less)
      && |buckets| == Pow2(bits) && |buckets| >= MIN_BUCKETS
      && InPlace(hash, buckets)
      && Elements(buckets) == multiset(contents)
      && AllDiffer(less, contents)
      && count == |contents|
    }

    method FindBucket(e: Elem) returns (i: nat)
      requires Valid()
      ensures i == hash(e) % |buckets| && i < |buckets|
    {
      AndMask(hash(e), bits);
      i := And(hash(e), |buckets| - 1);
    }

    method FindElem(i: nat, e: Elem) returns (r: Option<nat>)
      requires i < |buckets|
      ensures r.Some? ==> r.value < |buckets[i]| && Same(less, buckets[i][r.value], e)
      ensures r.None? ==> forall x :: x in buckets[i] ==> !Same(less, x, e)
    {
      var q, j := buckets[i], 0;
      while j < |q|
        invariant j <= |q| && forall k :: 0 <= k < j ==> !Same(less, q[k], e)
      {
        if !less(q[j], e) && !less(e, q[j]) {
          return Some(j);
        }
        j := j + 1;
      }
      return None;
    }

    /** An element equal to `e`, if the table has one, stands in the bucket of `e`. */
    lemma EqualInBucket(e: Elem, x: Elem)
      requires Valid() && Same(less, x, e)
      ensures x in contents <==> x in buckets[hash(e) % |buckets|]
    {
      InBucket(hash, buckets, x);
      assert x in Elements(buckets) <==> x in contents;
    }

    method Locate(e: Elem) returns (i: nat, r: Option<nat>)
      requires Valid()
      ensures i == hash(e) % |buckets| && i < |buckets|
      ensures r.Some? ==>
                r.value < |buckets[i]| && buckets[i][r.value] in contents && Same(less, buckets[i][r.value], e)
      ensures r.None? ==> forall x :: x in contents ==> !Same(less, x, e)
    {
      i := FindBucket(e);
      r := FindElem(i, e);
      hide Elements, InPlace;
      forall x | Same(less, x, e) ensures x in contents <==> x in buckets[i] { EqualInBucket(e, x); }
    }

    /** The element of the set that equals `e`, if there is one. */
    method Find(e: Elem) returns (r: Option<Elem>)
      requires Valid()
      ensures r.Some? ==> r.value in contents && Same(less, r.value, e)
      ensures r.None? <==> forall x :: x in contents ==> !Same(less, x, e)
    {
      var i, j := Locate(e);
      r := if j.Some? then Some(buckets[i][j.value]) else None;
    }

    method InsertElem(i: nat, e: Elem)
      requires Valid() && i == hash(e) % |buckets| && forall x :: x in contents ==> !Same(less, x, e)
      modifies this
      ensures Valid() && contents == old(contents) + {e} && bits == old(bits)
    {
      assert Same(less, e, e) && e !in contents;
      assert AllDiffer(less, contents + {e}) by { Widen(less, contents, e); }
      PushFront(hash, buckets, i, e);
      WithElement(contents, e);
      hide Elements, InPlace, AllDiffer;
      count := count + 1;
      buckets := buckets[i := [e] + buckets[i]];
      contents := contents + {e};
    }

    method RemoveElem(i: nat, j: nat)
      requires Valid() && i < |buckets| && j < |buckets[i]|
      modifies this
      ensures old(buckets)[i][j] in old(contents)
      ensures Valid() && contents == old(contents) - {old(buckets)[i][j]} && bits == old(bits)
    {
      var x := buckets[i][j];
      assert x in contents by { InElements(buckets, x); assert x in buckets[i]; assert x in multiset(contents); }
      assert AllDiffer(less, contents - {x});
      TakeOut(hash, buckets, i, j);
      WithElement(contents - {x}, x);
      assert contents - {x} + {x} == contents;
      var q := buckets[i][..j] + buckets[i][j + 1..];
      Cancel(Elements(buckets[i := q]), multiset(contents - {x}), multiset{x});
      hide Elements, InPlace, AllDiffer;
      count := count - 1;
      buckets := buckets[i := q];
      contents := contents - {x};
    }

    /** The buckets are counted and, if memory allows, the elements are moved; the contents stay. */
    method Rehash(mallocOk: bool)
      requires Valid()
      modifies this`buckets, this`bits
      ensures Valid()
      ensures !mallocOk ==> buckets == old(buckets)
      ensures mallocOk ==> |buckets| <= IdealBuckets(count) < 2 * |buckets|
    {
      var p, k := BucketCount(count);
      if p == |buckets| || !mallocOk {
        return;
      }
      var moved := MoveAll(hash, buckets, p, k);
      buckets := moved;
      bits := k;
    }

    method Insert(e: Elem, mallocOk: bool) returns (r: Option<Elem>)
      requires Valid()
      modifies this
      ensures Valid()
      ensures r.Some? ==> r.value in old(contents) && Same(less, r.value, e) && contents == old(contents)
      ensures r.None? ==> contents == old(contents) + {e} && forall x :: x in old(contents) ==> !Same(less, x, e)
      ensures mallocOk ==> |buckets| <= IdealBuckets(|contents|) < 2 * |buckets|
    {
      var i, j := Locate(e);
      r := if j.Some? then Some(buckets[i][j.value]) else None;
      if j.None? {
        InsertElem(i, e);
      }
      Rehash(mallocOk);
    }

    method Replace(e: Elem, mallocOk: bool) returns (r: Option<Elem>)
      requires Valid()
      modifies this
      ensures Valid()
      ensures r.Some? ==> r.value in old(contents) && Same(less, r.value, e)
                          && contents == old(contents) - {r.value} + {e}
      ensures r.None? ==> contents == old(contents) + {e} && forall x :: x in old(contents) ==> !Same(less, x, e)
      ensures mallocOk ==> |buckets| <= IdealBuckets(|contents|) < 2 * |buckets|
    {
      var i, j := Locate(e);
      r := if j.Some? then Some(buckets[i][j.value]) else None;
      if j.Some? {
        OnlyEqual(e, r.value);
        hide Elements, InPlace, AllDiffer, Lawful;
        RemoveElem(i, j.value);
      }
      InsertElem(i, e);
      Rehash(mallocOk);
    }

    /** No other element equals `e`. */
    lemma OnlyEqual(e: Elem, x: Elem)
      requires Valid() && x in contents && Same(less, x, e)
      ensures forall y :: y in contents && y != x ==> !Same(less, y, e)
    {
      forall y | y in contents && Same(less, y, e) ensures y == x {
        assert Same(less, e, x);
        assert Same(less, y, x);
      }
    }

    method Delete(e: Elem, mallocOk: bool) returns (r: Option<Elem>)
      requires Valid()
      modifies this
      ensures Valid()
      ensures r.Some? ==> r.value in old(contents) && Same(less, r.value, e) && contents == old(contents) - {r.value}
      ensures r.None? ==> contents == old(contents) && forall x :: x in old(contents) ==> !Same(less, x, e)
      ensures r.Some? && mallocOk ==> |buckets| <= IdealBuckets(|contents|) < 2 * |buckets|
      ensures r.None? ==> buckets == old(buckets)
    {
      var i, j := Locate(e);
      r := None;
      if j.Some? {
        r := Some(buckets[i][j.value]);
        RemoveElem(i, j.value);
        Rehash(mallocOk);
      }
    }

    constructor (hash: Hasher, less: Less)
      requires Lawful(hash, less)
      ensures Valid() && contents == {} && this.hash == hash && this.less == less
    {
      this.hash, this.less := hash, less;
      buckets, count, contents, bits := [[], [], [], []], 0, {}, 2;
      new;
      NoElements(buckets);
      assert Pow2(1) == 2 && Pow2(2) == 4;
    }
  }

  /** `hash_init`: an empty table, unless the memory for its buckets is refused. */
  method HashInit(hash: Hasher, less: Less, mallocOk: bool) returns (r: Option<HashTable>)
    requires Lawful(hash, less)
    ensures r.Some? <==> mallocOk
    ensures r.Some? ==> fresh(r.value) && r.value.Valid() && r.value.contents == {}
    ensures r.Some? ==> r.value.hash == hash && r.value.less == less
  {
    if !mallocOk { return None; }
    var h := new HashTable(hash, less);
    return Some(h);
  }

  lemma {:induction false} NoElements(b: seq<seq<Elem>>)
    requires forall i :: 0 <= i < |b| ==> b[i] == []
    ensures Elements(b) == multiset{}
    decreases |b|
  {
    if b != [] { NoElements(b[..|b| - 1]); }
  }

  method EmptyBuckets(p: nat) returns (b: seq<seq<Elem>>)
    ensures |b| == p && forall i :: 0 <= i < p ==> b[i] == []
  {
    b := [];
    while |b| < p
      invariant |b| <= p && forall i :: 0 <= i < |b| ==> b[i] == []
    {
      b := b + [[]];
    }
  }

  /** The elements of one old bucket go to the fronts of their new buckets. */
  method MoveBucket(hash: Hasher, from: seq<Elem>, to: seq<seq<Elem>>, ghost k: nat) returns (b: seq<seq<Elem>>)
    requires |to| == Pow2(k) && InPlace(hash, to)
    ensures |b| == |to| && InPlace(hash, b) && Elements(b) == Elements(to) + multiset(from)
  {
    hide Elements, InPlace;
    b := to;
    var j := 0;
    while j < |from|
      invariant j <= |from| && |b| == |to| && InPlace(hash, b)
      invariant Elements(b) == Elements(to) + multiset(from[..j])
    {
      AndMask(hash(from[j]), k);
      var i := And(hash(from[j]), |b| - 1);
      PushFront(hash, b, i, from[j]);
      assert from[..j + 1] == from[..j] + [from[j]];
      Regroup(Elements(to), multiset(from[..j]), multiset{from[j]});
      b := b[i := [from[j]] + b[i]];
      j := j + 1;
    }
    assert from[..j] == from;
  }

  method MoveAll(hash: Hasher, from: seq<seq<Elem>>, p: nat, ghost k: nat) returns (b: seq<seq<Elem>>)
    requires p == Pow2(k)
    ensures |b| == p && InPlace(hash, b) && Elements(b) == Elements(from)
  {
    b := EmptyBuckets(p);
    NoElements(b);
    assert InPlace(hash, b);
    hide InPlace;
    var i := 0;
    while i < |from|
      invariant i <= |from| && |b| == p && InPlace(hash, b) && Elements(b) == Elements(from[..i])
    {
      b := MoveBucket(hash, from[i], b, k);
      assert from[..i + 1][..i] == from[..i];
      i := i + 1;
    }
    assert from[..i] == from;
  }

  lemma Widen(less: Less, s: set<Elem>, e: Elem)
    requires AllDiffer(less, s) && forall x :: x in s ==> !Same(less, x, e)
    ensures AllDiffer(less, s + {e})
  {
    forall x, y | x in s + {e} && y in s + {e} && Same(less, x, y) ensures x == y {
      assert Same(less, y, x);
    }
  }
}
