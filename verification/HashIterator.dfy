/** Iterating over a hash table. */
module HashIteratorModel {
  import opened Wrappers
  import opened HashModel
  import opened HashTableModel

  /** The elements in the order of iteration. */
  function Flatten(b: seq<seq<Elem>>): seq<Elem> {
    if b == [] then [] else b[0] + Flatten(b[1..])
  }

  lemma {:induction false} FlattenAppend(b: seq<seq<Elem>>, q: seq<Elem>)
    ensures Flatten(b + [q]) == Flatten(b) + q
    decreases |b|
  {
    if b == [] {
      assert b + [q] == [q] && [q][1..] == [];
    } else {
      assert (b + [q])[1..] == b[1..] + [q];
      FlattenAppend(b[1..], q);
    }
  }

  lemma {:induction false} FlattenElements(b: seq<seq<Elem>>)
    ensures multiset(Flatten(b)) == Elements(b)
    decreases |b|
  {
    if b != [] {
      var n := |b| - 1;
      assert b == b[..n] + [b[n]];
      FlattenAppend(b[..n], b[n]);
      FlattenElements(b[..n]);
    }
  }

  lemma FlattenFrom(b: seq<seq<Elem>>, i: nat)
    requires i <= |b|
    ensures Flatten(b[i..]) == if i == |b| then [] else b[i][0..] + Flatten(b[i + 1..])
  {
    if i < |b| {
      assert b[i..][1..] == b[i + 1..] && b[i][0..] == b[i];
    }
  }

  class HashIterator {
    const table: HashTable
    var bucket: nat
    /** The place of the current element in its bucket; before the first call it is that of the list's head. */
    var pos: int

    ghost predicate Valid()
      reads this, table
    {
      bucket < |table.buckets| && -1 <= pos < |table.buckets[bucket]|
    }

    ghost function Remaining(): seq<Elem>
      requires Valid()
      reads this, table
    {
      table.buckets[bucket][pos + 1..] + Flatten(table.buckets[bucket + 1..])
    }

    /** `hash_first`. */
    constructor (table: HashTable)
      requires table.Valid()
      ensures this.table == table && Valid() && Remaining() == Flatten(table.buckets)
    {
      this.table, bucket, pos := table, 0, -1;
    }

    /** `hash_next`. */
    method Next() returns (r: Option<Elem>)
      requires Valid()
      modifies this
      ensures old(Remaining()) == [] <==> r.None?
      ensures r.Some? ==> Valid() && r == Some(old(Remaining())[0]) && Remaining() == old(Remaining())[1..]
    {
      hide Flatten;
      var b := table.buckets;
      ghost var left := Remaining();
      pos := pos + 1;
      while pos == |b[bucket]|
        invariant bucket < |b| && 0 <= pos <= |b[bucket]| && b == table.buckets
        invariant b[bucket][pos..] + Flatten(b[bucket + 1..]) == left
        decreases |b| - bucket
      {
        assert b[bucket][pos..] == [];
        bucket := bucket + 1;
        FlattenFrom(b, bucket);
        if bucket >= |b| {
          return None;
        }
        pos := 0;
      }
      assert b[bucket][pos..] == [b[bucket][pos]] + b[bucket][pos + 1..];
      return Some(b[bucket][pos]);
    }
  }

  /** The order of iteration has every element of the table exactly once. */
  lemma EachOnce(table: HashTable)
    requires table.Valid()
    ensures multiset(Flatten(table.buckets)) == multiset(table.contents)
    ensures |Flatten(table.buckets)| == table.count
  {
    FlattenElements(table.buckets);
    assert |multiset(Flatten(table.buckets))| == |multiset(table.contents)|;
  }

  lemma MoveOver(visited: seq<Elem>, rest: seq<Elem>)
    requires rest != []
    ensures visited + rest == (visited + [rest[0]]) + rest[1..]
  {
  }

  /** The iteration idiom: all that remains is visited in order. */
  method Collect(it: HashIterator) returns (visited: seq<Elem>)
    requires it.Valid()
    modifies it
    ensures visited == old(it.Remaining())
  {
    hide HashIterator.Remaining;
    visited := [];
    ghost var all := it.Remaining();
    var more := true;
    while more
      invariant more ==> it.Valid() && visited + it.Remaining() == all
      invariant !more ==> visited == all
      decreases more, |all| - |visited|
    {
      ghost var rest := it.Remaining();
      var r := it.Next();
      more := r.Some?;
      if more {
        MoveOver(visited, rest);
        visited := visited + [r.value];
      }
    }
  }

  /** A full iteration visits every element of the table exactly once. */
  method VisitAll(table: HashTable) returns (visited: seq<Elem>)
    requires table.Valid()
    ensures multiset(visited) == multiset(table.contents) && |visited| == table.count
  {
    hide HashTable.Valid, Flatten, HashIterator.Remaining;
    EachOnce(table);
    var it := new HashIterator(table);
    visited := Collect(it);
  }
}
