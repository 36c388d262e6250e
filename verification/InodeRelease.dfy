/** Closing a removed inode: which sectors go back to the free map, and that they are the right ones. */
module InodeRelease {
  import opened Wrappers
  import opened DiskModel
  import opened InodeLayout
  import opened InodeGrow
  import opened InodeGrowLaws
  import opened InodeSteps
  import opened InodeTheorems
  import opened InodeExact

  // ---------------------------------------------------------------- the code

  /** Sectors of the second-level blocks from slot `i` on, in the order they are released, and how many
      sectors are still to be released after them; `None` where the disk driver's range check fails. */
  function DoubleOrder(disk: seq<Sector>, inner: PtrBlock, i: nat, left: nat): (r: Option<(seq<nat>, nat)>)
    requires i <= PER_BLOCK
    decreases PER_BLOCK - i
  {
    if i == PER_BLOCK || left == 0 then Some(([], left))
    else if inner[i] >= |disk| then None
    else
      var c := if left < PER_BLOCK then left else PER_BLOCK;
      var rest := DoubleOrder(disk, inner, i + 1, left - c);
      if rest.None? then None
      else Some((Unpack(disk[inner[i]])[..c] + [inner[i]] + rest.value.0, rest.value.1))
  }

  /** Sectors released by the loop over the inode's pointers from `idx` on. */
  function Order(disk: seq<Sector>, node: Node, idx: nat, left: nat): (r: Option<seq<nat>>)
    requires idx <= NUM_PTRS
    decreases NUM_PTRS - idx
  {
    if idx == NUM_PTRS || left == 0 || idx > node.ptrIdx then Some([])
    else if idx < DIRECT then
      var rest := Order(disk, node, idx + 1, left - 1);
      if rest.None? then None else Some([node.ptrs[idx]] + rest.value)
    else if node.ptrs[idx] >= |disk| then None
    else if idx < DIRECT + INDIRECT then
      var c := if left < PER_BLOCK then left else PER_BLOCK;
      var rest := Order(disk, node, idx + 1, left - c);
      if rest.None? then None else Some(Unpack(disk[node.ptrs[idx]])[..c] + [node.ptrs[idx]] + rest.value)
    else
      var d := DoubleOrder(disk, Unpack(disk[node.ptrs[idx]]), 0, left);
      if d.None? then None
      else
        var rest := Order(disk, node, idx + 1, d.value.1);
        if rest.None? then None else Some(d.value.0 + [node.ptrs[idx]] + rest.value)
  }

  /** Releasing sectors one by one; `None` where the free map's assertion that the sector is in use fails. */
  function ReleaseAll(used: seq<bool>, s: seq<nat>): (r: Option<seq<bool>>)
    decreases |s|
  {
    if s == [] then Some(used)
    else if s[0] >= |used| || !used[s[0]] then None
    else ReleaseAll(used[s[0] := false], s[1..])
  }

  /** Releasing a list is releasing its first part and then the rest. */
  lemma {:induction false} ReleaseAllConcat(used: seq<bool>, s: seq<nat>, t: seq<nat>)
    ensures ReleaseAll(used, s + t) ==
            if ReleaseAll(used, s).None? then None else ReleaseAll(ReleaseAll(used, s).value, t)
    decreases |s|
  {
    if s == [] {
      assert s + t == t;
    } else {
      assert (s + t)[1..] == s[1..] + t;
      if s[0] < |used| { ReleaseAllConcat(used[s[0] := false], s[1..], t); }
    }
  }

  /** The free map once the loop over the pointers from `idx` on is done. */
  function ReleaseFrom(used: seq<bool>, disk: seq<Sector>, node: Node, idx: nat, left: nat): Option<seq<bool>>
    requires idx <= NUM_PTRS
  {
    var o := Order(disk, node, idx, left);
    if o.None? then None else ReleaseAll(used, o.value)
  }

  /** The free map after the last close of a removed inode stored in `sector`. */
  function CloseRemoved(st: Store, node: Node, sector: nat, sectors: nat): Option<seq<bool>> {
    if sector >= |st.used| || !st.used[sector] then None
    else ReleaseFrom(st.used[sector := false], st.disk, node, 0, sectors)
  }

  // ---------------------------------------------------------------- what is released

  /** File sectors reached by pointers before `idx`. */
  function Start(idx: nat): nat {
    if idx <= DIRECT then idx else DIRECT + PER_BLOCK * (idx - DIRECT)
  }

  function IndexStart(idx: nat): nat {
    if idx <= DIRECT then 0 else idx - DIRECT
  }

  /** The pointer block `index[j]` lists the data sectors from `from` on. */
  lemma BlockLists(st: Store, node: Node, data: seq<nat>, index: seq<nat>, from: nat, c: nat)
    requires Holds(st, node, data, index) && DIRECT <= from < |data| && Slot(from) == 0
    requires c <= PER_BLOCK && from + c <= |data|
    ensures BlockNo(from) < |index| && index[BlockNo(from)] < |st.disk|
    ensures Unpack(st.disk[index[BlockNo(from)]])[..c] == data[from..from + c]
  {
    hide Unpack;
    BlockNoBound(from, |data|);
    var b := Unpack(st.disk[index[BlockNo(from)]]);
    forall k | 0 <= k < c
      ensures b[k] == data[from + k]
    {
      SameBlock(from, from + k);
      assert PtrIn(st.disk, index[BlockNo(from + k)], Slot(from + k), data[from + k]);
    }
    assert b[..c] == data[from..from + c];
  }

  ghost function Tail(s: seq<nat>, i: nat): seq<nat> {
    if i <= |s| then s[i..] else []
  }

  /** `s` lists the sectors of `data` and of `index`, in some order. */
  ghost predicate Lists(s: seq<nat>, data: seq<nat>, index: seq<nat>) {
    multiset(s) == multiset(data) + multiset(index)
  }

  lemma ListsBlock(chunk: seq<nat>, b: nat, rest: seq<nat>, data: seq<nat>, index: seq<nat>)
    requires Lists(rest, data, index)
    ensures Lists(chunk + [b] + rest, chunk + data, [b] + index)
  {
  }

  /** The part of the data that one pointer block lists, and what comes after it. */
  lemma TailSplit(data: seq<nat>, from: nat, c: nat)
    requires from < |data| && c == (if |data| - from < PER_BLOCK then |data| - from else PER_BLOCK)
    ensures |Tail(data, from + PER_BLOCK)| == |Tail(data, from)| - c
    ensures Tail(data, from) == data[from..from + c] + Tail(data, from + PER_BLOCK)
  {
  }

  lemma TailHead(s: seq<nat>, i: nat)
    requires i < |s|
    ensures Tail(s, i) == [s[i]] + Tail(s, i + 1)
  {
  }

  lemma TailLength(s: seq<nat>, i: nat)
    ensures |Tail(s, i)| == if i <= |s| then |s| - i else 0
  {
  }

  lemma TailAll(s: seq<nat>)
    ensures Tail(s, 0) == s
  {
  }

  lemma DoubleOrderStep(disk: seq<Sector>, inner: PtrBlock, i: nat, left: nat, c: nat, chunk: seq<nat>)
    requires i < PER_BLOCK && left > 0 && inner[i] < |disk| && c == (if left < PER_BLOCK then left else PER_BLOCK)
    requires chunk == Unpack(disk[inner[i]])[..c] && DoubleOrder(disk, inner, i + 1, left - c).Some?
    ensures var rest := DoubleOrder(disk, inner, i + 1, left - c).value;
            DoubleOrder(disk, inner, i, left) == Some((chunk + [inner[i]] + rest.0, rest.1))
  {
    hide Unpack;
  }

  lemma OrderStep(disk: seq<Sector>, node: Node, idx: nat, left: nat, c: nat, chunk: seq<nat>)
    requires DIRECT <= idx < DIRECT + INDIRECT && idx <= node.ptrIdx && left > 0 && node.ptrs[idx] < |disk|
    requires c == (if left < PER_BLOCK then left else PER_BLOCK)
    requires chunk == Unpack(disk[node.ptrs[idx]])[..c] && Order(disk, node, idx + 1, left - c).Some?
    ensures Order(disk, node, idx, left) ==
            Some(chunk + [node.ptrs[idx]] + Order(disk, node, idx + 1, left - c).value)
  {
    hide Unpack;
  }

  /** What is released from second-level block `i` on: the rest of the data and of the blocks. */
  ghost predicate DoubleDone(disk: seq<Sector>, data: seq<nat>, index: seq<nat>, inner: PtrBlock, i: nat)
    requires i <= PER_BLOCK
  {
    var rest := Tail(data, DOUBLE_START + PER_BLOCK * i);
    var d := DoubleOrder(disk, inner, i, |rest|);
    d.Some? && d.value.1 == 0 && Lists(d.value.0, rest, Tail(index, INDIRECT + 1 + i))
  }

  lemma DoubleTurn(st: Store, node: Node, data: seq<nat>, index: seq<nat>, inner: PtrBlock, i: nat)
    requires Holds(st, node, data, index) && i < PER_BLOCK && DOUBLE_START + PER_BLOCK * i < |data|
    requires INDIRECT + 1 + i < |index| && inner[i] == index[INDIRECT + 1 + i]
    requires Slot(DOUBLE_START + PER_BLOCK * i) == 0 && BlockNo(DOUBLE_START + PER_BLOCK * i) == INDIRECT + 1 + i
    requires DoubleDone(st.disk, data, index, inner, i + 1)
    ensures DoubleDone(st.disk, data, index, inner, i)
  {
    hide Unpack, Holds, Lists, DoubleOrder, Tail, Slot, BlockNo;
    var from := DOUBLE_START + PER_BLOCK * i;
    var c := if |data| - from < PER_BLOCK then |data| - from else PER_BLOCK;
    TailLength(data, from);
    BlockLists(st, node, data, index, from, c);
    assert DOUBLE_START + PER_BLOCK * (i + 1) == from + PER_BLOCK;
    TailSplit(data, from, c);
    TailHead(index, INDIRECT + 1 + i);
    DoubleOrderStep(st.disk, inner, i, |data| - from, c, data[from..from + c]);
    ListsBlock(data[from..from + c], inner[i], DoubleOrder(st.disk, inner, i + 1, |data| - from - c).value.0,
               Tail(data, from + PER_BLOCK), Tail(index, INDIRECT + 2 + i));
  }

  lemma DoubleEnd(disk: seq<Sector>, data: seq<nat>, index: seq<nat>, inner: PtrBlock, i: nat)
    requires i <= PER_BLOCK && |data| <= DOUBLE_START + PER_BLOCK * i && |index| <= INDIRECT + 1 + i
    ensures DoubleDone(disk, data, index, inner, i)
  {
    var rest := Tail(data, DOUBLE_START + PER_BLOCK * i);
    assert rest == [] && Tail(index, INDIRECT + 1 + i) == [];
  }

  /** The second level releases its data sectors and its pointer blocks, and nothing else. */
  lemma {:induction false} DoubleOrderIs(st: Store, node: Node, data: seq<nat>, index: seq<nat>, inner: PtrBlock,
                                         i: nat)
    requires Holds(st, node, data, index) && |data| > DOUBLE_START && i <= PER_BLOCK
    requires forall j :: 0 <= j < PER_BLOCK && INDIRECT + 1 + j < |index| ==> inner[j] == index[INDIRECT + 1 + j]
    ensures DoubleDone(st.disk, data, index, inner, i)
    decreases PER_BLOCK - i
  {
    hide Holds, DoubleDone;
    SecondLevelCount(st, node, data, index, i);
    if DOUBLE_START + PER_BLOCK * i < |data| {
      DoubleOrderIs(st, node, data, index, inner, i + 1);
      DoubleTurn(st, node, data, index, inner, i);
    } else {
      DoubleEnd(st.disk, data, index, inner, i);
    }
  }

  lemma SecondLevelCount(st: Store, node: Node, data: seq<nat>, index: seq<nat>, i: nat)
    requires Holds(st, node, data, index) && i <= PER_BLOCK && |data| > DOUBLE_START
    ensures var from := DOUBLE_START + PER_BLOCK * i;
            && (from < |data| ==> i < PER_BLOCK && INDIRECT + 1 + i < |index|
                                  && Slot(from) == 0 && BlockNo(from) == INDIRECT + 1 + i)
            && (from >= |data| ==> |index| <= INDIRECT + 1 + i)
  {
    if DOUBLE_START + PER_BLOCK * i < |data| { BlockNoBound(DOUBLE_START + PER_BLOCK * i, |data|); }
  }

  /** What is released from pointer `idx` on. */
  ghost predicate Done(disk: seq<Sector>, node: Node, data: seq<nat>, index: seq<nat>, idx: nat)
    requires idx <= NUM_PTRS
  {
    var rest := Tail(data, Start(idx));
    var o := Order(disk, node, idx, |rest|);
    o.Some? && Lists(o.value, rest, Tail(index, IndexStart(idx)))
  }

  lemma DirectTurn(disk: seq<Sector>, node: Node, data: seq<nat>, index: seq<nat>, idx: nat)
    requires idx < DIRECT && idx < |data| && idx <= node.ptrIdx && node.ptrs[idx] == data[idx]
    requires Done(disk, node, data, index, idx + 1)
    ensures Done(disk, node, data, index, idx)
  {
    hide Unpack, Lists, Tail;
    TailLength(data, idx);
    TailHead(data, idx);
    ListsOne(data[idx], Order(disk, node, idx + 1, |data| - idx - 1).value, Tail(data, idx + 1), Tail(index, 0));
  }

  lemma IndirectTurn(st: Store, node: Node, data: seq<nat>, index: seq<nat>, idx: nat)
    requires Holds(st, node, data, index) && DIRECT <= idx < DIRECT + INDIRECT && idx <= node.ptrIdx
    requires Start(idx) < |data| && Slot(Start(idx)) == 0 && BlockNo(Start(idx)) == idx - DIRECT < |index|
    requires node.ptrs[idx] == index[idx - DIRECT] && Done(st.disk, node, data, index, idx + 1)
    ensures Done(st.disk, node, data, index, idx)
  {
    hide Unpack, Holds, Lists, Order, Tail, Slot, BlockNo;
    var from, j := Start(idx), idx - DIRECT;
    var c := if |data| - from < PER_BLOCK then |data| - from else PER_BLOCK;
    TailLength(data, from);
    BlockLists(st, node, data, index, from, c);
    assert Start(idx + 1) == from + PER_BLOCK;
    TailSplit(data, from, c);
    TailHead(index, j);
    OrderStep(st.disk, node, idx, |data| - from, c, data[from..from + c]);
    ListsBlock(data[from..from + c], index[j], Order(st.disk, node, idx + 1, |data| - from - c).value,
               Tail(data, from + PER_BLOCK), Tail(index, j + 1));
  }

  lemma RootTurn(disk: seq<Sector>, node: Node, data: seq<nat>, index: seq<nat>)
    requires |data| > DOUBLE_START && node.ptrIdx >= 14 && INDIRECT < |index|
    requires node.ptrs[14] == index[INDIRECT] < |disk|
    requires DoubleDone(disk, data, index, Unpack(disk[node.ptrs[14]]), 0)
    ensures Done(disk, node, data, index, 14)
  {
    hide Unpack, Lists, Tail, DoubleOrder;
    TailLength(data, DOUBLE_START);
    TailHead(index, INDIRECT);
    var d := DoubleOrder(disk, Unpack(disk[node.ptrs[14]]), 0, |data| - DOUBLE_START).value.0;
    ListsRoot(d, index[INDIRECT], Tail(data, DOUBLE_START), Tail(index, INDIRECT + 1));
    assert Order(disk, node, NUM_PTRS, 0) == Some([]);
  }

  lemma NothingLeft(disk: seq<Sector>, node: Node, data: seq<nat>, index: seq<nat>, idx: nat)
    requires idx <= NUM_PTRS && |data| <= Start(idx) && |index| <= IndexStart(idx)
    ensures Done(disk, node, data, index, idx)
  {
    assert Tail(data, Start(idx)) == [] && Tail(index, IndexStart(idx)) == [];
  }

  /** From pointer `idx` on, the loop releases the rest of the data and the rest of the pointer blocks. */
  lemma {:induction false} OrderIs(st: Store, node: Node, data: seq<nat>, index: seq<nat>, idx: nat)
    requires Holds(st, node, data, index) && idx <= DIRECT + INDIRECT
    ensures Done(st.disk, node, data, index, idx)
    decreases NUM_PTRS - idx
  {
    hide Holds, Done, DoubleDone;
    PointerRegion(st, node, data, index, idx);
    if |data| <= Start(idx) {
      NothingLeft(st.disk, node, data, index, idx);
    } else if idx < DIRECT {
      OrderIs(st, node, data, index, idx + 1);
      DirectTurn(st.disk, node, data, index, idx);
    } else if idx < DIRECT + INDIRECT {
      OrderIs(st, node, data, index, idx + 1);
      IndirectTurn(st, node, data, index, idx);
    } else {
      DoubleOrderIs(st, node, data, index, Unpack(st.disk[node.ptrs[14]]), 0);
      RootTurn(st.disk, node, data, index);
    }
  }

  lemma ListsOne(x: nat, s: seq<nat>, data: seq<nat>, index: seq<nat>)
    requires Lists(s, data, index)
    ensures Lists([x] + s, [x] + data, index)
  {
  }

  lemma ListsRoot(s: seq<nat>, root: nat, data: seq<nat>, index: seq<nat>)
    requires Lists(s, data, index)
    ensures Lists(s + [root] + [], data, [root] + index)
  {
  }

  /** What the layout says about the part of the file behind pointer `idx`. */
  lemma PointerRegion(st: Store, node: Node, data: seq<nat>, index: seq<nat>, idx: nat)
    requires Holds(st, node, data, index) && idx <= DIRECT + INDIRECT
    ensures |data| <= Start(idx) ==> |index| <= IndexStart(idx)
    ensures |data| > Start(idx) ==>
              && idx <= node.ptrIdx
              && (idx < DIRECT ==> node.ptrs[idx] == data[idx])
              && (DIRECT <= idx < DIRECT + INDIRECT ==>
                    && Slot(Start(idx)) == 0 && BlockNo(Start(idx)) == idx - DIRECT < |index|
                    && node.ptrs[idx] == index[idx - DIRECT])
              && (idx == 14 ==>
                    && |data| > DOUBLE_START && INDIRECT < |index| && node.ptrs[14] == index[INDIRECT] < |st.disk|
                    && forall j :: 0 <= j < PER_BLOCK && INDIRECT + 1 + j < |index| ==>
                         Unpack(st.disk[node.ptrs[14]])[j] == index[INDIRECT + 1 + j])
  {
    hide Unpack;
    IndexCountBound(|data|);
    if |data| > Start(idx) && idx == 14 {
      forall j | 0 <= j < PER_BLOCK && INDIRECT + 1 + j < |index|
        ensures Unpack(st.disk[index[INDIRECT]])[j] == index[INDIRECT + 1 + j]
      {
        assert PtrIn(st.disk, index[INDIRECT], INDIRECT + 1 + j - INDIRECT - 1, index[INDIRECT + 1 + j]);
      }
    }
  }

  // ---------------------------------------------------------------- conservation

  /** Releasing different sectors, all in use, clears exactly their bits. */
  lemma {:induction false} ReleaseAllIs(used: seq<bool>, s: seq<nat>)
    requires forall k: nat :: multiset(s)[k] <= 1
    requires forall i :: 0 <= i < |s| ==> s[i] < |used| && used[s[i]]
    ensures var r := ReleaseAll(used, s);
            && r.Some? && |r.value| == |used|
            && forall k :: 0 <= k < |used| ==> (r.value[k] <==> used[k] && k !in s)
    decreases |s|
  {
    if s != [] {
      assert s == [s[0]] + s[1..];
      assert multiset(s) == multiset{s[0]} + multiset(s[1..]);
      assert forall k: nat :: multiset(s[1..])[k] <= multiset(s)[k];
      assert s[0] !in s[1..] by { assert multiset(s[1..])[s[0]] == 0; }
      forall i | 0 <= i < |s[1..]|
        ensures s[1..][i] < |used| && used[s[0] := false][s[1..][i]]
      {
        assert s[1..][i] == s[i + 1] && s[1..][i] in s[1..];
      }
      ReleaseAllIs(used[s[0] := false], s[1..]);
    }
  }

  lemma {:induction false} CountInDistinct(s: seq<nat>, k: nat)
    requires Distinct(s)
    ensures multiset(s)[k] <= 1
    decreases |s|
  {
    if s != [] {
      var last := |s| - 1;
      assert s == s[..last] + [s[last]];
      assert multiset(s) == multiset(s[..last]) + multiset{s[last]};
      CountInDistinct(s[..last], k);
      assert k in multiset(s[..last]) <==> k in s[..last];
    }
  }

  /** A list of an inode sector, data sectors and pointer blocks, all different, names each once. */
  lemma ListedOnce(sector: nat, order: seq<nat>, data: seq<nat>, index: seq<nat>)
    requires Lists(order, data, index) && Distinct(data) && Distinct(index) && Disjoint(data, index)
    requires sector !in data && sector !in index
    ensures forall k: nat :: multiset([sector] + order)[k] <= 1
    ensures forall k: nat :: k in [sector] + order <==> k == sector || k in data || k in index
  {
    forall k: nat
      ensures multiset([sector] + order)[k] <= 1
      ensures k in [sector] + order <==> k == sector || k in data || k in index
    {
      CountInDistinct(data, k);
      CountInDistinct(index, k);
      assert multiset([sector] + order) == multiset{sector} + multiset(data) + multiset(index);
      assert k in [sector] + order <==> k in multiset([sector] + order);
      assert k in multiset(data) <==> k in data;
      assert k in multiset(index) <==> k in index;
    }
  }

  /** Closing a removed inode releases its data sectors, its pointer blocks and its own sector, each once
      and nothing else; no assertion of the free map fails. */
  lemma CloseReleasesExactly(st: Store, node: Node, data: seq<nat>, index: seq<nat>, sector: nat)
    requires Holds(st, node, data, index)
    requires sector < |st.used| && st.used[sector] && sector !in data && sector !in index
    ensures var r := CloseRemoved(st, node, sector, |data|);
            && r.Some? && |r.value| == |st.used|
            && forall k :: 0 <= k < |st.used| ==>
                 (r.value[k] <==> st.used[k] && k != sector && k !in data && k !in index)
  {
    hide Holds, Order, Lists, Tail, Distinct, Disjoint, ReleaseAll;
    HoldsParts(st, node, data, index);
    OrderIs(st, node, data, index, 0);
    TailAll(data);
    TailAll(index);
    var order := Order(st.disk, node, 0, |data|).value;
    ListedOnce(sector, order, data, index);
    var all := [sector] + order;
    forall i | 0 <= i < |all|
      ensures all[i] < |st.used| && st.used[all[i]]
    {
      assert all[i] in all;
    }
    ReleaseAllIs(st.used, all);
    CloseIsReleaseAll(st.used, sector, order);
  }

  lemma CloseIsReleaseAll(used: seq<bool>, sector: nat, order: seq<nat>)
    requires sector < |used| && used[sector]
    ensures ReleaseAll(used, [sector] + order) == ReleaseAll(used[sector := false], order)
  {
    assert ([sector] + order)[1..] == order;
  }

  /** One call of the growth function, with what its uninitialised buffers held. */
  datatype Call = Call(sectors: nat, inner: PtrBlock, dbl: PtrBlock)

  ghost function RunCalls(st: Store, node: Node, calls: seq<Call>): (r: (Store, Node))
    requires StoreOk(st) && NodeOk(node)
    ensures StoreOk(r.0) && NodeOk(r.1)
    decreases |calls|
  {
    if calls == [] then (st, node)
    else
      var g := Grow(st, node, calls[0].sectors, calls[0].inner, calls[0].dbl);
      RunCalls(g.st, g.node, calls[1..])
  }

  /** Every call meets the caller's conditions when it is made. */
  ghost predicate AllCanGrow(st: Store, node: Node, n: nat, calls: seq<Call>)
    requires StoreOk(st) && NodeOk(node)
    decreases |calls|
  {
    calls == [] ||
    (CanGrow(st.used, n, calls[0].sectors) &&
     var g := Grow(st, node, calls[0].sectors, calls[0].inner, calls[0].dbl);
     AllCanGrow(g.st, g.node, n + calls[0].sectors, calls[1..]))
  }

  ghost function Sum(calls: seq<Call>): nat {
    if calls == [] then 0 else calls[0].sectors + Sum(calls[1..])
  }

  lemma GrowExtends(st: Store, node: Node, data: seq<nat>, index: seq<nat>, c: Call)
      returns (more: seq<nat>, moreIndex: seq<nat>)
    requires Holds(st, node, data, index) && NodeOk(node) && CanGrow(st.used, |data|, c.sectors)
    ensures |more| == c.sectors
    ensures var g := Grow(st, node, c.sectors, c.inner, c.dbl); Extends(st, g.st, g.node, data, index, more, moreIndex)
  {
    hide Holds, CanGrow, Extends;
    HoldsParts(st, node, data, index);
    more, moreIndex := GrowLoopExtends(Growth(st, node, c.inner, c.dbl, c.sectors, Ok), data, index);
  }

  /** Any series of growths extends the file by the sum of what was asked for. */
  lemma {:induction false} RunExtends(st: Store, node: Node, data: seq<nat>, index: seq<nat>, calls: seq<Call>)
      returns (more: seq<nat>, moreIndex: seq<nat>)
    requires Holds(st, node, data, index) && NodeOk(node) && AllCanGrow(st, node, |data|, calls)
    ensures |more| == Sum(calls)
    ensures var (st', node') := RunCalls(st, node, calls); Extends(st, st', node', data, index, more, moreIndex)
    decreases |calls|
  {
    hide Holds, Extends, CanGrow, Grow, AllUsed, Distinct, Disjoint, Cursor;
    HoldsParts(st, node, data, index);
    if calls == [] {
      ExtendsNothing(st, node, data, index);
      return [], [];
    }
    var c := calls[0];
    var more1, index1 := GrowExtends(st, node, data, index, c);
    var g := Grow(st, node, c.sectors, c.inner, c.dbl);
    ExtendsHolds(st, g.st, g.node, data, index, more1, index1);
    var more2, index2 := RunExtends(g.st, g.node, data + more1, index + index1, calls[1..]);
    var end := RunCalls(g.st, g.node, calls[1..]);
    ExtendsTrans(st, g.st, g.node, end.0, end.1, data, index, more1, index1, more2, index2);
    more, moreIndex := more1 + more2, index1 + index2;
  }

  /** Create a file in a free sector, grow it any number of times, remove and close it: the free map is
      back where it was, whatever the inode's pointers and all buffers held to begin with. */
  lemma CreateGrowClose(st: Store, sector: nat, node: Node, calls: seq<Call>)
    requires StoreOk(st) && sector < |st.used| && !st.used[sector]
    requires node.ptrIdx == 0 && node.indirIdx == 0 && node.dblIdx == 0
    requires AllCanGrow(Take(st, sector), node, 0, calls)
    ensures var (st', node') := RunCalls(Take(st, sector), node, calls);
            CloseRemoved(st', node', sector, Sum(calls)) == Some(st.used)
  {
    hide Holds, CloseRemoved, RunCalls, AllCanGrow, Extends, Fresh, Marks;
    var st1 := Take(st, sector);
    EmptyFile(st1, node);
    var data, index := RunExtends(st1, node, [], [], calls);
    var (st', node') := RunCalls(st1, node, calls);
    ExtendsFromNothing(st1, st', node', data, index);
    CreatedApart(st1, st', data, index, sector);
    CloseReleasesExactly(st', node', data, index, sector);
    MarksLength(st1.used, st'.used, data + index);
    var r := CloseRemoved(st', node', sector, |data|).value;
    assert r == st.used;
  }

  lemma MarksLength(used: seq<bool>, used': seq<bool>, s: seq<nat>)
    requires Marks(used, used', s)
    ensures |used'| == |used|
  {
  }

  lemma EmptyFile(st: Store, node: Node)
    requires StoreOk(st) && node.ptrIdx == 0 && node.indirIdx == 0 && node.dblIdx == 0
    ensures Holds(st, node, [], [])
  {
    assert IndexCount(0) == 0;
  }

  lemma ExtendsFromNothing(st: Store, st': Store, node': Node, data: seq<nat>, index: seq<nat>)
    requires Extends(st, st', node', [], [], data, index)
    ensures Holds(st', node', data, index) && Marks(st.used, st'.used, data + index)
    ensures Fresh(st.used, data) && Fresh(st.used, index)
  {
    assert [] + data == data && [] + index == index;
  }

  lemma CreatedApart(st1: Store, st': Store, data: seq<nat>, index: seq<nat>, sector: nat)
    requires sector < |st1.used| && st1.used[sector]
    requires Fresh(st1.used, data) && Fresh(st1.used, index) && Marks(st1.used, st'.used, data + index)
    ensures sector !in data && sector !in index && sector < |st'.used| && st'.used[sector]
    ensures forall k :: 0 <= k < |st1.used| ==>
              ((st'.used[k] && k != sector && k !in data && k !in index) <==> st1.used[k] && k != sector)
  {
    forall k | 0 <= k < |st1.used|
      ensures (st'.used[k] && k != sector && k !in data && k !in index) <==> st1.used[k] && k != sector
    {
      assert k in data + index <==> k in data || k in index;
    }
  }
}
