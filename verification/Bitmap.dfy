/** What a bitmap is from the outside: a sequence of booleans. */
module BoolSeq {
  /** `bits` with the `cnt` positions from `start` set to `value`. */
  function SetRange(bits: seq<bool>, start: nat, cnt: nat, value: bool): (r: seq<bool>)
    requires start + cnt <= |bits|
    ensures |r| == |bits|
  {
    seq(|bits|, i requires 0 <= i < |bits| => if start <= i < start + cnt then value else bits[i])
  }

  /** The `cnt` positions from `i` all hold `value`. */
  predicate Run(bits: seq<bool>, i: nat, cnt: nat, value: bool)
  {
    i + cnt <= |bits| && forall k :: i <= k < i + cnt ==> bits[k] == value
  }

  /** The number of positions below `n` that hold `value`. */
  function Count(bits: seq<bool>, n: nat, value: bool): nat
    requires n <= |bits|
  {
    if n == 0 then 0 else Count(bits, n - 1, value) + if bits[n - 1] == value then 1 else 0
  }
}

/** The word-packed bitmap. */
module BitmapModel {
  import opened Wrappers
  import opened Bits
  import opened BoolSeq

  function ElemIdx(i: nat): nat { i / WORD_BITS }

  function BitMask(i: nat): nat { Pow2(i % WORD_BITS) }

  function ElemCnt(bitCnt: nat): nat { (bitCnt + WORD_BITS - 1) / WORD_BITS }

  /** The used bits of the last element: all of them when the count is a multiple of 32. */
  function LastMask(bitCnt: nat): nat {
    if bitCnt % WORD_BITS != 0 then Pow2(bitCnt % WORD_BITS) - 1 else B32 - 1
  }

  ghost predicate IsWord(w: nat) { w < B32 }

  /** The boolean held at position `i` of a packed sequence of words. */
  ghost predicate At(words: seq<nat>, i: nat)
    requires ElemIdx(i) < |words|
  {
    Bit(words[ElemIdx(i)], i % WORD_BITS)
  }

  /** The boolean sequence that `words` packs. */
  ghost function Unpacked(words: seq<nat>, bitCnt: nat): (r: seq<bool>)
    requires |words| == ElemCnt(bitCnt)
    ensures |r| == bitCnt
    ensures forall i :: 0 <= i < bitCnt ==> r[i] == At(words, i)
  {
    seq(bitCnt, i requires 0 <= i < bitCnt => At(words, i))
  }

  /** `w`, as the last word of a bitmap of `bitCnt` bits, has no padding bit set. */
  ghost predicate PaddingClear(w: nat, bitCnt: nat)
    requires bitCnt > 0
  {
    forall k: nat :: k < WORD_BITS && Bit(w, k) ==> (ElemCnt(bitCnt) - 1) * WORD_BITS + k < bitCnt
  }

  /** Two bit positions are the same position iff element and offset both agree. */
  lemma SamePosition(i: nat, j: nat)
    ensures i == j <==> (ElemIdx(i) == ElemIdx(j) && i % WORD_BITS == j % WORD_BITS)
  {
  }

  lemma MaskIsWord(i: nat)
    ensures IsWord(BitMask(i))
  {
    Pow2Is32();
    Pow2Monotone(i % WORD_BITS, 31);
    assert Pow2(32) == 2 * Pow2(31);
  }

  /** Testing with a one-bit mask reads that bit. */
  lemma {:induction false} MaskedTest(w: nat, k: nat)
    ensures And(w, Pow2(k)) != 0 <==> Bit(w, k)
    decreases k
  {
    if w == 0 {
      BitOfZero(k);
    } else if k > 0 {
      assert Pow2(k) / 2 == Pow2(k - 1);
      MaskedTest(w / 2, k - 1);
    } else {
      assert And(w / 2, 0) == 0 by { AndZero(w / 2); }
    }
  }

  /** The effect of replacing one word: only bits of that word can change. */
  lemma UpdateWord(words: seq<nat>, bitCnt: nat, idx: nat, w: nat, value: bool)
    requires |words| == ElemCnt(bitCnt) && idx < bitCnt
    requires forall k: nat :: k < WORD_BITS ==>
               Bit(w, k) == if k == idx % WORD_BITS then value else Bit(words[ElemIdx(idx)], k)
    ensures Unpacked(words[ElemIdx(idx) := w], bitCnt) == Unpacked(words, bitCnt)[idx := value]
  {
    var words' := words[ElemIdx(idx) := w];
    forall i | 0 <= i < bitCnt
      ensures At(words', i) == if i == idx then value else At(words, i)
    {
      SamePosition(i, idx);
    }
    assert Unpacked(words', bitCnt) == Unpacked(words, bitCnt)[idx := value];
  }

  class Bitmap {
    const bitCnt: nat
    const bits: array<nat>

    ghost predicate Valid()
      reads this, bits
    {
      && bits.Length == ElemCnt(bitCnt)
      && forall i :: 0 <= i < bits.Length ==> IsWord(bits[i])
    }

    ghost function Contents(): (r: seq<bool>)
      requires Valid()
      reads this, bits
      ensures |r| == bitCnt
    {
      Unpacked(bits[..], bitCnt)
    }

    constructor (bitCnt: nat)
      ensures Valid() && fresh(bits) && this.bitCnt == bitCnt
      ensures Contents() == seq(bitCnt, _ => false)
    {
      this.bitCnt := bitCnt;
      bits := new nat[ElemCnt(bitCnt)](_ => 0);
      new;
      SetMultiple(0, bitCnt, false);
      assert Contents() == seq(bitCnt, _ => false);
    }

    method Mark(idx: nat)
      requires Valid() && idx < bitCnt
      modifies bits
      ensures Valid() && Contents() == old(Contents())[idx := true]
    {
      var w := Or(bits[ElemIdx(idx)], BitMask(idx));
      MaskIsWord(idx);
      Pow2Is32();
      OpsStayInWidth(bits[ElemIdx(idx)], BitMask(idx), 32);
      forall k: nat | k < WORD_BITS
        ensures Bit(w, k) == if k == idx % WORD_BITS then true else Bit(bits[ElemIdx(idx)], k)
      {
        BitOfOr(bits[ElemIdx(idx)], BitMask(idx), k);
        BitOfPow2(idx % WORD_BITS, k);
      }
      UpdateWord(bits[..], bitCnt, idx, w, true);
      ghost var was := bits[..];
      bits[ElemIdx(idx)] := w;
      assert bits[..] == was[ElemIdx(idx) := w];
    }

    method Reset(idx: nat)
      requires Valid() && idx < bitCnt
      modifies bits
      ensures Valid() && Contents() == old(Contents())[idx := false]
    {
      var mask := Complement(BitMask(idx), WORD_BITS);
      var w := And(bits[ElemIdx(idx)], mask);
      ComplementInWidth(BitMask(idx), 32);
      Pow2Is32();
      OpsStayInWidth(bits[ElemIdx(idx)], mask, 32);
      forall k: nat | k < WORD_BITS
        ensures Bit(w, k) == if k == idx % WORD_BITS then false else Bit(bits[ElemIdx(idx)], k)
      {
        BitOfAnd(bits[ElemIdx(idx)], mask, k);
        BitOfComplement(BitMask(idx), WORD_BITS, k);
        BitOfPow2(idx % WORD_BITS, k);
      }
      UpdateWord(bits[..], bitCnt, idx, w, false);
      ghost var was := bits[..];
      bits[ElemIdx(idx)] := w;
      assert bits[..] == was[ElemIdx(idx) := w];
    }

    method Flip(idx: nat)
      requires Valid() && idx < bitCnt
      modifies bits
      ensures Valid() && Contents() == old(Contents())[idx := !old(Contents())[idx]]
    {
      var w := Xor(bits[ElemIdx(idx)], BitMask(idx));
      MaskIsWord(idx);
      Pow2Is32();
      OpsStayInWidth(bits[ElemIdx(idx)], BitMask(idx), 32);
      ghost var flipped := !Contents()[idx];
      forall k: nat | k < WORD_BITS
        ensures Bit(w, k) == if k == idx % WORD_BITS then flipped else Bit(bits[ElemIdx(idx)], k)
      {
        BitOfXor(bits[ElemIdx(idx)], BitMask(idx), k);
        BitOfPow2(idx % WORD_BITS, k);
      }
      UpdateWord(bits[..], bitCnt, idx, w, flipped);
      ghost var was := bits[..];
      bits[ElemIdx(idx)] := w;
      assert bits[..] == was[ElemIdx(idx) := w];
    }

    method Test(idx: nat) returns (r: bool)
      requires Valid() && idx < bitCnt
      ensures r == Contents()[idx]
    {
      r := And(bits[ElemIdx(idx)], BitMask(idx)) != 0;
      MaskedTest(bits[ElemIdx(idx)], idx % WORD_BITS);
    }

    method Set(idx: nat, value: bool)
      requires Valid() && idx < bitCnt
      modifies bits
      ensures Valid() && Contents() == old(Contents())[idx := value]
    {
      if value { Mark(idx); } else { Reset(idx); }
    }

    method SetMultiple(start: nat, cnt: nat, value: bool)
      requires Valid() && start + cnt <= bitCnt
      modifies bits
      ensures Valid() && Contents() == SetRange(old(Contents()), start, cnt, value)
    {
      ghost var was := Contents();
      assert was == SetRange(was, start, 0, value);
      for i := 0 to cnt
        invariant Valid() && Contents() == SetRange(was, start, i, value)
      {
        Set(start + i, value);
        assert SetRange(was, start, i, value)[start + i := value] == SetRange(was, start, i + 1, value);
      }
    }

    method Contains(start: nat, cnt: nat, value: bool) returns (r: bool)
      requires Valid() && start + cnt <= bitCnt
      ensures r <==> !Run(Contents(), start, cnt, !value)
    {
      for i := 0 to cnt
        invariant Run(Contents(), start, i, !value)
      {
        var t := Test(start + i);
        if t == value {
          assert Contents()[start + i] == value;
          return true;
        }
      }
      return false;
    }

    method CountOf(start: nat, cnt: nat, value: bool) returns (n: nat)
      requires Valid() && start + cnt <= bitCnt
      ensures n == Count(Contents()[start..start + cnt], cnt, value)
    {
      n := 0;
      ghost var part := Contents()[start..start + cnt];
      for i := 0 to cnt
        invariant n == Count(part, i, value)
      {
        var t := Test(start + i);
        if t == value { n := n + 1; }
      }
    }

    /** The least index at or after `start` of a run of `cnt` positions holding `value`. */
    method Scan(start: nat, cnt: nat, value: bool) returns (r: Option<nat>)
      requires Valid() && start <= bitCnt
      ensures r.Some? ==> start <= r.value && Run(Contents(), r.value, cnt, value)
      ensures r.Some? ==> forall i :: start <= i < r.value ==> !Run(Contents(), i, cnt, value)
      ensures r.None? ==> forall i :: start <= i ==> !Run(Contents(), i, cnt, value)
    {
      if cnt <= bitCnt {
        var last := bitCnt - cnt;
        var i := start;
        while i <= last
          invariant start <= i
          invariant forall j :: start <= j < i ==> !Run(Contents(), j, cnt, value)
        {
          var other := Contains(i, cnt, !value);
          if !other { return Some(i); }
          i := i + 1;
        }
      }
      return None;
    }

    method ScanAndFlip(start: nat, cnt: nat, value: bool) returns (r: Option<nat>)
      requires Valid() && start <= bitCnt
      modifies bits
      ensures Valid()
      ensures r.Some? ==> start <= r.value && Run(old(Contents()), r.value, cnt, value)
      ensures r.Some? ==> forall i :: start <= i < r.value ==> !Run(old(Contents()), i, cnt, value)
      ensures r.Some? ==> Contents() == SetRange(old(Contents()), r.value, cnt, !value)
      ensures r.None? ==> forall i :: start <= i ==> !Run(old(Contents()), i, cnt, value)
      ensures r.None? ==> Contents() == old(Contents())
    {
      ghost var was := Contents();
      r := Scan(start, cnt, value);
      assert Contents() == was;
      if r.Some? { SetMultiple(r.value, cnt, !value); }
    }

    /** The words that are stored in a file; padding bits of the last word go out as they are. */
    method WriteTo() returns (file: seq<nat>)
      requires Valid()
      ensures file == bits[..]
    {
      file := bits[..];
    }

    /** Reads the words of `file` (as many as it holds) and clears the padding of the last word. */
    method ReadFrom(file: seq<nat>) returns (success: bool)
      requires Valid()
      requires forall i :: 0 <= i < |file| ==> IsWord(file[i])
      modifies bits
      ensures Valid()
      ensures success <==> bitCnt == 0 || |file| >= ElemCnt(bitCnt)
      ensures success ==> Contents() == Unpacked(file[..ElemCnt(bitCnt)], bitCnt)
      ensures forall i :: |file| * WORD_BITS <= i < bitCnt ==> Contents()[i] == old(Contents())[i]
      ensures bitCnt > 0 ==> PaddingClear(bits[bits.Length - 1], bitCnt)
    {
      success := true;
      if bitCnt > 0 {
        ghost var was := bits[..];
        var n := if |file| < bits.Length then |file| else bits.Length;
        forall i | 0 <= i < n { bits[i] := file[i]; }
        success := n == bits.Length;
        ghost var got := bits[..];
        var last := bits.Length - 1;
        var w := And(bits[last], LastMask(bitCnt));
        ClearPadding(bits[last], bitCnt);
        bits[last] := w;
        assert bits[..] == got[last := w];
        LastMaskKeeps(got, bitCnt);
        assert Contents() == Unpacked(got, bitCnt);
        if success { assert got == file[..ElemCnt(bitCnt)]; }
        forall i | |file| * WORD_BITS <= i < bitCnt
          ensures Contents()[i] == Unpacked(was, bitCnt)[i]
        {
          assert ElemIdx(i) >= |file|;
          assert got[ElemIdx(i)] == was[ElemIdx(i)];
        }
      } else {
        assert Contents() == Unpacked(file[..0], bitCnt);
      }
    }
  }

  lemma LastMaskBit(bitCnt: nat, k: nat)
    requires bitCnt > 0 && k < WORD_BITS
    ensures Bit(LastMask(bitCnt), k) <==> (ElemCnt(bitCnt) - 1) * WORD_BITS + k < bitCnt
    ensures IsWord(LastMask(bitCnt))
  {
    Pow2Is32();
    if bitCnt % WORD_BITS != 0 {
      BitOfLowMask(bitCnt % WORD_BITS, k);
      Pow2Monotone(bitCnt % WORD_BITS, 32);
    } else {
      BitOfLowMask(32, k);
    }
  }

  lemma ClearPadding(w: nat, bitCnt: nat)
    requires bitCnt > 0 && IsWord(w)
    ensures IsWord(And(w, LastMask(bitCnt)))
    ensures forall k: nat :: k < WORD_BITS ==>
              Bit(And(w, LastMask(bitCnt)), k) ==
              (Bit(w, k) && (ElemCnt(bitCnt) - 1) * WORD_BITS + k < bitCnt)
  {
    Pow2Is32();
    LastMaskBit(bitCnt, 0);
    OpsStayInWidth(w, LastMask(bitCnt), 32);
    forall k: nat | k < WORD_BITS
      ensures Bit(And(w, LastMask(bitCnt)), k) ==
              (Bit(w, k) && (ElemCnt(bitCnt) - 1) * WORD_BITS + k < bitCnt)
    {
      BitOfAnd(w, LastMask(bitCnt), k);
      LastMaskBit(bitCnt, k);
    }
  }

  /** Masking the last word changes none of the bits that are in use. */
  lemma LastMaskKeeps(words: seq<nat>, bitCnt: nat)
    requires bitCnt > 0 && |words| == ElemCnt(bitCnt) && IsWord(words[|words| - 1])
    ensures Unpacked(words[|words| - 1 := And(words[|words| - 1], LastMask(bitCnt))], bitCnt)
            == Unpacked(words, bitCnt)
  {
    var last := |words| - 1;
    ClearPadding(words[last], bitCnt);
    var words' := words[last := And(words[last], LastMask(bitCnt))];
    forall i | 0 <= i < bitCnt
      ensures At(words', i) == At(words, i)
    {
      if ElemIdx(i) == last {
        assert i == last * WORD_BITS + i % WORD_BITS;
      }
    }
    assert Unpacked(words', bitCnt) == Unpacked(words, bitCnt);
  }

  /** A bitmap written out and read back is the same bitmap, whatever its padding bits were
      and whatever the destination held before. */
  method StoreAndLoad(b: Bitmap, c: Bitmap) returns (success: bool)
    requires b.Valid() && c.Valid() && b.bitCnt == c.bitCnt && b.bits != c.bits
    modifies c.bits
    ensures success && c.Valid() && c.Contents() == b.Contents()
  {
    var file := b.WriteTo();
    assert file[..ElemCnt(b.bitCnt)] == file;
    success := c.ReadFrom(file);
  }
}

/** The free map: one bit per disk sector, set while the sector is in use. */
module FreeMapModel {
  import opened Wrappers
  import opened BoolSeq
  import opened BitmapModel

  /** Allocates `cnt` consecutive sectors.  `stored` is whether writing the map to its file
      succeeded (true as well while no file is open). */
  method Allocate(freeMap: Bitmap, cnt: nat, stored: bool) returns (r: Option<nat>)
    requires freeMap.Valid()
    modifies freeMap.bits
    ensures freeMap.Valid()
    ensures r.Some? <==> stored && exists i :: Run(old(freeMap.Contents()), i, cnt, false)
    ensures r.Some? ==> Run(old(freeMap.Contents()), r.value, cnt, false)
    ensures r.Some? ==> forall i :: 0 <= i < r.value ==> !Run(old(freeMap.Contents()), i, cnt, false)
    ensures r.Some? ==> freeMap.Contents() == SetRange(old(freeMap.Contents()), r.value, cnt, true)
    ensures r.None? ==> freeMap.Contents() == old(freeMap.Contents())
  {
    ghost var was := freeMap.Contents();
    r := freeMap.ScanAndFlip(0, cnt, false);
    if r.Some? && !stored {
      freeMap.SetMultiple(r.value, cnt, false);
      UndoSetRange(was, r.value, cnt);
      r := None;
    }
  }

  /** Returns sectors to the map; the source asserts that all of them are in use. */
  method Release(freeMap: Bitmap, sector: nat, cnt: nat)
    requires freeMap.Valid() && Run(freeMap.Contents(), sector, cnt, true)
    modifies freeMap.bits
    ensures freeMap.Valid()
    ensures freeMap.Contents() == SetRange(old(freeMap.Contents()), sector, cnt, false)
  {
    freeMap.SetMultiple(sector, cnt, false);
  }

  /** Setting a run of free positions and clearing it again restores the map. */
  lemma UndoSetRange(bits: seq<bool>, start: nat, cnt: nat)
    requires Run(bits, start, cnt, false)
    ensures SetRange(SetRange(bits, start, cnt, true), start, cnt, false) == bits
  {
  }

  /** Releasing what was just allocated restores the free map. */
  method AllocateThenRelease(freeMap: Bitmap, cnt: nat) returns (r: Option<nat>)
    requires freeMap.Valid()
    modifies freeMap.bits
    ensures freeMap.Valid() && freeMap.Contents() == old(freeMap.Contents())
  {
    ghost var was := freeMap.Contents();
    r := Allocate(freeMap, cnt, true);
    if r.Some? {
      Release(freeMap, r.value, cnt);
      UndoSetRange(was, r.value, cnt);
    }
  }
}
