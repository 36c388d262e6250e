/** Formatting an integer into a 64-byte buffer, and parsing it back. */
module Printf {
  import opened Wrappers

  const B64 := 0x1_0000_0000_0000_0000
  const INT_MIN := -0x8000_0000
  const INT_MAX := 0x7FFF_FFFF
  const BUF_SIZE := 64

  /** Flags, width and precision of a conversion; precision -1 means none was given. */
  datatype Conversion = Conversion(minus: bool, plus: bool, space: bool, pound: bool, zero: bool, group: bool,
                                   width: int, precision: int)

  /** A number base: its digits, the `x` of its prefix if it has one, and the size of a digit group. */
  datatype Base = Base(base: nat, digits: string, x: Option<char>, group: nat)

  predicate Ascending(s: string) {
    forall i :: 0 < i < |s| ==> s[i - 1] < s[i]
  }

  /** What holds of the four bases of the source: enough digits, in ascending order from '0'. */
  ghost predicate BaseOk(b: Base) {
    8 <= b.base <= |b.digits| && b.group >= 1 && b.digits[0] == '0' && Ascending(b.digits)
  }

  function BaseD(): Base { Base(10, "0123456789", None, 3) }
  function BaseO(): Base { Base(8, "01234567", None, 3) }
  function BaseX(): Base { Base(16, "0123456789abcdef", Some('x'), 4) }
  function BaseXUpper(): Base { Base(16, "0123456789ABCDEF", Some('X'), 4) }

  /** The bases that conversions use. */
  lemma BasesOk()
    ensures BaseOk(BaseD()) && BaseOk(BaseO()) && BaseOk(BaseX()) && BaseOk(BaseXUpper())
  {
    assert Ascending(BaseD().digits);
    assert Ascending(BaseO().digits);
    assert Ascending(BaseX().digits);
    assert Ascending(BaseXUpper().digits);
  }

  /** The digit of value `i` is the decimal digit, or the letter counted from `a` or `A`. */
  lemma DigitCharacters(i: nat)
    ensures i < 10 ==> BaseD().digits[i] as int == '0' as int + i
    ensures i < 8 ==> BaseO().digits[i] as int == '0' as int + i
    ensures i < 16 ==> BaseX().digits[i] as int == if i < 10 then '0' as int + i else 'a' as int + (i - 10)
    ensures i < 16 ==> BaseXUpper().digits[i] as int == if i < 10 then '0' as int + i else 'A' as int + (i - 10)
  {
  }

  // ---------------------------------------------------------------- the code, on values

  /** The lowest digit of `value`, and what is left above it. */
  function LowDigit(value: nat, b: Base): char
    requires BaseOk(b)
  {
    b.digits[value % b.base]
  }

  function Above(value: nat, b: Base): (r: nat)
    requires BaseOk(b)
    ensures value > 0 ==> r < value
  {
    if value > 0 then DivSmaller(value, b.base); value / b.base else 0
  }

  lemma DivSmaller(value: nat, base: nat)
    requires value > 0 && base >= 8
    ensures value / base < value
  {
    assert value == value / base * base + value % base;
    MulMono(value / base, value / base, 8, base);
  }

  /** The digits of `value` from the lowest up, `cnt` digits having been produced before, with a comma ahead of
      every full group if asked for. */
  function Digits(value: nat, b: Base, grouped: bool, cnt: nat): string
    requires BaseOk(b)
    decreases value
  {
    if value == 0 then ""
    else
      (if grouped && cnt > 0 && cnt % b.group == 0 then "," else "")
      + [LowDigit(value, b)] + Digits(Above(value, b), b, grouped, cnt + 1)
  }

  function Repeat(ch: char, n: int): (s: string)
    ensures |s| == if n < 0 then 0 else n
    ensures forall i :: 0 <= i < |s| ==> s[i] == ch
  {
    if n <= 0 then "" else Repeat(ch, n - 1) + [ch]
  }

  /** Zeros up to the precision, never beyond 63 characters; then octal's leading zero. */
  function Padded(digits: string, b: Base, c: Conversion): string {
    var precision := if c.precision < 0 then 1 else c.precision;
    var want := if precision < BUF_SIZE - 1 then precision else BUF_SIZE - 1;
    var s := digits + Repeat('0', want - |digits|);
    if c.pound && b.base == 8 && (s == "" || s[|s| - 1] != '0') then s + "0" else s
  }

  function Reverse(s: string): (r: string)
    ensures |r| == |s|
  {
    if s == "" then "" else Reverse(s[1..]) + [s[0]]
  }

  function SignOf(isSigned: bool, negative: bool, c: Conversion): string {
    if !isSigned then ""
    else if c.plus then (if negative then "-" else "+")
    else if c.space then (if negative then "-" else " ")
    else if negative then "-" else ""
  }

  function PrefixOf(value: nat, b: Base, c: Conversion): string {
    if c.pound && value != 0 && b.x.Some? then "0" + [b.x.value] else ""
  }

  /** The characters an integer conversion puts out. */
  function Format(value: nat, isSigned: bool, negative: bool, b: Base, c: Conversion): string
    requires BaseOk(b)
  {
    var sign, prefix := SignOf(isSigned, negative, c), PrefixOf(value, b, c);
    var buf := Padded(Digits(value, b, c.group, 0), b, c);
    var pad := c.width - |buf| - |prefix| - |sign|;
    (if !c.minus && !c.zero then Repeat(' ', pad) else "") + sign + prefix
    + (if c.zero then Repeat('0', pad) else "") + Reverse(buf) + (if c.minus then Repeat(' ', pad) else "")
  }

  // ---------------------------------------------------------------- the buffer is large enough

  function Pow8(k: nat): nat {
    if k == 0 then 1 else 8 * Pow8(k - 1)
  }

  /** At most one digit and one comma for each factor of eight. */
  lemma {:induction false} DigitsBound(value: nat, b: Base, grouped: bool, cnt: nat, k: nat)
    requires BaseOk(b) && value < Pow8(k)
    ensures |Digits(value, b, grouped, cnt)| <= 2 * k
    decreases k
  {
    if value > 0 {
      assert k > 0;
      DivShrinks(value, b.base, Pow8(k - 1));
      DigitsBound(Above(value, b), b, grouped, cnt + 1, k - 1);
    }
  }

  lemma DivShrinks(value: nat, base: nat, p: nat)
    requires base >= 8 && value < 8 * p
    ensures value / base < p
  {
    assert value == value / base * base + value % base;
    if value / base >= p { MulMono(p, value / base, 8, base); }
  }

  lemma MulMono(x: nat, y: nat, a: nat, b: nat)
    requires x <= y && a <= b
    ensures x * a <= y * b
  {
  }

  lemma DigitsFit(value: nat, b: Base, grouped: bool)
    requires BaseOk(b) && value < B64
    ensures |Digits(value, b, grouped, 0)| <= 44
  {
    assert Pow8(11) == 0x2_0000_0000;
    assert Pow8(22) >= B64 by { Pow8Add(11, 11); }
    DigitsBound(value, b, grouped, 0, 22);
  }

  lemma {:induction false} Pow8Add(i: nat, j: nat)
    ensures Pow8(i + j) == Pow8(i) * Pow8(j)
    decreases i
  {
    if i > 0 { Pow8Add(i - 1, j); }
  }

  // ---------------------------------------------------------------- the digits denote the value

  /** The place of a digit among the digits. */
  function Index(digits: string, ch: char): nat {
    if digits == "" || digits[0] == ch then 0 else 1 + Index(digits[1..], ch)
  }

  lemma {:induction false} AscendingLess(s: string, i: nat, j: nat)
    requires Ascending(s) && i < j < |s|
    ensures s[i] < s[j]
    decreases j
  {
    if i < j - 1 { AscendingLess(s, i, j - 1); }
  }

  lemma {:induction false} IndexIs(digits: string, i: nat)
    requires i < |digits| && Ascending(digits)
    ensures Index(digits, digits[i]) == i
    decreases |digits|
  {
    if i > 0 {
      AscendingLess(digits, 0, i);
      IndexIs(digits[1..], i - 1);
    }
  }

  /** The digit of place `i` is not a comma. */
  lemma DigitIs(b: Base, i: nat)
    requires BaseOk(b) && i < |b.digits|
    ensures b.digits[i] != ',' && Index(b.digits, b.digits[i]) == i
  {
    if i > 0 { AscendingLess(b.digits, 0, i); }
    IndexIs(b.digits, i);
  }

  /** The number that digits in base `b` denote, read from the left, commas passed over. */
  function Read(s: string, b: Base): nat {
    if s == "" then 0
    else
      var r, ch := Read(s[..|s| - 1], b), s[|s| - 1];
      if ch == ',' then r else r * b.base + Index(b.digits, ch)
  }

  /** The same, lowest digit first, as the buffer holds them. */
  function LowFirst(s: string, b: Base): nat {
    if s == "" then 0
    else if s[0] == ',' then LowFirst(s[1..], b)
    else LowFirst(s[1..], b) * b.base + Index(b.digits, s[0])
  }

  lemma {:induction false} ReadReverse(s: string, b: Base)
    ensures Read(Reverse(s), b) == LowFirst(s, b)
    decreases |s|
  {
    if s != "" {
      ReadReverse(s[1..], b);
      var r := Reverse(s);
      assert r[..|r| - 1] == Reverse(s[1..]) && r[|r| - 1] == s[0];
    }
  }

  lemma LowFirstTurn(ch: char, rest: string, b: Base)
    ensures LowFirst([ch] + rest, b)
            == if ch == ',' then LowFirst(rest, b) else LowFirst(rest, b) * b.base + Index(b.digits, ch)
  {
    assert ([ch] + rest)[1..] == rest;
  }

  lemma Division(value: nat, base: nat)
    requires base > 0
    ensures value / base * base + value % base == value
  {
  }

  lemma {:induction false} DigitsValue(value: nat, b: Base, grouped: bool, cnt: nat)
    requires BaseOk(b)
    ensures LowFirst(Digits(value, b, grouped, cnt), b) == value
    decreases value
  {
    hide LowFirst, Index, Ascending;
    if value == 0 {
      LowFirstEmpty(b);
    } else {
      var rest := Digits(Above(value, b), b, grouped, cnt + 1);
      DigitsValue(Above(value, b), b, grouped, cnt + 1);
      DigitIs(b, value % b.base);
      Division(value, b.base);
      var low := [LowDigit(value, b)] + rest;
      LowFirstTurn(LowDigit(value, b), rest, b);
      LowFirstTurn(',', low, b);
      DigitsTurn(value, b, grouped, cnt);
      hide Digits, Above, LowDigit;
      assert "," + [LowDigit(value, b)] + rest == [','] + low && "" + [LowDigit(value, b)] + rest == low;
    }
  }

  lemma LowFirstEmpty(b: Base)
    ensures LowFirst("", b) == 0
  {
  }

  /** Only digits of the base and, if `grouped`, separators. */
  predicate Numeral(s: string, b: Base, grouped: bool)
    requires b.base <= |b.digits|
  {
    forall i :: 0 <= i < |s| ==> s[i] in b.digits[..b.base] || (grouped && s[i] == ',')
  }

  lemma NumeralConcat(s: string, t: string, b: Base, grouped: bool)
    requires BaseOk(b) && Numeral(s, b, grouped) && Numeral(t, b, grouped)
    ensures Numeral(s + t, b, grouped)
  {
  }

  lemma {:induction false} DigitsNumeral(value: nat, b: Base, grouped: bool, cnt: nat)
    requires BaseOk(b)
    ensures Numeral(Digits(value, b, grouped, cnt), b, grouped)
    decreases value
  {
    if value > 0 {
      DigitsNumeral(Above(value, b), b, grouped, cnt + 1);
      var rest := Digits(Above(value, b), b, grouped, cnt + 1);
      assert LowDigit(value, b) == b.digits[..b.base][value % b.base];
      DigitsTurn(value, b, grouped, cnt);
      hide Digits, LowDigit;
      var head := (if grouped && cnt > 0 && cnt % b.group == 0 then "," else "") + [LowDigit(value, b)];
      NumeralConcat(head, rest, b, grouped);
    }
  }

  lemma {:induction false} ReverseNumeral(s: string, b: Base, grouped: bool)
    requires BaseOk(b) && Numeral(s, b, grouped)
    ensures Numeral(Reverse(s), b, grouped)
    decreases |s|
  {
    if s != "" {
      ReverseNumeral(s[1..], b, grouped);
      NumeralConcat(Reverse(s[1..]), [s[0]], b, grouped);
    }
  }

  // ---------------------------------------------------------------- one turn of each definition

  lemma DigitsTurn(value: nat, b: Base, grouped: bool, cnt: nat)
    requires BaseOk(b) && value > 0
    ensures Digits(value, b, grouped, cnt) ==
            (if grouped && cnt > 0 && cnt % b.group == 0 then "," else "")
            + [LowDigit(value, b)] + Digits(Above(value, b), b, grouped, cnt + 1)
  {
  }

  lemma DigitsEnd(b: Base, grouped: bool, cnt: nat)
    requires BaseOk(b)
    ensures Digits(0, b, grouped, cnt) == ""
  {
  }

  lemma RepeatTurn(ch: char, n: int)
    requires n > 0
    ensures Repeat(ch, n) == Repeat(ch, n - 1) + [ch]
  {
  }

  lemma RepeatEnd(ch: char, n: int)
    requires n <= 0
    ensures Repeat(ch, n) == ""
  {
  }

  lemma {:induction false} RepeatFront(ch: char, n: int)
    requires n > 0
    ensures Repeat(ch, n) == [ch] + Repeat(ch, n - 1)
    decreases n
  {
    if n > 1 { RepeatFront(ch, n - 1); }
  }

  lemma {:induction false} ReverseConcat(s: string, t: string)
    ensures Reverse(s + t) == Reverse(t) + Reverse(s)
    decreases |s|
  {
    if s == "" {
      assert s + t == t;
    } else {
      assert (s + t)[1..] == s[1..] + t;
      ReverseConcat(s[1..], t);
    }
  }

  lemma {:induction false} ReverseRepeat(ch: char, n: int)
    ensures Reverse(Repeat(ch, n)) == Repeat(ch, n)
    decreases n
  {
    if n > 0 {
      ReverseConcat(Repeat(ch, n - 1), [ch]);
      ReverseRepeat(ch, n - 1);
      RepeatFront(ch, n);
      assert Reverse([ch]) == [ch];
    }
  }

  lemma LastFirst(s: string)
    requires s != ""
    ensures Reverse(s)[0] == s[|s| - 1]
  {
    var n := |s| - 1;
    assert s == s[..n] + [s[n]];
    ReverseConcat(s[..n], [s[n]]);
    assert Reverse([s[n]]) == [s[n]];
  }

  lemma RepeatNothing(ch: char)
    ensures Repeat(ch, 0) == ""
  {
  }
}
