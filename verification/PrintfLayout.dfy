/** What an integer conversion puts out, character by character. */
module PrintfLayout {
  import opened Wrappers
  import opened Printf

  /** Spaces, sign, prefix, zeros that pad the field, zeros ahead of the digits, digits, spaces. */
  datatype Layout = Layout(left: nat, sign: string, prefix: string, fill: nat, lead: nat, digits: string, right: nat)

  function Text(l: Layout): string {
    Repeat(' ', l.left) + l.sign + l.prefix + Repeat('0', l.fill) + Repeat('0', l.lead) + l.digits
    + Repeat(' ', l.right)
  }

  /** A minus sign for negative values of signed conversions; for others a plus if asked for, or else a space. */
  ghost predicate SignOk(sign: string, isSigned: bool, negative: bool, c: Conversion) {
    && sign in {"", "-", "+", " "}
    && (sign == "-" <==> isSigned && negative)
    && (sign == "+" <==> isSigned && !negative && c.plus)
    && (sign == " " <==> isSigned && !negative && c.space && !c.plus)
  }

  /** `0x` or `0X` for a nonzero value, if asked for and the base has it. */
  ghost predicate PrefixOk(prefix: string, value: nat, b: Base, c: Conversion) {
    if c.pound && b.x.Some? && value > 0 then prefix == ['0', b.x.value] else prefix == ""
  }

  /** The digits of the base that denote the value, without leading zeros; if asked for, separators between groups of
      the base's size, counted from the right. */
  ghost predicate DigitsOk(digits: string, value: nat, b: Base, c: Conversion)
    requires BaseOk(b)
  {
    && Numeral(digits, b, c.group) && Read(digits, b) == value
    && (digits == "" <==> value == 0)
    && (value > 0 ==> digits[0] != '0' && digits[0] != ',')
    && forall i :: 0 <= i < |digits| ==> (digits[i] == ',' <==> c.group && (|digits| - i) % (b.group + 1) == 0)
  }

  /** As few zeros ahead of the digits as make up the precision, which is 1 if none was given and at most 63, and, for
      octal with `#`, make the first character a zero. */
  ghost predicate LeadOk(lead: nat, count: nat, b: Base, c: Conversion) {
    var want := if c.precision < 0 then 1 else if c.precision > 63 then 63 else c.precision;
    var octal := c.pound && b.base == 8;
    && lead + count >= want && (octal ==> lead >= 1)
    && (lead > 0 ==> lead + count == want || (octal && lead == 1))
  }

  /** The field is filled up to the width on one side: with spaces on the right, with zeros behind the sign, or with
      spaces on the left; given both flags, with zeros and again with spaces on the right. */
  ghost predicate PadOk(l: Layout, c: Conversion) {
    var bare := |l.sign| + |l.prefix| + l.lead + |l.digits|;
    && (l.left > 0 ==> !c.minus && !c.zero) && (l.fill > 0 ==> c.zero) && (l.right > 0 ==> c.minus)
    && (if c.minus && c.zero then l.fill == l.right else true)
    && l.left + l.fill + (if c.zero then 0 else l.right) == if c.width > bare then c.width - bare else 0
  }

  ghost predicate Shows(out: string, value: nat, isSigned: bool, negative: bool, b: Base, c: Conversion)
    requires BaseOk(b)
  {
    exists l: Layout ::
      && out == Text(l) && SignOk(l.sign, isSigned, negative, c) && PrefixOk(l.prefix, value, b, c)
      && DigitsOk(l.digits, value, b, c) && LeadOk(l.lead, |l.digits|, b, c) && PadOk(l, c)
  }

  // ---------------------------------------------------------------- the digits

  /** The highest digit, which comes last, is neither a zero nor a separator. */
  lemma {:induction false} DigitsTop(value: nat, b: Base, grouped: bool, cnt: nat)
    requires BaseOk(b) && value > 0
    ensures var s := Digits(value, b, grouped, cnt); s != "" && s[|s| - 1] != '0' && s[|s| - 1] != ','
    decreases value
  {
    var rest := Digits(Above(value, b), b, grouped, cnt + 1);
    DigitsTurn(value, b, grouped, cnt);
    DigitIs(b, value % b.base);
    if Above(value, b) > 0 {
      hide Digits, LowDigit;
      DigitsTop(Above(value, b), b, grouped, cnt + 1);
    } else {
      Division(value, b.base);
      AscendingLess(b.digits, 0, value % b.base);
    }
  }

  /** How many digits there are since the last separator, or the start, `cnt` digits having been produced. */
  function Since(cnt: nat, group: nat): nat
    requires group >= 1
  {
    if cnt == 0 then 0 else (cnt - 1) % group + 1
  }

  lemma ModNext(n: nat, g: nat)
    requires g >= 1
    ensures (n + 1) % g == if n % g == g - 1 then 0 else n % g + 1
  {
    var q, r := n / g, n % g;
    assert n == q * g + r;
    if r == g - 1 { ModOf(q + 1, 0, g, n + 1); } else { ModOf(q, r + 1, g, n + 1); }
  }

  lemma ModOf(q: nat, r: nat, g: nat, n: nat)
    requires g >= 1 && r < g && n == q * g + r
    ensures n % g == r
  {
    var q', r' := n / g, n % g;
    assert n == q' * g + r';
    if q' > q { MulMono(q + 1, q', g, g); }
    if q' < q { MulMono(q' + 1, q, g, g); }
  }

  lemma SinceNext(cnt: nat, group: nat)
    requires group >= 1
    ensures Since(cnt + 1, group) == if Since(cnt, group) == group then 1 else Since(cnt, group) + 1
    ensures Since(cnt, group) <= group && (Since(cnt, group) == group <==> cnt > 0 && cnt % group == 0)
  {
    if cnt > 0 { ModNext(cnt - 1, group); }
  }

  lemma ModWrap(x: nat, m: nat)
    requires m >= 2
    ensures (x + m) % m == x % m && m % m == 0 && (m + 1) % m == 1 && (x < m ==> x % m == x)
  {
    ModOf(x / m + 1, x % m, m, x + m);
    ModOf(1, 1, m, m + 1);
  }

  /** From the lowest digit up, a separator follows every full group, and nothing else is one. */
  lemma {:induction false} SeparatorsExact(value: nat, b: Base, grouped: bool, cnt: nat, i: nat)
    requires BaseOk(b) && i < |Digits(value, b, grouped, cnt)|
    ensures Digits(value, b, grouped, cnt)[i] == ',' <==>
              grouped && (Since(cnt, b.group) + i + 1) % (b.group + 1) == 0
    decreases value
  {
    var g, low := b.group, LowDigit(value, b);
    var rest := Digits(Above(value, b), b, grouped, cnt + 1);
    DigitsTurn(value, b, grouped, cnt);
    DigitIs(b, value % b.base);
    SinceNext(cnt, g);
    var first := if grouped && Since(cnt, g) == g then 1 else 0;
    hide Digits, Since, BaseOk, LowDigit, Above;
    if i > first { SeparatorsExact(Above(value, b), b, grouped, cnt + 1, i - first - 1); }
    SeparatorTurn(Since(cnt, g), Since(cnt + 1, g), i, g);
  }

  lemma SeparatorTurn(since: nat, next: nat, i: nat, g: nat)
    requires g >= 1 && since <= g && next == if since == g then 1 else since + 1
    ensures since == g ==> (since + 0 + 1) % (g + 1) == 0 && (since + 1 + 1) % (g + 1) != 0
    ensures since == g && i >= 2 ==> (since + i + 1) % (g + 1) == (next + (i - 2) + 1) % (g + 1)
    ensures since < g ==> (since + 0 + 1) % (g + 1) != 0
    ensures since < g && i >= 1 ==> since + i + 1 == next + (i - 1) + 1
  {
    ModWrap(i, g + 1);
    ModWrap(since + 1, g + 1);
  }

  lemma ReverseAt(s: string, i: nat)
    requires i < |s|
    ensures Reverse(s)[i] == s[|s| - 1 - i]
  {
    var n := |s| - 1 - i;
    assert s == s[..n + 1] + s[n + 1..];
    ReverseConcat(s[..n + 1], s[n + 1..]);
    LastFirst(s[..n + 1]);
  }

  lemma ShownSeparators(value: nat, b: Base, grouped: bool, i: nat)
    requires BaseOk(b) && i < |Digits(value, b, grouped, 0)|
    ensures var s := Digits(value, b, grouped, 0);
            Reverse(s)[i] == ',' <==> grouped && (|s| - i) % (b.group + 1) == 0
  {
    hide Digits, Reverse;
    var s := Digits(value, b, grouped, 0);
    ReverseAt(s, i);
    SeparatorsExact(value, b, grouped, 0, |s| - 1 - i);
  }

  lemma ShownTop(value: nat, b: Base, grouped: bool)
    requires BaseOk(b)
    ensures var r := Reverse(Digits(value, b, grouped, 0));
            if value == 0 then r == "" else r != "" && r[0] != '0' && r[0] != ','
  {
    hide Digits, Reverse;
    if value > 0 {
      DigitsTop(value, b, grouped, 0);
      ReverseAt(Digits(value, b, grouped, 0), 0);
    } else {
      DigitsEnd(b, grouped, 0);
    }
  }

  /** Reversed, the digits in the buffer are the digits of the value. */
  lemma ShownDigits(value: nat, b: Base, c: Conversion)
    requires BaseOk(b)
    ensures DigitsOk(Reverse(Digits(value, b, c.group, 0)), value, b, c)
  {
    var s := Digits(value, b, c.group, 0);
    hide Digits, Reverse, Read, LowFirst, Numeral, Ascending, BaseOk;
    DigitsValue(value, b, c.group, 0);
    ReadReverse(s, b);
    DigitsNumeral(value, b, c.group, 0);
    ReverseNumeral(s, b, c.group);
    ShownTop(value, b, c.group);
    forall i | 0 <= i < |s| ensures Reverse(s)[i] == ',' <==> c.group && (|s| - i) % (b.group + 1) == 0 {
      ShownSeparators(value, b, c.group, i);
    }
  }

  // ---------------------------------------------------------------- the zeros ahead of them

  /** The buffer holds the digits and then the zeros. */
  lemma PaddedIs(digits: string, b: Base, c: Conversion) returns (lead: nat)
    requires digits != "" ==> digits[|digits| - 1] != '0'
    ensures Padded(digits, b, c) == digits + Repeat('0', lead) && LeadOk(lead, |digits|, b, c)
  {
    var precision := if c.precision < 0 then 1 else c.precision;
    var want := if precision < BUF_SIZE - 1 then precision else BUF_SIZE - 1;
    var n := want - |digits|;
    lead := if n > 0 then n else 0;
    if n <= 0 {
      RepeatEnd('0', n);
      RepeatNothing('0');
      if c.pound && b.base == 8 {
        RepeatTurn('0', 1);
        assert digits + "" == digits;
        lead := 1;
      }
    }
  }

  // ---------------------------------------------------------------- the whole output

  lemma SignIs(isSigned: bool, negative: bool, c: Conversion)
    ensures SignOk(SignOf(isSigned, negative, c), isSigned, negative, c)
  {
  }

  lemma PrefixIs(value: nat, b: Base, c: Conversion)
    ensures PrefixOk(PrefixOf(value, b, c), value, b, c)
  {
  }

  /** The layout of the output. */
  lemma FormatLayout(value: nat, isSigned: bool, negative: bool, b: Base, c: Conversion) returns (l: Layout)
    requires BaseOk(b)
    ensures Format(value, isSigned, negative, b, c) == Text(l)
    ensures SignOk(l.sign, isSigned, negative, c) && PrefixOk(l.prefix, value, b, c)
    ensures DigitsOk(l.digits, value, b, c) && LeadOk(l.lead, |l.digits|, b, c) && PadOk(l, c)
    ensures l.sign == SignOf(isSigned, negative, c) && l.prefix == PrefixOf(value, b, c)
    ensures l.lead + |l.digits| == |Padded(Digits(value, b, c.group, 0), b, c)|
  {
    hide *;
    var sign, prefix, digits := SignOf(isSigned, negative, c), PrefixOf(value, b, c), Digits(value, b, c.group, 0);
    SignIs(isSigned, negative, c);
    PrefixIs(value, b, c);
    ShownDigits(value, b, c);
    TopNotZero(value, b, c.group);
    var lead := PaddedIs(digits, b, c);
    var pad := c.width - |digits| - lead - |prefix| - |sign|;
    var room: nat := if pad > 0 then pad else 0;
    l := Layout(if !c.minus && !c.zero then room else 0, sign, prefix, if c.zero then room else 0, lead,
                Reverse(digits), if c.minus then room else 0);
    PadIs(l, c, room);
    FormatText(value, isSigned, negative, b, c, lead, l);
  }

  lemma TopNotZero(value: nat, b: Base, grouped: bool)
    requires BaseOk(b)
    ensures var s := Digits(value, b, grouped, 0); s != "" ==> s[|s| - 1] != '0'
  {
    hide Digits;
    if value > 0 { DigitsTop(value, b, grouped, 0); } else { DigitsEnd(b, grouped, 0); }
  }

  lemma PadIs(l: Layout, c: Conversion, room: nat)
    requires var pad := c.width - |l.sign| - |l.prefix| - l.lead - |l.digits|; room == if pad > 0 then pad else 0
    requires l.left == (if !c.minus && !c.zero then room else 0)
    requires l.fill == (if c.zero then room else 0) && l.right == (if c.minus then room else 0)
    ensures PadOk(l, c)
  {
  }

  lemma FormatText(value: nat, isSigned: bool, negative: bool, b: Base, c: Conversion, lead: nat, l: Layout)
    requires BaseOk(b) && Padded(Digits(value, b, c.group, 0), b, c) == Digits(value, b, c.group, 0) + Repeat('0', lead)
    requires l.sign == SignOf(isSigned, negative, c) && l.prefix == PrefixOf(value, b, c) && l.lead == lead
    requires l.digits == Reverse(Digits(value, b, c.group, 0))
    requires var pad := c.width - |l.digits| - lead - |l.prefix| - |l.sign|;
             var room := if pad > 0 then pad else 0;
             && l.left == (if !c.minus && !c.zero then room else 0)
             && l.fill == (if c.zero then room else 0) && l.right == (if c.minus then room else 0)
    ensures Format(value, isSigned, negative, b, c) == Text(l)
  {
    hide Digits, Padded, Reverse, Repeat, SignOf, PrefixOf, BaseOk;
    var digits := Digits(value, b, c.group, 0);
    var pad := c.width - |l.digits| - lead - |l.prefix| - |l.sign|;
    var body := Repeat('0', lead) + l.digits;
    assert Reverse(digits + Repeat('0', lead)) == body by {
      ReverseConcat(digits, Repeat('0', lead));
      ReverseRepeat('0', lead);
    }
    var left := if !c.minus && !c.zero then Repeat(' ', pad) else "";
    var fill := if c.zero then Repeat('0', pad) else "";
    var right := if c.minus then Repeat(' ', pad) else "";
    assert Format(value, isSigned, negative, b, c) == left + l.sign + l.prefix + fill + body + right;
    hide Format;
    RoomIs(' ', pad, !c.minus && !c.zero, l.left);
    RoomIs('0', pad, c.zero, l.fill);
    RoomIs(' ', pad, c.minus, l.right);
    Joined(left + l.sign + l.prefix + fill, Repeat('0', lead), l.digits, right);
  }

  lemma RoomIs(ch: char, pad: int, on: bool, room: nat)
    requires room == if on && pad > 0 then pad else 0
    ensures (if on then Repeat(ch, pad) else "") == Repeat(ch, room)
  {
  }

  lemma Joined(a: string, z: string, body: string, t: string)
    ensures a + (z + body) + t == a + z + body + t
  {
  }

  /** In every base and for all flags, width and precision. */
  lemma FormatDenotes(value: nat, isSigned: bool, negative: bool, b: Base, c: Conversion)
    requires BaseOk(b)
    ensures Shows(Format(value, isSigned, negative, b, c), value, isSigned, negative, b, c)
  {
    hide Format, Text, SignOk, PrefixOk, DigitsOk, LeadOk, PadOk, BaseOk;
    var l := FormatLayout(value, isSigned, negative, b, c);
  }

  /** The output is as long as the width asks for, and no longer than without a width if that is longer, unless the
      field is padded twice. */
  lemma WidthExactly(value: nat, isSigned: bool, negative: bool, b: Base, c: Conversion)
    requires BaseOk(b)
    ensures var plain := |Format(value, isSigned, negative, b, c.(width := 0))|;
            (|Format(value, isSigned, negative, b, c)| == if c.width > plain then c.width else plain) <==>
              !(c.minus && c.zero && c.width > plain)
  {
    hide Format, Repeat, SignOk, PrefixOk, DigitsOk, LeadOk, BaseOk, Padded, Digits, SignOf, PrefixOf;
    var l := FormatLayout(value, isSigned, negative, b, c);
    var l0 := FormatLayout(value, isSigned, negative, b, c.(width := 0));
    SamePadded(Digits(value, b, c.group, 0), b, c);
    SameSign(value, isSigned, negative, b, c);
  }

  lemma SamePadded(digits: string, b: Base, c: Conversion)
    ensures Padded(digits, b, c.(width := 0)) == Padded(digits, b, c)
  {
  }

  lemma SameSign(value: nat, isSigned: bool, negative: bool, b: Base, c: Conversion)
    ensures SignOf(isSigned, negative, c.(width := 0)) == SignOf(isSigned, negative, c)
    ensures PrefixOf(value, b, c.(width := 0)) == PrefixOf(value, b, c)
  {
  }

  /** Both flags are set for `%0*d` when the width that is passed is negative: then the field is padded twice. */
  lemma PaddedTwice()
    ensures var c := Conversion(true, false, false, false, true, false, 3, -1);
            Format(7, true, false, BaseD(), c) == "007  "
  {
    var c := Conversion(true, false, false, false, true, false, 3, -1);
    BasesOk();
    hide Ascending, Repeat;
    assert Digits(7, BaseD(), false, 0) == "7" by { DigitsEnd(BaseD(), false, 1); }
    RepeatNothing('0');
    RepeatNothing(' ');
    assert Padded("7", BaseD(), c) == "7";
    assert Reverse("7") == "7";
    RepeatTurn('0', 1);
    RepeatTurn('0', 2);
    RepeatTurn(' ', 1);
    RepeatTurn(' ', 2);
  }
}
