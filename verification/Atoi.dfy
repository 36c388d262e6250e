/** Parsing a decimal integer, and its round trip with `%d`. */
module Atoi {
  import opened Wrappers
  import opened Printf

  predicate IsSpace(c: char) {
    c == ' ' || c == 12 as char || c == '\n' || c == '\r' || c == '\t' || c == 11 as char
  }

  predicate IsDigit(c: char) { '0' <= c <= '9' }

  // ---------------------------------------------------------------- the code, on values

  function SkipSpaces(s: string): string {
    if s != "" && IsSpace(s[0]) then SkipSpaces(s[1..]) else s
  }

  /** The digits at the head of `s`, accumulated as a negative number; `None` if that overflows an `int`. */
  function Accumulate(s: string, value: int): Option<int> {
    if s == "" || !IsDigit(s[0]) then Some(value)
    else
      var next := value * 10 - (s[0] as int - '0' as int);
      if next < INT_MIN then None else Accumulate(s[1..], next)
  }

  /** The value `atoi` returns; `None` where signed arithmetic overflows. */
  function ParseInt(s: string): Option<int> {
    var t := SkipSpaces(s);
    var negative := t != "" && t[0] == '-';
    var digits := if t != "" && (t[0] == '+' || t[0] == '-') then t[1..] else t;
    var v := Accumulate(digits, 0);
    if v.None? || negative then v
    else if v.value == INT_MIN then None
    else Some(-v.value)
  }

  /** `printf ("%d", v)` with the flags, width and precision of `c`. */
  function PrintD(v: int, c: Conversion): string {
    Format(if v < 0 then -v else v, true, v < 0, BaseD(), c)
  }

  // ---------------------------------------------------------------- the source's form

  method ParseString(s: string) returns (r: Option<int>)
    ensures r == ParseInt(s)
  {
    var i := 0;
    assert s[0..] == s;
    while i < |s| && IsSpace(s[i])
      invariant i <= |s| && SkipSpaces(s[i..]) == SkipSpaces(s)
    {
      assert s[i..][1..] == s[i + 1..];
      i := i + 1;
    }
    assert SkipSpaces(s) == s[i..];
    var negative := false;
    ghost var t := s[i..];
    if i < |s| && s[i] == '+' {
      i := i + 1;
    } else if i < |s| && s[i] == '-' {
      negative := true;
      i := i + 1;
    }
    ghost var digits := if t != "" && (t[0] == '+' || t[0] == '-') then t[1..] else t;
    assert s[i..] == digits;
    var value := 0;
    while i < |s| && IsDigit(s[i])
      invariant i <= |s| && Accumulate(s[i..], value) == Accumulate(digits, 0)
    {
      assert s[i..][1..] == s[i + 1..];
      value := value * 10 - (s[i] as int - '0' as int);
      if value < INT_MIN { return None; }
      i := i + 1;
    }
    if negative { return Some(value); }
    if value == INT_MIN { return None; }
    return Some(-value);
  }

  // ---------------------------------------------------------------- what is parsed

  /** The six characters that C counts as white space. */
  ghost predicate AllSpace(s: string) {
    forall i :: 0 <= i < |s| ==> s[i] as int in {9, 10, 11, 12, 13, 32}
  }

  ghost predicate AllDigits(s: string) {
    forall i :: 0 <= i < |s| ==> 48 <= s[i] as int <= 57
  }

  lemma {:induction false} SkipsSpace(ws: string, t: string)
    requires AllSpace(ws) && (t == "" || !IsSpace(t[0]))
    ensures SkipSpaces(ws + t) == t
    decreases |ws|
  {
    if ws == "" {
      assert ws + t == t;
    } else {
      assert (ws + t)[1..] == ws[1..] + t;
      SkipsSpace(ws[1..], t);
    }
  }

  /** A decimal digit counts for its place in the digits of the base. */
  lemma DigitValue(ch: char)
    requires 48 <= ch as int <= 57
    ensures ch != ',' && Index(BaseD().digits, ch) == ch as int - 48 && BaseD().base == 10
  {
    var i := ch as int - 48;
    DigitCharacters(i);
    BasesOk();
    IndexIs(BaseD().digits, i);
  }

  /** The digits are accumulated as a negative number until that is below the least `int`. */
  lemma {:induction false} AccumulatesTo(ds: string, t: string)
    requires AllDigits(ds)
    ensures var n: int := Read(ds, BaseD()); Accumulate(ds + t, 0) == if n > -INT_MIN then None else Accumulate(t, -n)
    decreases |ds|
  {
    hide Index, BaseD;
    if ds == "" {
      assert ds + t == t;
    } else {
      var q, ch := ds[..|ds| - 1], ds[|ds| - 1];
      DigitValue(ch);
      assert ds + t == q + ([ch] + t);
      AccumulatesTo(q, [ch] + t);
      assert ([ch] + t)[1..] == t;
      assert Read(ds, BaseD()) == Read(q, BaseD()) * 10 + (ch as int - 48);
    }
  }

  /** Optional white space, an optional sign and decimal digits, up to the first character that is none of these: the
      result is the number that the digits denote, with that sign, if and only if it is an `int`. */
  lemma ParsesExactly(ws: string, sign: string, ds: string, rest: string)
    requires AllSpace(ws) && sign in {"", "+", "-"} && AllDigits(ds)
    requires rest == "" || !AllDigits(rest[..1])
    requires sign == "" && ds == "" ==> rest == "" || (!AllSpace(rest[..1]) && rest[0] != '+' && rest[0] != '-')
    ensures var n: int := Read(ds, BaseD());
            var v := if sign == "-" then -n else n;
            ParseInt(ws + sign + ds + rest) == if INT_MIN <= v <= INT_MAX then Some(v) else None
  {
    hide Read, BaseD, Accumulate, ParseInt, SkipSpaces;
    var body := ds + rest;
    assert ws + sign + ds + rest == ws + (sign + body);
    assert rest != "" ==> rest[..1] == [rest[0]];
    assert sign == "" && body != "" ==> body[0] == if ds == "" then rest[0] else ds[0];
    SkipsSpace(ws, sign + body);
    AccumulatesTo(ds, rest);
    AccumulateEnds(rest);
    ParsesSigned(ws + (sign + body), sign, body);
  }

  /** Nothing but digits is accumulated. */
  lemma AccumulateEnds(t: string)
    requires t == "" || !IsDigit(t[0])
    ensures forall value :: Accumulate(t, value) == Some(value)
  {
  }

  lemma ParsesSigned(s: string, sign: string, body: string)
    requires sign in {"", "+", "-"} && SkipSpaces(s) == sign + body
    requires sign == "" && body != "" ==> body[0] != '+' && body[0] != '-'
    ensures var v := Accumulate(body, 0);
            ParseInt(s) == if v.None? || sign == "-" then v else if v.value == INT_MIN then None else Some(-v.value)
  {
    hide Accumulate, SkipSpaces;
    assert sign != "" ==> (sign + body)[1..] == body;
    assert sign == "" ==> sign + body == body;
  }

  // ---------------------------------------------------------------- pieces of the output

  lemma {:induction false} SkipPad(n: int, t: string)
    ensures SkipSpaces(Repeat(' ', n) + t) == SkipSpaces(t)
    decreases n
  {
    if n <= 0 {
      assert Repeat(' ', n) + t == t;
    } else {
      var s := Repeat(' ', n) + t;
      assert s[0] == ' ';
      assert s[1..] == Repeat(' ', n - 1) + t by { RepeatFront(' ', n); }
      SkipPad(n - 1, t);
    }
  }

  lemma {:induction false} LeadingZeros(n: int, t: string)
    ensures Accumulate(Repeat('0', n) + t, 0) == Accumulate(t, 0)
    decreases n
  {
    if n <= 0 {
      assert Repeat('0', n) + t == t;
    } else {
      var s := Repeat('0', n) + t;
      RepeatFront('0', n);
      assert s[1..] == Repeat('0', n - 1) + t;
      LeadingZeros(n - 1, t);
    }
  }

  /** A decimal digit is the character of its value. */
  lemma DigitIs(v: nat)
    ensures LowDigit(v, BaseD()) as int == '0' as int + v % 10 && IsDigit(LowDigit(v, BaseD()))
    ensures Above(v, BaseD()) == v / 10
  {
  }

  /** The digits of `v`, highest first. */
  function Shown(v: nat, grouped: bool, cnt: nat): string {
    Reverse(Digits(v, BaseD(), grouped, cnt))
  }

  /** Reading the digits of `v` accumulates `-v`, with no overflow on the way down to `INT_MIN`. */
  lemma {:induction false} ReadDigits(v: int, cnt: nat, t: string)
    requires 0 <= v <= -INT_MIN
    ensures Accumulate(Shown(v, false, cnt) + t, 0) == Accumulate(t, -v)
    decreases v
  {
    if v == 0 {
      assert Shown(v, false, cnt) + t == t;
    } else {
      DigitIs(v);
      var ch := LowDigit(v, BaseD());
      ShownTurn(v, cnt);
      assert Shown(v, false, cnt) + t == Shown(v / 10, false, cnt + 1) + ([ch] + t);
      ReadDigits(v / 10, cnt + 1, [ch] + t);
      ReadOne(v, ch, t);
    }
  }

  lemma ShownTurn(v: nat, cnt: nat)
    requires v > 0
    ensures Shown(v, false, cnt) == Shown(v / 10, false, cnt + 1) + [LowDigit(v, BaseD())]
  {
    DigitIs(v);
    var ch := LowDigit(v, BaseD());
    var rest := Digits(v / 10, BaseD(), false, cnt + 1);
    assert Digits(v, BaseD(), false, cnt) == [ch] + rest;
    ReverseConcat([ch], rest);
    assert Reverse([ch]) == [ch];
  }

  lemma ReadOne(v: int, ch: char, t: string)
    requires 0 <= v <= -INT_MIN && ch as int == '0' as int + v % 10 && IsDigit(ch)
    ensures Accumulate([ch] + t, -(v / 10)) == Accumulate(t, -v)
  {
    assert ([ch] + t)[1..] == t;
  }

  // ---------------------------------------------------------------- grouping

  function Pow10(k: nat): nat {
    if k == 0 then 1 else 10 * Pow10(k - 1)
  }

  /** Up to three digits there is no comma. */
  lemma {:induction false} NoComma(v: nat, cnt: nat)
    requires cnt <= 3 && v < Pow10(3 - cnt)
    ensures Digits(v, BaseD(), true, cnt) == Digits(v, BaseD(), false, cnt)
    decreases v
  {
    if v > 0 {
      DigitIs(v);
      NoComma(v / 10, cnt + 1);
    }
  }

  /** Whether a comma is due depends on the count modulo three only. */
  lemma {:induction false} SamePhase(v: nat, cnt: nat)
    requires cnt > 0
    ensures Digits(v, BaseD(), true, cnt + 3) == Digits(v, BaseD(), true, cnt)
    decreases v
  {
    if v > 0 {
      DigitIs(v);
      assert (cnt + 3) % 3 == cnt % 3;
      SamePhase(v / 10, cnt + 1);
    }
  }

  /** The next digit of the first group. */
  lemma FirstGroup(v: nat, cnt: nat)
    requires v >= 10 && cnt < 3
    ensures Digits(v, BaseD(), true, cnt) == [LowDigit(v, BaseD())] + Digits(v / 10, BaseD(), true, cnt + 1)
  {
    DigitIs(v);
    DigitsTurn(v, BaseD(), true, cnt);
    hide Digits;
    assert "" + [LowDigit(v, BaseD())] == [LowDigit(v, BaseD())];
  }

  lemma GroupedDigits(v: nat, d0: char, d1: char, d2: char)
    requires v >= 1000
    requires d0 == LowDigit(v, BaseD()) && d1 == LowDigit(v / 10, BaseD()) && d2 == LowDigit(v / 100, BaseD())
    ensures Digits(v, BaseD(), true, 0) == ([d0, d1, d2] + ",") + Digits(v / 1000, BaseD(), true, 0)
  {
    BasesOk();
    hide Digits, LowDigit, BaseD, BaseOk;
    FirstGroup(v, 0);
    FirstGroup(v / 10, 1);
    FirstGroup(v / 100, 2);
    GroupHead(v / 1000);
    assert v / 10 / 10 == v / 100 && v / 100 / 10 == v / 1000;
  }

  /** From a thousand on: the digits of the thousands, a comma, and the last three. */
  lemma GroupedShown(v: nat)
    requires v >= 1000
    ensures exists last :: Shown(v, true, 0) == Shown(v / 1000, true, 0) + "," + last
  {
    BasesOk();
    hide Digits, LowDigit, BaseD, BaseOk;
    var d0, d1, d2 := LowDigit(v, BaseD()), LowDigit(v / 10, BaseD()), LowDigit(v / 100, BaseD());
    var high := Digits(v / 1000, BaseD(), true, 0);
    GroupedDigits(v, d0, d1, d2);
    ReverseConcat([d0, d1, d2] + ",", high);
    ReverseConcat([d0, d1, d2], ",");
    assert Reverse(",") == ",";
    assert Shown(v, true, 0) == Shown(v / 1000, true, 0) + "," + Reverse([d0, d1, d2]);
  }

  lemma GroupHead(w: nat)
    requires w > 0
    ensures Digits(w, BaseD(), true, 3) == "," + Digits(w, BaseD(), true, 0)
  {
    DigitIs(w);
    SamePhase(w / 10, 1);
  }

  /** Reading a grouped number stops at its first comma, short of the value. */
  lemma {:induction false} ReadGrouped(v: int, t: string) returns (lead: int)
    requires 1000 <= v <= -INT_MIN
    ensures 0 <= lead < v && Accumulate(Shown(v, true, 0) + t, 0) == Some(-lead)
    decreases v
  {
    GroupedShown(v);
    var last :| Shown(v, true, 0) == Shown(v / 1000, true, 0) + "," + last;
    var w := v / 1000;
    var rest := "," + last + t;
    assert Shown(v, true, 0) + t == Shown(w, true, 0) + rest;
    if w < 1000 {
      NoComma(w, 0);
      ReadDigits(w, 0, rest);
      lead := w;
    } else {
      lead := ReadGrouped(w, rest);
    }
  }

  // ---------------------------------------------------------------- the round trip

  /** The output of `%d` behind its sign: zeros, digits, trailing spaces. */
  lemma BodyIs(v: nat, c: Conversion)
    ensures exists zeros: int :: Reverse(Padded(Digits(v, BaseD(), c.group, 0), BaseD(), c))
                                 == Repeat('0', zeros) + Shown(v, c.group, 0)
  {
    var digits := Digits(v, BaseD(), c.group, 0);
    var precision := if c.precision < 0 then 1 else c.precision;
    var want := if precision < BUF_SIZE - 1 then precision else BUF_SIZE - 1;
    assert Padded(digits, BaseD(), c) == digits + Repeat('0', want - |digits|);
    ReverseConcat(digits, Repeat('0', want - |digits|));
    ReverseRepeat('0', want - |digits|);
    assert Reverse(Padded(digits, BaseD(), c)) == Repeat('0', want - |digits|) + Shown(v, c.group, 0);
  }

  /** What reading the whole body gives: `-v`, or less when a comma stops the reading. */
  lemma ReadBody(v: int, c: Conversion, zeros1: int, zeros2: int, spaces: int) returns (got: int)
    requires 0 <= v <= -INT_MIN
    ensures Accumulate(Repeat('0', zeros1) + (Repeat('0', zeros2) + Shown(v, c.group, 0)) + Repeat(' ', spaces), 0)
            == Some(-got)
    ensures 0 <= got <= v && (got == v <==> !(c.group && v >= 1000))
  {
    hide Digits, Reverse, Shown, Accumulate, Repeat;
    var tail := Repeat(' ', spaces);
    var digits := Shown(v, c.group, 0) + tail;
    assert Repeat('0', zeros1) + (Repeat('0', zeros2) + Shown(v, c.group, 0)) + tail
           == Repeat('0', zeros1) + (Repeat('0', zeros2) + digits);
    LeadingZeros(zeros1, Repeat('0', zeros2) + digits);
    LeadingZeros(zeros2, digits);
    if c.group && v >= 1000 {
      got := ReadGrouped(v, tail);
    } else {
      got := v;
      if c.group { SameShown(v); }
      ReadDigits(v, 0, tail);
      SpacesEnd(spaces, -v);
    }
  }

  lemma SameShown(v: nat)
    requires v < 1000
    ensures Shown(v, true, 0) == Shown(v, false, 0)
  {
    NoComma(v, 0);
  }

  lemma SpacesEnd(n: int, value: int)
    ensures Accumulate(Repeat(' ', n), value) == Some(value)
  {
  }

  /** What follows the sign: the accumulated digits, negated without a minus sign. */
  lemma ReadRest(t: string, got: int)
    requires t == "" || IsDigit(t[0])
    requires 0 <= got <= INT_MAX && Accumulate(t, 0) == Some(-got)
    ensures SkipSpaces(t) == t && ParseInt(t) == Some(got)
  {
  }

  /** A sign in front of digits. */
  lemma ReadSign(sign: string, body: string, got: int)
    requires sign == "+" || sign == "-"
    requires 0 <= got && Accumulate(body, 0) == Some(-got) && (sign == "+" ==> got <= INT_MAX)
    ensures ParseInt(sign + body) == Some(if sign == "-" then -got else got)
    ensures SkipSpaces(sign + body) == sign + body
  {
    assert (sign + body)[1..] == body;
  }

  /** Leading spaces do not change what is parsed. */
  lemma SkipParse(s: string, t: string)
    requires SkipSpaces(s) == SkipSpaces(t) == t
    ensures ParseInt(s) == ParseInt(t)
  {
  }

  /** Spaces and a sign in front of a body that starts with a digit, or is blank. */
  lemma ReadSigned(spaces: int, sign: string, body: string, got: int)
    requires sign == "" || sign == "+" || sign == "-" || sign == " "
    requires body == "" || IsDigit(body[0]) || (got == 0 && sign != "-" && Blank(body))
    requires 0 <= got && Accumulate(body, 0) == Some(-got) && (sign != "-" ==> got <= INT_MAX)
    ensures ParseInt(Repeat(' ', spaces) + sign + body) == Some(if sign == "-" then -got else got)
  {
    hide ParseInt, Accumulate, IsDigit;
    var s := Repeat(' ', spaces) + sign + body;
    assert s == Repeat(' ', spaces) + (sign + body);
    SkipPad(spaces, sign + body);
    hide Repeat;
    if sign == "+" || sign == "-" {
      ReadSign(sign, body, got);
      SkipParse(s, sign + body);
    } else {
      assert SkipSpaces(sign + body) == SkipSpaces(body) by {
        if sign == "" { assert sign + body == body; } else { assert (sign + body)[1..] == body; }
      }
      if body == "" || IsDigit(body[0]) {
        ReadRest(body, got);
        SkipParse(s, body);
      } else {
        BlankSkips(body);
        EmptyParses();
        SkipParse(s, "");
      }
    }
  }

  lemma EmptyParses()
    ensures ParseInt("") == Some(0) && SkipSpaces("") == ""
  {
  }

  ghost predicate Blank(s: string) {
    forall i :: 0 <= i < |s| ==> s[i] == ' '
  }

  lemma {:induction false} BlankSkips(s: string)
    requires Blank(s)
    ensures SkipSpaces(s) == ""
    decreases |s|
  {
    if s != "" { BlankSkips(s[1..]); }
  }

  /** The body is blank or starts with a digit. */
  lemma BodyStarts(v: nat, grouped: bool, zeros1: int, zeros2: int, spaces: int)
    ensures var body := Repeat('0', zeros1) + (Repeat('0', zeros2) + Shown(v, grouped, 0)) + Repeat(' ', spaces);
            body == "" || IsDigit(body[0]) || (v == 0 && Blank(body))
  {
    if v > 0 { ShownStarts(v, grouped, 0); }
  }

  lemma {:induction false} ShownStarts(v: nat, grouped: bool, cnt: nat)
    requires v > 0
    ensures Shown(v, grouped, cnt) != "" && IsDigit(Shown(v, grouped, cnt)[0])
    decreases v
  {
    DigitIs(v);
    var ch := LowDigit(v, BaseD());
    var head := (if grouped && cnt > 0 && cnt % 3 == 0 then "," else "") + [ch];
    var rest := Digits(v / 10, BaseD(), grouped, cnt + 1);
    assert Digits(v, BaseD(), grouped, cnt) == head + rest;
    ReverseConcat(head, rest);
    if v / 10 > 0 {
      ShownStarts(v / 10, grouped, cnt + 1);
    } else {
      assert rest == "";
      assert Reverse(head)[0] == ch by { LastFirst(head); }
    }
  }

  lemma Regroup(pad: string, sign: string, prefix: string, zeros: string, digits: string, tail: string)
    requires prefix == ""
    ensures pad + sign + prefix + zeros + digits + tail == pad + sign + (zeros + digits + tail)
  {
  }

  /** `%d` has no prefix, so its output is padding, sign, zeros, digits, padding. */
  lemma Parts(v: int, c: Conversion)
    ensures var a := if v < 0 then -v else v;
            var sign := SignOf(true, v < 0, c);
            var buf := Padded(Digits(a, BaseD(), c.group, 0), BaseD(), c);
            var pad := c.width - |buf| - |sign|;
            PrintD(v, c) == (if !c.minus && !c.zero then Repeat(' ', pad) else "") + sign
                            + ((if c.zero then Repeat('0', pad) else "") + Reverse(buf)
                               + (if c.minus then Repeat(' ', pad) else ""))
  {
    hide Digits, Reverse, Repeat, Padded, SignOf;
    var a := if v < 0 then -v else v;
    var sign := SignOf(true, v < 0, c);
    var buf := Padded(Digits(a, BaseD(), c.group, 0), BaseD(), c);
    var pad := c.width - |buf| - |sign|;
    assert PrefixOf(a, BaseD(), c) == "";
    Regroup(if !c.minus && !c.zero then Repeat(' ', pad) else "", sign, PrefixOf(a, BaseD(), c),
            if c.zero then Repeat('0', pad) else "", Reverse(buf), if c.minus then Repeat(' ', pad) else "");
  }

  /** What `%d` prints: spaces, sign, zeros, digits, spaces. */
  lemma Shape(v: int, c: Conversion) returns (before: int, between: int, zeros: int, after: int)
    ensures var a := if v < 0 then -v else v;
            PrintD(v, c) == Repeat(' ', before) + SignOf(true, v < 0, c)
                            + (Repeat('0', between) + (Repeat('0', zeros) + Shown(a, c.group, 0)) + Repeat(' ', after))
  {
    hide PrintD, Digits, Reverse, Shown, Repeat, Padded, SignOf;
    var a := if v < 0 then -v else v;
    BodyIs(a, c);
    Parts(v, c);
    var buf := Padded(Digits(a, BaseD(), c.group, 0), BaseD(), c);
    zeros :| Reverse(buf) == Repeat('0', zeros) + Shown(a, c.group, 0);
    var pad := c.width - |buf| - |SignOf(true, v < 0, c)|;
    before := if !c.minus && !c.zero then pad else 0;
    between := if c.zero then pad else 0;
    after := if c.minus then pad else 0;
    RepeatNothing(' ');
    RepeatNothing('0');
  }

  /** For every `int` and every choice of flags, width and precision: what `%d` prints parses back to the same
      number, without overflow, if and only if no thousands separator was printed. */
  lemma RoundTrip(v: int, c: Conversion)
    requires INT_MIN <= v <= INT_MAX
    ensures ParseInt(PrintD(v, c)) == Some(v) <==> !(c.group && (v <= -1000 || v >= 1000))
  {
    hide PrintD, Shown, Accumulate, Repeat, ParseInt, IsDigit, Blank;
    var a := if v < 0 then -v else v;
    var before, between, zeros, after := Shape(v, c);
    var body := Repeat('0', between) + (Repeat('0', zeros) + Shown(a, c.group, 0)) + Repeat(' ', after);
    var got := ReadBody(a, c, between, zeros, after);
    BodyStarts(a, c.group, between, zeros, after);
    ReadSigned(before, SignOf(true, v < 0, c), body, got);
  }
}
