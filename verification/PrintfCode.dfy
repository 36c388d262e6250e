/** `format_integer` as it fills its buffer. */
module PrintfCode {
  import opened Wrappers
  import opened Printf
  import opened PrintfLayout

  /** `*cp++ = ch`. */
  method Put(buf: array<char>, at: nat, ch: char) returns (cp: nat)
    requires at < buf.Length
    modifies buf
    ensures cp == at + 1 && buf[..cp] == old(buf[..at]) + [ch]
  {
    buf[at] := ch;
    cp := at + 1;
  }

  /** Accumulates the digits into the buffer, lowest first. */
  method PutDigits(buf: array<char>, number: nat, b: Base, grouped: bool) returns (cp: nat)
    requires buf.Length == BUF_SIZE && BaseOk(b) && number < B64
    modifies buf
    ensures cp < BUF_SIZE && buf[..cp] == Digits(number, b, grouped, 0)
  {
    hide Digits, LowDigit, Above;
    cp := 0;
    var digitCnt: nat := 0;
    var value: nat := number;
    ghost var digits := Digits(number, b, grouped, 0);
    DigitsFit(number, b, grouped);
    assert buf[..0] + digits == digits;
    while value > 0
      invariant cp <= BUF_SIZE && buf[..cp] + Digits(value, b, grouped, digitCnt) == digits
      decreases value
    {
      DigitsTurn(value, b, grouped, digitCnt);
      if grouped && digitCnt > 0 && digitCnt % b.group == 0 {
        cp := Put(buf, cp, ',');
      }
      cp := Put(buf, cp, LowDigit(value, b));
      value := Above(value, b);
      digitCnt := digitCnt + 1;
    }
    DigitsEnd(b, grouped, digitCnt);
    assert buf[..cp] + "" == buf[..cp];
  }

  /** Appends zeros to match the precision, and octal's leading zero. */
  method PutZeros(buf: array<char>, start: nat, b: Base, c: Conversion) returns (cp: nat)
    requires buf.Length == BUF_SIZE && start < BUF_SIZE
    modifies buf
    ensures cp <= BUF_SIZE && buf[..cp] == Padded(old(buf[..start]), b, c)
  {
    hide Repeat;
    cp := start;
    ghost var digits := buf[..start];
    var precision := if c.precision < 0 then 1 else c.precision;
    ghost var want := if precision < BUF_SIZE - 1 then precision else BUF_SIZE - 1;
    RepeatEnd('0', 0);
    while cp < precision && cp < BUF_SIZE - 1
      invariant start <= cp < BUF_SIZE && (cp == start || cp <= want)
      invariant buf[..cp] == digits + Repeat('0', cp - start)
    {
      RepeatTurn('0', cp - start + 1);
      cp := Put(buf, cp, '0');
    }
    if want <= start { RepeatEnd('0', want - start); }
    if c.pound && b.base == 8 && (cp == 0 || buf[cp - 1] != '0') {
      cp := Put(buf, cp, '0');
    }
  }

  /** Puts out the buffer backwards. */
  method PutOut(buf: array<char>, n: nat) returns (out: string)
    requires n <= buf.Length
    ensures out == Reverse(buf[..n])
  {
    hide Reverse;
    out := "";
    var cp: nat := n;
    ReverseEmpty();
    while cp > 0
      invariant cp <= n && out == Reverse(buf[..n][cp..])
    {
      cp := cp - 1;
      ReverseTurn(buf[..n], cp);
      out := out + [buf[cp]];
    }
    assert buf[..n][0..] == buf[..n];
  }

  /** `format_integer`: every store goes through the bounds of the 64-byte buffer. */
  method FormatInteger(number: nat, isSigned: bool, negative: bool, b: Base, c: Conversion) returns (out: string)
    requires BaseOk(b) && number < B64
    ensures out == Format(number, isSigned, negative, b, c)
    ensures Shows(out, number, isSigned, negative, b, c)
  {
    hide Digits, Repeat, Reverse, Padded, Shows, BaseOk;
    FormatDenotes(number, isSigned, negative, b, c);
    var sign := SignOf(isSigned, negative, c);
    var prefix := PrefixOf(number, b, c);
    var buf := new char[BUF_SIZE];
    var cp := PutDigits(buf, number, b, c.group);
    cp := PutZeros(buf, cp, b, c);
    var pad := c.width - cp - |prefix| - |sign|;
    PadNothing(pad);
    if pad < 0 { pad := 0; }
    var digits := PutOut(buf, cp);
    out := (if !c.minus && !c.zero then Repeat(' ', pad) else "") + sign + prefix
           + (if c.zero then Repeat('0', pad) else "") + digits + (if c.minus then Repeat(' ', pad) else "");
  }

  lemma PadNothing(pad: int)
    ensures forall ch :: Repeat(ch, pad) == Repeat(ch, if pad < 0 then 0 else pad)
  {
  }

  lemma ReverseEmpty()
    ensures Reverse("") == ""
  {
  }

  lemma {:induction false} ReverseTurn(s: string, i: nat)
    requires i < |s|
    ensures Reverse(s[i..]) == Reverse(s[i + 1..]) + [s[i]]
  {
    assert s[i..][1..] == s[i + 1..];
  }
}
