/** Numbers as the C library prints and reads them. */
module Text {
  import opened Common

  type Byte = b: int | 0 <= b < 256

  predicate IsDigit(c: char) { '0' <= c <= '9' }

  function DigitValue(c: char): (d: nat)
    requires IsDigit(c)
    ensures d < 10
  {
    (c - '0') as nat
  }

  /** `%u` and, for what is never negative, `%d`. */
  function Decimal(n: nat): (s: string)
    ensures s != "" && forall i | 0 <= i < |s| :: IsDigit(s[i])
  {
    var last := ['0' + (n % 10) as char];
    if n < 10 then last else Decimal(n / 10) + last
  }

  function DecimalValue(s: string): nat
    requires forall i | 0 <= i < |s| :: IsDigit(s[i])
  {
    if s == "" then 0 else 10 * DecimalValue(s[..|s| - 1]) + DigitValue(s[|s| - 1])
  }

  lemma {:induction false} DecimalReadsBack(n: nat)
    ensures DecimalValue(Decimal(n)) == n
  {
    var s := Decimal(n);
    if n < 10 {
      assert s[..|s| - 1] == "";
    } else {
      DecimalReadsBack(n / 10);
      assert s[..|s| - 1] == Decimal(n / 10);
    }
  }

  /** A number as people write it: digits only, and no zero in front of another digit. */
  predicate Numeral(s: string, n: nat) {
    && s != "" && (forall i | 0 <= i < |s| :: IsDigit(s[i]))
    && DecimalValue(s) == n
    && (|s| > 1 ==> s[0] != '0')
  }

  /** Each digit by its place in the list of digits. */
  lemma {:induction false} DigitsInOrder(d: nat)
    requires d < 10
    ensures Decimal(d) == ["0123456789"[d]] && DecimalValue(["0123456789"[d]]) == d
  {
    DecimalReadsBack(d);
  }

  lemma {:induction false} DecimalHasNoLeadingZero(n: nat)
    ensures Decimal(n)[0] == '0' ==> n == 0
  {
    if n >= 10 {
      DecimalHasNoLeadingZero(n / 10);
    }
  }

  /** `Decimal` gives the one numeral of a number. */
  lemma {:induction false} OnlyNumeral(s: string, n: nat)
    ensures Numeral(s, n) <==> s == Decimal(n)
    decreases |s|
  {
    DecimalReadsBack(n);
    DecimalHasNoLeadingZero(n);
    if Numeral(s, n) {
      var front, last := s[..|s| - 1], s[|s| - 1];
      assert s == front + [last];
      if front == "" {
        assert DecimalValue(front) == 0;
      } else {
        assert n == 10 * DecimalValue(front) + DigitValue(last);
        assert forall i | 0 <= i < |front| :: front[i] == s[i];
        OnlyNumeral(front, n / 10);
        DigitsInOrder(0);
      }
    } else {
      assert n < 10 ==> |Decimal(n)| == 1;
    }
  }

  function HexDigit(d: nat): char
    requires d < 16
  {
    if d < 10 then '0' + d as char else 'a' + (d - 10) as char
  }

  predicate IsHexDigit(c: char) {
    IsDigit(c) || 'a' <= c <= 'f' || 'A' <= c <= 'F'
  }

  function HexValue(c: char): (d: nat)
    requires IsHexDigit(c)
    ensures d < 16
  {
    if IsDigit(c) then (c - '0') as nat
    else if 'a' <= c <= 'f' then 10 + (c - 'a') as nat
    else 10 + (c - 'A') as nat
  }

  /** Each hexadecimal digit, in either case, by its place in the list of digits. */
  lemma {:induction false} HexDigitsInOrder(d: nat)
    requires d < 16
    ensures HexDigit(d) == "0123456789abcdef"[d]
    ensures IsHexDigit("0123456789abcdef"[d]) && HexValue("0123456789abcdef"[d]) == d
    ensures IsHexDigit("0123456789ABCDEF"[d]) && HexValue("0123456789ABCDEF"[d]) == d
  {
  }

  /** There are no other hexadecimal digits. */
  lemma {:induction false} HexDigitsAreListed(c: char)
    ensures IsHexDigit(c) <==> exists d | 0 <= d < 16 :: c == "0123456789abcdef"[d] || c == "0123456789ABCDEF"[d]
  {
    if IsHexDigit(c) {
      HexDigitsInOrder(HexValue(c));
      assert c == "0123456789abcdef"[HexValue(c)] || c == "0123456789ABCDEF"[HexValue(c)];
    }
  }

  /** `%0<width>x` of a number that fits in `width` digits. */
  function Hex(n: nat, width: nat): (s: string)
    ensures |s| == width && forall i | 0 <= i < |s| :: IsHexDigit(s[i])
  {
    if width == 0 then "" else Hex(n / 16, width - 1) + [HexDigit(n % 16)]
  }

  function HexNumber(s: string): nat
    requires forall i | 0 <= i < |s| :: IsHexDigit(s[i])
  {
    if s == "" then 0 else 16 * HexNumber(s[..|s| - 1]) + HexValue(s[|s| - 1])
  }

  function Pow16(width: nat): (p: nat)
    ensures p > 0
  {
    if width == 0 then 1 else 16 * Pow16(width - 1)
  }

  lemma {:induction false} HexReadsBack(n: nat, width: nat)
    requires n < Pow16(width)
    ensures HexNumber(Hex(n, width)) == n
  {
    if width > 0 {
      HexReadsBack(n / 16, width - 1);
      var s := Hex(n, width);
      assert s[..|s| - 1] == Hex(n / 16, width - 1);
    }
  }

  // -------- White space --------

  /** The C library's `isspace`, which is what `%s` skips and stops at. */
  predicate IsSpace(c: char) {
    c == ' ' || c == '\t' || c == '\n' || c == '\r' || c == '\U{0b}' || c == '\U{0c}'
  }

  /** What `%s` and `%x` pass over before they match. */
  function SkipSpace(s: string): string {
    if s != "" && IsSpace(s[0]) then SkipSpace(s[1..]) else s
  }

  /** The six white-space characters, by code: 9 to 13 and the blank. */
  predicate White(c: char) { 9 <= c as int <= 13 || c as int == 32 }

  predicate AllWhite(s: string) { forall i | 0 <= i < |s| :: White(s[i]) }

  lemma {:induction false} SkipsWhite(s: string, text: string)
    requires AllWhite(s)
    ensures SkipSpace(s + text) == SkipSpace(text)
  {
    if s == "" {
      assert s + text == text;
    } else {
      assert White(s[0]) && (s + text)[0] == s[0] && (s + text)[1..] == s[1..] + text;
      SkipsWhite(s[1..], text);
    }
  }

  // -------- C strings in fixed buffers --------

  /** The text before the first NUL, if the buffer has one. */
  function CString(row: seq<char>): (s: Option<string>)
    ensures s.Some? ==> |s.value| < |row| && s.value == row[..|s.value|] && row[|s.value|] == '\0' && '\0' !in s.value
    ensures s == None ==> '\0' !in row
  {
    if row == [] then None
    else if row[0] == '\0' then Some("")
    else
      match CString(row[1..])
      case None => None
      case Some(rest) => Some([row[0]] + rest)
  }

  lemma {:induction false} CStringOf(s: string, rest: seq<char>)
    requires '\0' !in s
    ensures CString(s + ['\0'] + rest) == Some(s)
  {
    var row := s + ['\0'] + rest;
    if s != "" {
      CStringOf(s[1..], rest);
      assert row[0] == s[0] && row[1..] == s[1..] + ['\0'] + rest;
      assert s == [s[0]] + s[1..] && s[0] in s;
    }
  }
}
