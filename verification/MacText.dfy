/**
 `Stouc` and `UctoS` of the dialog: a hardware address as text and as bytes. Each conversion of
 `Stouc` stores a whole unsigned int at the address of one byte, so the stores overlap and the
 target is nine cells long.
 */
module MacText {
  import opened Common
  import opened Text

  const FIELDS := 6

  // -------- From text --------

  /** A 32-bit word, as `%x` converts it. */
  type Word = w: int | 0 <= w < UINT_RANGE

  datatype Scanned = Scanned(value: Word, rest: string)

  /**
   `%02x`: blanks are passed over, then at most two characters are taken: two digits, one digit, or a
   sign and a digit. A `0x` prefix uses up the width and leaves no digit to convert.
   */
  function ScanHex(s: string): Option<Scanned> {
    var t := SkipSpace(s);
    if t == "" then None
    else if t[0] == '+' || t[0] == '-' then
      if |t| == 1 || !IsHexDigit(t[1]) then None
      else
        var v := HexValue(t[1]);
        Some(Scanned(if t[0] == '-' && v > 0 then UINT_RANGE - v else v, t[2..]))
    else if !IsHexDigit(t[0]) then None
    else if |t| > 1 && t[0] == '0' && (t[1] == 'x' || t[1] == 'X') then None
    else if |t| == 1 || !IsHexDigit(t[1]) then Some(Scanned(HexValue(t[0]), t[1..]))
    else Some(Scanned(16 * HexValue(t[0]) + HexValue(t[1]), t[2..]))
  }

  /** The format goes on to the next field. */
  predicate Goes(rest: string, i: nat) {
    i + 1 < FIELDS && rest != "" && rest[0] == ':'
  }

  /** The values converted before the format stops matching, from the field `k` on. */
  function Converted(s: string, k: nat): (vs: seq<Word>)
    requires k < FIELDS
    ensures |vs| <= FIELDS - k
    decreases FIELDS - k
  {
    match ScanHex(s)
    case None => []
    case Some(Scanned(v, rest)) =>
      [v] + if Goes(rest, k) then Converted(rest[1..], k + 1) else []
  }

  /** A 32-bit store, least significant byte first. */
  function StoreWord(cells: seq<Byte>, i: nat, v: Word): (r: seq<Byte>)
    requires i + 4 <= |cells|
    ensures |r| == |cells|
  {
    cells[i := v % 256][i + 1 := v / 0x100 % 256][i + 2 := v / 0x1_0000 % 256][i + 3 := v / 0x100_0000]
  }

  function StoreAll(cells: seq<Byte>, i: nat, vs: seq<Word>): (r: seq<Byte>)
    requires i + |vs| + 3 <= |cells|
    ensures |r| == |cells|
    decreases |vs|
  {
    if vs == [] then cells else StoreAll(StoreWord(cells, i, vs[0]), i + 1, vs[1..])
  }

  lemma {:induction false} StoreNext(cells: seq<Byte>, i: nat, s: string)
    requires i < FIELDS && FIELDS + 3 <= |cells| && ScanHex(s).Some?
    ensures var Scanned(v, rest) := ScanHex(s).value;
      StoreAll(cells, i, Converted(s, i)) ==
      if Goes(rest, i) then StoreAll(StoreWord(cells, i, v), i + 1, Converted(rest[1..], i + 1))
      else StoreWord(cells, i, v)
  {
    var Scanned(v, rest) := ScanHex(s).value;
    if Goes(rest, i) {
      assert Converted(s, i) == [v] + Converted(rest[1..], i + 1);
      assert Converted(s, i)[1..] == Converted(rest[1..], i + 1);
    } else {
      assert Converted(s, i) == [v] && [v][1..] == [];
    }
  }

  method Stouc(src: string, dst: array<Byte>)
    requires dst.Length >= FIELDS + 3
    modifies dst
    ensures dst[..] == StoreAll(old(dst[..]), 0, Converted(src, 0))
  {
    var rest, i := src, 0;
    ghost var result := StoreAll(dst[..], 0, Converted(src, 0));
    while true
      invariant i < FIELDS && result == StoreAll(dst[..], i, Converted(rest, i))
      decreases FIELDS - i
    {
      var field := ScanHex(rest);
      if field == None {
        return;
      }
      ghost var cells := dst[..];
      StoreNext(cells, i, rest);
      var v := field.value.value;
      dst[i], dst[i + 1], dst[i + 2], dst[i + 3] := v % 256, v / 0x100 % 256, v / 0x1_0000 % 256, v / 0x100_0000;
      assert dst[..] == StoreWord(cells, i, v);
      if !Goes(field.value.rest, i) {
        return;
      }
      rest, i := field.value.rest[1..], i + 1;
    }
  }

  // -------- To text --------

  function Format(b: seq<Byte>): (s: string)
    requires |b| >= FIELDS
    ensures |s| == 17
  {
    Hex(b[0], 2) + ":" + Hex(b[1], 2) + ":" + Hex(b[2], 2) + ":" + Hex(b[3], 2) + ":" + Hex(b[4], 2) + ":" + Hex(b[5], 2)
  }

  /** The text is canonical and reads back as the first six bytes. */
  method UctoS(src: array<Byte>) returns (dst: string)
    requires src.Length >= FIELDS
    ensures Canonical(dst) && Converted(dst, 0) == src[..FIELDS]
  {
    FormatCanonical(src[..FIELDS]);
    ConvertsBack(src[..FIELDS]);
    dst := Hex(src[0], 2) + ":" + Hex(src[1], 2) + ":" + Hex(src[2], 2) + ":" +
           Hex(src[3], 2) + ":" + Hex(src[4], 2) + ":" + Hex(src[5], 2);
  }

  // -------- Overlapping stores --------

  function LowBytes(vs: seq<Word>): (bs: seq<Byte>)
    ensures |bs| == |vs|
    ensures forall i | 0 <= i < |vs| :: bs[i] == vs[i] % 256
  {
    seq(|vs|, i requires 0 <= i < |vs| => vs[i] % 256)
  }

  function HighBytes(v: Word): seq<Byte> {
    [v / 0x100 % 256, v / 0x1_0000 % 256, v / 0x100_0000]
  }

  /**
   Each store's three upper bytes are overwritten by the stores that follow: after any number of
   conversions the cells hold the low bytes of the values, the upper bytes of the last value, and
   then what was there.
   */
  lemma {:induction false} StoresOverlap(cells: seq<Byte>, i: nat, vs: seq<Word>)
    requires vs != [] && i + |vs| + 3 <= |cells|
    ensures StoreAll(cells, i, vs) ==
            cells[..i] + LowBytes(vs) + HighBytes(vs[|vs| - 1]) + cells[i + |vs| + 3..]
    decreases |vs|
  {
    var next := StoreWord(cells, i, vs[0]);
    StoredWord(cells, i, vs[0]);
    if |vs| > 1 {
      StoresOverlap(next, i + 1, vs[1..]);
      assert next[..i + 1] == cells[..i] + [vs[0] % 256];
      assert next[i + 1 + |vs| - 1 + 3..] == cells[i + |vs| + 3..];
      assert cells[..i] + [vs[0] % 256] + LowBytes(vs[1..]) == cells[..i] + LowBytes(vs);
    } else {
      assert vs[1..] == [] && LowBytes(vs) == [vs[0] % 256];
    }
  }

  lemma {:induction false} StoredWord(cells: seq<Byte>, i: nat, v: Word)
    requires i + 4 <= |cells|
    ensures StoreWord(cells, i, v) == cells[..i] + [v % 256] + HighBytes(v) + cells[i + 4..]
  {
  }

  // -------- Round trips --------

  lemma {:induction false} HexPair(b: Byte)
    ensures Hex(b, 2) == [HexDigit(b / 16), HexDigit(b % 16)]
    ensures HexValue(HexDigit(b / 16)) == b / 16 && HexValue(HexDigit(b % 16)) == b % 16
  {
    assert Hex(b / 16, 1) == [HexDigit(b / 16)];
  }

  lemma {:induction false} ScanPair(b: Byte, rest: string)
    ensures ScanHex(Hex(b, 2) + rest) == Some(Scanned(b, rest))
  {
    HexPair(b);
    var s := Hex(b, 2) + rest;
    assert s[0] == HexDigit(b / 16) && s[1] == HexDigit(b % 16) && s[2..] == rest;
    assert SkipSpace(s) == s;
  }

  /** What follows a field does not lengthen it. */
  predicate Ends(rest: string) {
    rest != "" ==> !IsHexDigit(rest[0]) && rest[0] !in "xX"
  }

  /** A field's text: it is read as `v`, whatever follows that does not lengthen it. */
  ghost predicate ScansAs(h: string, v: Word) {
    forall rest | Ends(rest) :: ScanHex(h + rest) == Some(Scanned(v, rest))
  }

  lemma {:induction false} PairScans(b: Byte)
    ensures ScansAs(Hex(b, 2), b)
  {
    forall rest | Ends(rest) ensures ScanHex(Hex(b, 2) + rest) == Some(Scanned(b, rest)) {
      ScanPair(b, rest);
    }
  }

  /** Fields with a colon between them. */
  function Chain(hs: seq<string>): string
    requires hs != []
  {
    if |hs| == 1 then hs[0] else hs[0] + (":" + Chain(hs[1..]))
  }

  /** Nothing that could go on follows field `k - 1`. */
  predicate Stops(tail: string, k: nat) {
    Ends(tail) && (k < FIELDS && tail != "" ==> tail[0] != ':')
  }

  /** Fields from number `k` on are converted to their values, up to what stops the format. */
  lemma {:induction false} ConvertsChain(hs: seq<string>, vs: seq<Word>, tail: string, k: nat)
    requires 0 < |hs| == |vs| && k + |hs| <= FIELDS && Stops(tail, k + |hs|)
    requires forall i | 0 <= i < |hs| :: ScansAs(hs[i], vs[i])
    ensures Converted(Chain(hs) + tail, k) == vs
    decreases |hs|
  {
    if |hs| == 1 {
      LastConverts(hs[0], vs[0], tail, k);
      assert vs == [vs[0]];
    } else {
      ConvertsChain(hs[1..], vs[1..], tail, k + 1);
      NextConverts(hs[0], vs[0], Chain(hs[1..]) + tail, k);
      ChainFront(hs, tail);
      FrontOf(vs);
    }
  }

  lemma {:induction false} ChainFront(hs: seq<string>, tail: string)
    requires |hs| > 1
    ensures Chain(hs) + tail == hs[0] + (":" + (Chain(hs[1..]) + tail))
  {
  }

  lemma {:induction false} FrontOf(vs: seq<Word>)
    requires vs != []
    ensures vs == [vs[0]] + vs[1..]
  {
  }

  lemma {:induction false} LastConverts(h: string, v: Word, tail: string, k: nat)
    requires k < FIELDS && ScansAs(h, v) && Stops(tail, k + 1)
    ensures Converted(h + tail, k) == [v]
  {
  }

  lemma {:induction false} NextConverts(h: string, v: Word, rest: string, k: nat)
    requires k + 1 < FIELDS && ScansAs(h, v)
    ensures Converted(h + (":" + rest), k) == [v] + Converted(rest, k + 1)
  {
    assert (":" + rest)[0] == ':' && (":" + rest)[1..] == rest;
  }

  lemma {:induction false} ChainOfSix(h0: string, h1: string, h2: string, h3: string, h4: string, h5: string)
    ensures Chain([h0, h1, h2, h3, h4, h5]) == h0 + ":" + h1 + ":" + h2 + ":" + h3 + ":" + h4 + ":" + h5
  {
    assert [h0, h1, h2, h3, h4, h5][1..] == [h1, h2, h3, h4, h5];
    assert [h1, h2, h3, h4, h5][1..] == [h2, h3, h4, h5];
    assert [h2, h3, h4, h5][1..] == [h3, h4, h5];
    assert [h3, h4, h5][1..] == [h4, h5];
    assert [h4, h5][1..] == [h5];
    assert Chain([h4, h5]) == h4 + (":" + h5);
    assert Chain([h3, h4, h5]) == h3 + (":" + Chain([h4, h5]));
    assert Chain([h2, h3, h4, h5]) == h2 + (":" + Chain([h3, h4, h5]));
    assert Chain([h1, h2, h3, h4, h5]) == h1 + (":" + Chain([h2, h3, h4, h5]));
    assert Chain([h0, h1, h2, h3, h4, h5]) == h0 + (":" + Chain([h1, h2, h3, h4, h5]));
    Regroup(h0, h1, h2, h3, h4, h5);
  }

  lemma {:induction false} Regroup(h0: string, h1: string, h2: string, h3: string, h4: string, h5: string)
    ensures h0 + ":" + h1 + ":" + h2 + ":" + h3 + ":" + h4 + ":" + h5 ==
            h0 + (":" + (h1 + (":" + (h2 + (":" + (h3 + (":" + (h4 + (":" + h5)))))))))
  {
    var a, b := h0 + ":" + h1, h4 + (":" + h5);
    assert h0 + (":" + (h1 + (":" + (h2 + (":" + (h3 + (":" + b))))))) == a + (":" + (h2 + (":" + (h3 + (":" + b)))));
    assert a + (":" + (h2 + (":" + (h3 + (":" + b))))) == a + ":" + h2 + ":" + h3 + (":" + b);
  }

  /** `Stouc` of the text `UctoS` makes gives back the six bytes, and clears the three cells after them. */
  lemma {:induction false} BytesSurvive(b: seq<Byte>, cells: seq<Byte>)
    requires |b| == FIELDS && |cells| >= FIELDS + 3
    ensures StoreAll(cells, 0, Converted(Format(b), 0)) == b + [0, 0, 0] + cells[FIELDS + 3..]
  {
    ConvertsBack(b);
    StoresFromStart(cells, b);
  }

  lemma {:induction false} StoresFromStart(cells: seq<Byte>, b: seq<Byte>)
    requires b != [] && |b| + 3 <= |cells|
    ensures StoreAll(cells, 0, b) == b + [0, 0, 0] + cells[|b| + 3..]
  {
    StoresOverlap(cells, 0, b);
    assert LowBytes(b) == b && HighBytes(b[|b| - 1]) == [0, 0, 0];
    assert cells[..0] + b == b;
  }

  /** The six pairs of digits. */
  function Pairs(b: seq<Byte>): (hs: seq<string>)
    requires |b| == FIELDS
    ensures |hs| == FIELDS && forall i | 0 <= i < FIELDS :: hs[i] == Hex(b[i], 2)
  {
    [Hex(b[0], 2), Hex(b[1], 2), Hex(b[2], 2), Hex(b[3], 2), Hex(b[4], 2), Hex(b[5], 2)]
  }

  lemma {:induction false} FormatChain(b: seq<Byte>)
    requires |b| == FIELDS
    ensures Format(b) == Chain(Pairs(b)) + ""
  {
    ChainOfSix(Hex(b[0], 2), Hex(b[1], 2), Hex(b[2], 2), Hex(b[3], 2), Hex(b[4], 2), Hex(b[5], 2));
    assert Chain(Pairs(b)) + "" == Chain(Pairs(b));
  }

  lemma {:induction false} ConvertsBack(b: seq<Byte>)
    requires |b| == FIELDS
    ensures Converted(Format(b), 0) == b
  {
    forall i | 0 <= i < FIELDS ensures ScansAs(Pairs(b)[i], b[i]) {
      PairScans(b[i]);
    }
    FormatChain(b);
    ConvertsChain(Pairs(b), b, "", 0);
  }

  // -------- What texts convert to --------

  /** The digit of value `d`, in either case. */
  predicate DigitOf(c: char, d: int) {
    0 <= d < 16 && (c == "0123456789abcdef"[d] || c == "0123456789ABCDEF"[d])
  }

  /** One or two digits, or a sign and a digit; a minus sign negates modulo 2^32. */
  predicate Writes(h: string, v: Word) {
    || (|h| == 1 && DigitOf(h[0], v))
    || (|h| == 2 && DigitOf(h[0], v / 16) && DigitOf(h[1], v % 16))
    || (|h| == 2 && h[0] == '+' && DigitOf(h[1], v))
    || (|h| == 2 && h[0] == '-' && DigitOf(h[1], if v == 0 then 0 else 0x1_0000_0000 - v))
  }

  /** The longest field in front of `rest`: one digit is only taken alone if it cannot be more. */
  predicate Field(blanks: string, h: string, v: Word, rest: string) {
    && AllWhite(blanks) && Writes(h, v)
    && (|h| == 1 && rest != "" ==> !IsHexDigit(rest[0]) && !(h == "0" && rest[0] in "xX"))
  }

  lemma {:induction false} DigitOfValue(c: char, d: nat)
    ensures DigitOf(c, d) <==> IsHexDigit(c) && HexValue(c) == d
  {
    if IsHexDigit(c) {
      HexDigitsInOrder(HexValue(c));
    }
    if d < 16 {
      HexDigitsInOrder(d);
    }
  }

  lemma {:induction false} ScansWritten(h: string, v: Word, rest: string)
    requires Field("", h, v, rest)
    ensures ScanHex(h + rest) == Some(Scanned(v, rest))
  {
    var s := h + rest;
    assert s[0] == h[0] && s[|h|..] == rest;
    HexDigitsAreListed(h[0]);
    assert SkipSpace(s) == s;
    if |h| == 1 {
      DigitOfValue(h[0], v);
    } else {
      assert s[1] == h[1];
      assert s[..2] == h;
      ScansTwo(s, v);
    }
  }

  lemma {:induction false} ScansTwo(s: string, v: Word)
    requires |s| >= 2 && Writes(s[..2], v) && SkipSpace(s) == s
    ensures ScanHex(s) == Some(Scanned(v, s[2..]))
  {
    DigitOfValue(s[0], v / 16);
    DigitOfValue(s[1], v % 16);
    DigitOfValue(s[1], v);
    DigitOfValue(s[1], if v == 0 then 0 else 0x1_0000_0000 - v);
  }

  /** The first character that is not white space. */
  lemma {:induction false} WhiteFront(s: string) returns (blanks: string)
    ensures s == blanks + SkipSpace(s) && AllWhite(blanks)
  {
    if s != "" && IsSpace(s[0]) {
      var more := WhiteFront(s[1..]);
      blanks := [s[0]] + more;
    } else {
      blanks := "";
    }
  }

  lemma {:induction false} WrittenFront(t: string) returns (h: string)
    requires t == SkipSpace(t) && ScanHex(t).Some?
    ensures var Scanned(v, rest) := ScanHex(t).value;
      t == h + rest && Field("", h, v, rest)
  {
    var Scanned(v, rest) := ScanHex(t).value;
    if |t| > 1 && (t[0] == '+' || t[0] == '-' || IsHexDigit(t[1])) {
      h := t[..2];
      DigitOfValue(t[1], HexValue(t[1]));
      if IsHexDigit(t[0]) {
        DigitOfValue(t[0], HexValue(t[0]));
        assert v / 16 == HexValue(t[0]) && v % 16 == HexValue(t[1]);
      }
    } else {
      h := t[..1];
      DigitOfValue(t[0], HexValue(t[0]));
    }
    assert t == h + rest;
  }

  lemma {:induction false} FieldFront(s: string) returns (blanks: string, h: string)
    requires ScanHex(s).Some?
    ensures var Scanned(v, rest) := ScanHex(s).value;
      s == blanks + h + rest && Field(blanks, h, v, rest)
  {
    var t := SkipSpace(s);
    ScanSkips(s);
    SkipsTwice(s);
    blanks := WhiteFront(s);
    h := WrittenFront(t);
    var rest := ScanHex(s).value.rest;
    assert blanks + (h + rest) == blanks + h + rest;
  }

  /** One conversion of `%02x`, exactly: white space, then the longest field, and what it is worth. */
  lemma {:induction false} ScansExactly(s: string, v: Word, rest: string)
    ensures ScanHex(s) == Some(Scanned(v, rest)) <==> exists blanks, h :: s == blanks + h + rest && Field(blanks, h, v, rest)
  {
    if ScanHex(s) == Some(Scanned(v, rest)) {
      var blanks, h := FieldFront(s);
    }
    forall blanks, h | s == blanks + h + rest && Field(blanks, h, v, rest)
      ensures ScanHex(s) == Some(Scanned(v, rest))
    {
      ScansField(blanks, h, v, rest);
    }
  }

  lemma {:induction false} SkipsTwice(s: string)
    ensures SkipSpace(SkipSpace(s)) == SkipSpace(s)
  {
    if s != "" && IsSpace(s[0]) {
      SkipsTwice(s[1..]);
    }
  }

  lemma {:induction false} ScansField(blanks: string, h: string, v: Word, rest: string)
    requires Field(blanks, h, v, rest)
    ensures ScanHex(blanks + h + rest) == Some(Scanned(v, rest))
  {
    ScansWritten(h, v, rest);
    assert blanks + h + rest == blanks + (h + rest);
    SkipsWhite(blanks, h + rest);
    ScanSkips(h + rest);
    ScanSkips(blanks + (h + rest));
  }

  lemma {:induction false} ScanSkips(s: string)
    ensures ScanHex(s) == ScanHex(SkipSpace(s))
  {
    SkipsTwice(s);
  }

  /** A field with the white space in front of it. */
  predicate Spells(field: string, v: Word) {
    exists k | 0 <= k <= |field| :: AllWhite(field[..k]) && Writes(field[k..], v)
  }

  /**
   One to six fields with colons between them convert to their values, up to the end of the text, a
   seventh field, or the first character that is neither a digit nor a colon.
   */
  lemma {:induction false} FieldsConvert(fields: seq<string>, vs: seq<Word>, tail: string)
    requires 0 < |fields| == |vs| <= 6 && Stops(tail, |fields|)
    requires forall i | 0 <= i < |fields| :: Spells(fields[i], vs[i])
    ensures Converted(Chain(fields) + tail, 0) == vs
  {
    forall i | 0 <= i < |fields| ensures ScansAs(fields[i], vs[i]) {
      SpeltScans(fields[i], vs[i]);
    }
    ConvertsChain(fields, vs, tail, 0);
  }

  lemma {:induction false} SpeltScans(field: string, v: Word)
    requires Spells(field, v)
    ensures ScansAs(field, v)
  {
    var k :| 0 <= k <= |field| && AllWhite(field[..k]) && Writes(field[k..], v);
    forall rest | Ends(rest) ensures ScanHex(field + rest) == Some(Scanned(v, rest)) {
      ScansField(field[..k], field[k..], v, rest);
      assert field == field[..k] + field[k..];
    }
  }

  // -------- Upper and lower case --------

  function UpperChar(c: char): char {
    if 'a' <= c <= 'f' then 'A' + (c - 'a') else c
  }

  /** The letters a to f in upper case. */
  function Upper(s: string): (u: string)
    ensures |u| == |s| && forall i | 0 <= i < |s| :: u[i] == UpperChar(s[i])
  {
    seq(|s|, i requires 0 <= i < |s| => UpperChar(s[i]))
  }

  lemma {:induction false} UpperRest(s: string, k: nat)
    requires k <= |s|
    ensures Upper(s)[k..] == Upper(s[k..])
  {
  }

  lemma {:induction false} UpperSkips(s: string)
    ensures SkipSpace(Upper(s)) == Upper(SkipSpace(s))
  {
    if s != "" && IsSpace(s[0]) {
      UpperRest(s, 1);
      UpperSkips(s[1..]);
    }
  }

  lemma {:induction false} UpperScans(s: string)
    ensures ScanHex(Upper(s)) ==
      match ScanHex(s) case None => None case Some(Scanned(v, rest)) => Some(Scanned(v, Upper(rest)))
  {
    UpperSkips(s);
    var t := SkipSpace(s);
    if t != "" {
      UpperRest(t, 1);
    }
    if |t| > 1 {
      UpperRest(t, 2);
    }
  }

  /** Whatever the text, the case of its letters does not matter. */
  lemma {:induction false} CaseDoesNotMatter(s: string, k: nat)
    requires k < FIELDS
    ensures Converted(Upper(s), k) == Converted(s, k)
    decreases FIELDS - k
  {
    UpperScans(s);
    if ScanHex(s).Some? {
      var rest := ScanHex(s).value.rest;
      if Goes(rest, k) {
        UpperRest(rest, 1);
        CaseDoesNotMatter(rest[1..], k + 1);
      }
    }
  }

  /** An address typed in upper case converts to the same six bytes. */
  lemma {:induction false} UpperCaseConverts(b: seq<Byte>)
    requires |b| == 6
    ensures Converted(Upper(Format(b)), 0) == b
  {
    CaseDoesNotMatter(Format(b), 0);
    ConvertsBack(b);
  }

  // -------- Canonical texts --------

  predicate LowerHex(c: char) { IsDigit(c) || 'a' <= c <= 'f' }

  /** Six pairs of lower-case digits with a colon between them. */
  predicate Canonical(s: string) {
    |s| == 17 && forall i | 0 <= i < 17 :: if i % 3 == 2 then s[i] == ':' else LowerHex(s[i])
  }

  /** The bytes a canonical text spells. */
  function Spelled(s: string): (b: seq<Byte>)
    requires Canonical(s)
    ensures |b| == FIELDS
  {
    seq(FIELDS, i requires 0 <= i < FIELDS =>
      assert LowerHex(s[3 * i]) && LowerHex(s[3 * i + 1]); 16 * HexValue(s[3 * i]) + HexValue(s[3 * i + 1]))
  }

  lemma {:induction false} PairSpelled(s: string, i: nat)
    requires Canonical(s) && i < FIELDS
    ensures Hex(Spelled(s)[i], 2) == s[3 * i..3 * i + 2]
  {
    assert LowerHex(s[3 * i]) && LowerHex(s[3 * i + 1]);
    PairBack(s[3 * i], s[3 * i + 1]);
  }

  lemma {:induction false} PairBack(hi: char, lo: char)
    requires LowerHex(hi) && LowerHex(lo)
    ensures Hex(16 * HexValue(hi) + HexValue(lo), 2) == [hi, lo]
  {
    DigitBack(hi);
    DigitBack(lo);
    var b: Byte := 16 * HexValue(hi) + HexValue(lo);
    assert b / 16 == HexValue(hi) && b % 16 == HexValue(lo);
    HexPair(b);
  }

  lemma {:induction false} DigitBack(c: char)
    requires LowerHex(c)
    ensures HexDigit(HexValue(c)) == c
  {
  }

  lemma {:induction false} FormatSpelled(s: string)
    requires Canonical(s)
    ensures Format(Spelled(s)) == s
  {
    var b := Spelled(s);
    PairSpelled(s, 0);
    PairSpelled(s, 1);
    PairSpelled(s, 2);
    PairSpelled(s, 3);
    PairSpelled(s, 4);
    PairSpelled(s, 5);
    SixPairs(s, Hex(b[0], 2), Hex(b[1], 2), Hex(b[2], 2), Hex(b[3], 2), Hex(b[4], 2), Hex(b[5], 2));
  }

  lemma {:induction false} SixPairs(s: string, h0: string, h1: string, h2: string, h3: string, h4: string, h5: string)
    requires Canonical(s)
    requires h0 == s[0..2] && h1 == s[3..5] && h2 == s[6..8] && h3 == s[9..11] && h4 == s[12..14] && h5 == s[15..17]
    ensures h0 + ":" + h1 + ":" + h2 + ":" + h3 + ":" + h4 + ":" + h5 == s
  {
    assert s[2] == ':' && s[5] == ':' && s[8] == ':' && s[11] == ':' && s[14] == ':';
    assert h0 + ":" + h1 + ":" == s[..6];
    assert s[..6] + h2 + ":" == s[..9];
    assert s[..9] + h3 + ":" == s[..12];
    assert s[..12] + h4 + ":" == s[..15];
    assert s[..15] + h5 == s;
  }

  lemma {:induction false} FormatCanonical(b: seq<Byte>)
    requires |b| >= FIELDS
    ensures Canonical(Format(b))
  {
    forall i | 0 <= i < FIELDS ensures LowerHex(Hex(b[i], 2)[0]) && LowerHex(Hex(b[i], 2)[1]) {
      HexPair(b[i]);
    }
    PairsCanonical(Hex(b[0], 2), Hex(b[1], 2), Hex(b[2], 2), Hex(b[3], 2), Hex(b[4], 2), Hex(b[5], 2));
  }

  predicate LowerPair(h: string) { |h| == 2 && LowerHex(h[0]) && LowerHex(h[1]) }

  lemma {:induction false} PairsCanonical(h0: string, h1: string, h2: string, h3: string, h4: string, h5: string)
    requires LowerPair(h0) && LowerPair(h1) && LowerPair(h2) && LowerPair(h3) && LowerPair(h4) && LowerPair(h5)
    ensures Canonical(h0 + ":" + h1 + ":" + h2 + ":" + h3 + ":" + h4 + ":" + h5)
  {
  }

  /** A canonical text is determined by the bytes it converts to. */
  lemma {:induction false} CanonicalDetermined(s: string, t: string)
    requires Canonical(s) && Canonical(t) && Converted(s, 0) == Converted(t, 0)
    ensures s == t
  {
    FormatSpelled(s);
    FormatSpelled(t);
    ConvertsBack(Spelled(s));
    ConvertsBack(Spelled(t));
  }

  /** A text comes back unchanged from `Stouc` and then `UctoS` exactly when it is canonical. */
  lemma {:induction false} TextSurvivesExactly(s: string, cells: seq<Byte>)
    requires |cells| >= FIELDS + 3
    ensures Format(StoreAll(cells, 0, Converted(s, 0))) == s <==> Canonical(s)
  {
    FormatCanonical(StoreAll(cells, 0, Converted(s, 0)));
    if Canonical(s) {
      FormatSpelled(s);
      BytesSurvive(Spelled(s), cells);
    }
  }
}
