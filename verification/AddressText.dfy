/** `iptos` of iflist: dotted addresses in a ring of twelve static result buffers. */
module AddressText {
  import opened Common
  import opened Text

  const IPTOSBUFFERS := 12
  const WIDTH := 16

  /** A 32-bit `u_long`. */
  type Address = a: int | 0 <= a < 0x1_0000_0000

  /** Byte `i` of the argument in memory, least significant first. */
  function ByteAt(a: Address, i: nat): Byte
    requires i < 4
  {
    if i == 0 then a % 256
    else if i == 1 then a / 256 % 256
    else if i == 2 then a / 0x1_0000 % 256
    else a / 0x100_0000
  }

  lemma {:induction false} ShortByte(b: Byte)
    ensures |Decimal(b)| <= 3
  {
    if b >= 10 {
      assert |Decimal(b)| == |Decimal(b / 10)| + 1;
      if b / 10 >= 10 {
        assert |Decimal(b / 10)| == |Decimal(b / 10 / 10)| + 1 && b / 10 / 10 < 10;
      }
    }
  }

  function Dotted(a: Address): string {
    Decimal(ByteAt(a, 0)) + "." + Decimal(ByteAt(a, 1)) + "." + Decimal(ByteAt(a, 2)) + "." + Decimal(ByteAt(a, 3))
  }

  lemma {:induction false} DottedFits(a: Address)
    ensures Short(Dotted(a)) && |Dotted(a)| + 1 <= 16
  {
    ShortByte(ByteAt(a, 0));
    ShortByte(ByteAt(a, 1));
    ShortByte(ByteAt(a, 2));
    ShortByte(ByteAt(a, 3));
  }

  // -------- Reading an address back --------

  /** The text up to the first dot, and the text after it. */
  function Before(s: string): string {
    if s == "" || s[0] == '.' then "" else [s[0]] + Before(s[1..])
  }

  function After(s: string): string {
    if s == "" then "" else if s[0] == '.' then s[1..] else After(s[1..])
  }

  lemma {:induction false} AtDot(field: string, s: string)
    requires '.' !in field && field + "." <= s
    ensures Before(s) == field && After(s) == s[|field| + 1..]
  {
    if field == "" {
      assert s[0] == '.';
    } else {
      assert field == [field[0]] + field[1..] && field[0] in field;
      assert s[0] == field[0] && field[1..] + "." <= s[1..];
      AtDot(field[1..], s[1..]);
      assert s[1..][|field|..] == s[|field| + 1..];
    }
  }

  /** A decimal field; a zero in front of other digits would make it an octal one. */
  predicate IsField(s: string) {
    s != "" && (forall i | 0 <= i < |s| :: IsDigit(s[i])) && (|s| > 1 ==> s[0] != '0')
  }

  /** The address a dotted text denotes: four decimal fields, least significant byte first. */
  function Denoted(s: string): Option<nat> {
    var s1 := After(s);
    var s2 := After(s1);
    var f0, f1, f2, f3 := Before(s), Before(s1), Before(s2), After(s2);
    if IsField(f0) && IsField(f1) && IsField(f2) && IsField(f3) then
      Some(DecimalValue(f0) + 0x100 * DecimalValue(f1) + 0x1_0000 * DecimalValue(f2) + 0x100_0000 * DecimalValue(f3))
    else None
  }

  lemma {:induction false} BytesMakeAddress(a: Address)
    ensures a == ByteAt(a, 0) + 0x100 * ByteAt(a, 1) + 0x1_0000 * ByteAt(a, 2) + 0x100_0000 * ByteAt(a, 3)
  {
    assert a / 0x1_0000 == a / 0x100 / 0x100 && a / 0x100_0000 == a / 0x1_0000 / 0x100;
  }

  lemma {:induction false} FourFields(d0: string, d1: string, d2: string, d3: string)
    requires '.' !in d0 && '.' !in d1 && '.' !in d2
    ensures var s := d0 + "." + d1 + "." + d2 + "." + d3;
      && Before(s) == d0
      && Before(After(s)) == d1
      && Before(After(After(s))) == d2
      && After(After(After(s))) == d3
  {
    var s := d0 + "." + d1 + "." + d2 + "." + d3;
    var s2 := d2 + "." + d3;
    var s1 := d1 + "." + s2;
    assert d0 + "." <= s && s[|d0| + 1..] == s1;
    AtDot(d0, s);
    assert s1[|d1| + 1..] == s2;
    AtDot(d1, s1);
    assert s2[|d2| + 1..] == d3;
    AtDot(d2, s2);
  }

  /** The printed text denotes the address it was made from. */
  lemma {:induction false} DottedReadsBack(a: Address)
    ensures Denoted(Dotted(a)) == Some(a)
  {
    var d0, d1 := Decimal(ByteAt(a, 0)), Decimal(ByteAt(a, 1));
    var d2, d3 := Decimal(ByteAt(a, 2)), Decimal(ByteAt(a, 3));
    FourFields(d0, d1, d2, d3);
    OnlyNumeral(d0, ByteAt(a, 0));
    OnlyNumeral(d1, ByteAt(a, 1));
    OnlyNumeral(d2, ByteAt(a, 2));
    OnlyNumeral(d3, ByteAt(a, 3));
    BytesMakeAddress(a);
  }

  /** The four bytes are printed in the order they have in memory, least significant first. */
  lemma {:induction false} PrintsMemoryOrder(b0: Byte, b1: Byte, b2: Byte, b3: Byte)
    ensures var a := b0 as int + 0x100 * b1 as int + 0x1_0000 * b2 as int + 0x100_0000 * b3 as int;
      && a < 0x1_0000_0000
      && Dotted(a) == Decimal(b0) + "." + Decimal(b1) + "." + Decimal(b2) + "." + Decimal(b3)
  {
    var a := b0 as int + 0x100 * b1 as int + 0x1_0000 * b2 as int + 0x100_0000 * b3 as int;
    BytesOf(a, b0, b1, b2, b3);
  }

  lemma {:induction false} BytesOf(a: int, b0: Byte, b1: Byte, b2: Byte, b3: Byte)
    requires a == b0 as int + 0x100 * b1 as int + 0x1_0000 * b2 as int + 0x100_0000 * b3 as int
    ensures a < 0x1_0000_0000
    ensures ByteAt(a, 0) == b0 && ByteAt(a, 1) == b1 && ByteAt(a, 2) == b2 && ByteAt(a, 3) == b3
  {
    assert a / 0x100 == b1 as int + 0x100 * b2 as int + 0x1_0000 * b3 as int;
    assert a / 0x1_0000 == b2 as int + 0x100 * b3 as int;
  }

  // -------- The ring of buffers --------

  type Row = r: seq<char> | |r| == WIDTH witness seq(WIDTH, i => '\0')

  /** The static variables: the index of the latest result, and the buffers. */
  datatype Ring = Ring(which: nat, rows: seq<Row>) {
    predicate Valid() { which < IPTOSBUFFERS && |rows| == IPTOSBUFFERS }
  }

  /** `sprintf` into a buffer: the text, its terminator, and what was there beyond it. */
  function Written(row: Row, text: string): Row
    requires |text| < WIDTH
  {
    text + ['\0'] + row[|text| + 1..]
  }

  lemma {:induction false} WrittenReads(row: Row, text: string)
    requires Short(text)
    ensures CString(Written(row, text)) == Some(text)
  {
    CStringOf(text, row[|text| + 1..]);
  }

  function Next(which: nat): nat {
    if which + 1 == IPTOSBUFFERS then 0 else which + 1
  }

  /** A text that fits a buffer. */
  predicate Short(text: string) { |text| < WIDTH && '\0' !in text }

  predicate AllShort(texts: seq<string>) { forall i | 0 <= i < |texts| :: Short(texts[i]) }

  /** One call whose argument prints as `text`. */
  function Call(r: Ring, text: string): (r': Ring)
    requires r.Valid() && Short(text)
    ensures r'.Valid()
  {
    var which := Next(r.which);
    Ring(which, r.rows[which := Written(r.rows[which], text)])
  }

  function Calls(r: Ring, texts: seq<string>): (r': Ring)
    requires r.Valid() && AllShort(texts)
    ensures r'.Valid()
    decreases |texts|
  {
    if texts == [] then r else Call(Calls(r, texts[..|texts| - 1]), texts[|texts| - 1])
  }

  class Printer {
    var which: nat
    const output: array<char>

    ghost predicate Valid()
      reads this, output
    {
      output.Length == IPTOSBUFFERS * WIDTH && which < IPTOSBUFFERS
    }

    ghost function RowAt(k: nat): Row
      reads this, output
      requires Valid() && k < IPTOSBUFFERS
    {
      output[WIDTH * k..WIDTH * k + WIDTH]
    }

    ghost function View(): (r: Ring)
      reads this, output
      requires Valid()
      ensures r.Valid()
    {
      Ring(which, seq(IPTOSBUFFERS, k requires 0 <= k < IPTOSBUFFERS && Valid() reads this, output => RowAt(k)))
    }

    constructor ()
      ensures Valid() && fresh(output) && which == 0 && output.Length == 12 * 16
    {
      which := 0;
      output := new char[IPTOSBUFFERS * WIDTH](_ => '\0');
    }

    /** `sprintf(output[which], ..)`: the text and its terminator, and nothing else. */
    method Write(text: string)
      requires Valid() && Short(text)
      modifies output
      ensures Valid()
      ensures RowAt(which) == Written(old(RowAt(which)), text)
      ensures forall k | 0 <= k < IPTOSBUFFERS && k != which :: RowAt(k) == old(RowAt(k))
    {
      var base, i := WIDTH * which, 0;
      while i < |text|
        invariant i <= |text| && forall k | 0 <= k < i :: output[base + k] == text[k]
        invariant forall p | 0 <= p < output.Length && !(base <= p < base + i) :: output[p] == old(output[p])
      {
        output[base + i] := text[i];
        i := i + 1;
      }
      output[base + i] := '\0';
      ghost var wanted := Written(old(RowAt(which)), text);
      forall k | 0 <= k < IPTOSBUFFERS && k != which ensures RowAt(k) == old(RowAt(k)) {
        assert forall c | 0 <= c < WIDTH :: RowAt(k)[c] == old(RowAt(k))[c];
      }
      forall k | 0 <= k < WIDTH ensures RowAt(which)[k] == wanted[k] {
        assert k > i ==> output[base + k] == old(output[base + k]);
      }
    }

    /** The index of the buffer stands for the address the source returns. */
    method Iptos(a: Address) returns (row: nat)
      requires Valid()
      modifies this, output
      ensures Valid() && row == which && Short(Dotted(a)) && View() == Call(old(View()), Dotted(a))
      ensures CString(output[16 * row..16 * row + 16]) == Some(Dotted(a))
    {
      DottedFits(a);
      which := if which + 1 == IPTOSBUFFERS then 0 else which + 1;
      WrittenReads(RowAt(which), Dotted(a));
      Write(Dotted(a));
      row := which;
      assert RowAt(row) == output[16 * row..16 * row + 16];
    }
  }

  // -------- Which results are live --------

  /** The buffer the `j`-th of a sequence of calls writes, for calls counted from 0. */
  function Slot(r: Ring, j: nat): nat { (r.which + 1 + j) % IPTOSBUFFERS }

  lemma {:induction false} NextWraps(n: nat)
    ensures Next(n % IPTOSBUFFERS) == (n + 1) % IPTOSBUFFERS
  {
  }

  lemma {:induction false} SlotsDiffer(r: Ring, j: nat, k: nat)
    requires j < k
    ensures k < j + IPTOSBUFFERS ==> Slot(r, j) != Slot(r, k)
    ensures k == j + IPTOSBUFFERS ==> Slot(r, j) == Slot(r, k)
  {
    var a, b := r.which + 1 + j, r.which + 1 + k;
    assert a == a / IPTOSBUFFERS * IPTOSBUFFERS + Slot(r, j);
    assert b == b / IPTOSBUFFERS * IPTOSBUFFERS + Slot(r, k);
  }

  lemma {:induction false} WhichAfter(r: Ring, texts: seq<string>)
    requires r.Valid() && AllShort(texts)
    ensures Calls(r, texts).which == (r.which + |texts|) % IPTOSBUFFERS
    decreases |texts|
  {
    if texts != [] {
      WhichAfter(r, texts[..|texts| - 1]);
      NextWraps(r.which + |texts| - 1);
    }
  }

  lemma {:induction false} CallEffect(r: Ring, text: string, slot: nat)
    requires r.Valid() && slot < IPTOSBUFFERS && Short(text)
    ensures slot == Next(r.which) ==> CString(Call(r, text).rows[slot]) == Some(text)
    ensures slot != Next(r.which) ==> Call(r, text).rows[slot] == r.rows[slot]
  {
    WrittenReads(r.rows[slot], text);
  }

  /** The text of a call stays in its buffer through the next eleven calls. */
  lemma {:induction false} ResultStaysLive(r: Ring, texts: seq<string>, j: nat)
    requires r.Valid() && AllShort(texts) && j < |texts| <= j + 12
    ensures CString(Calls(r, texts).rows[Slot(r, j)]) == Some(texts[j])
    decreases |texts|
  {
    var n := |texts| - 1;
    var before := texts[..n];
    var r0 := Calls(r, before);
    WhichAfter(r, before);
    NextWraps(r.which + n);
    assert Next(r0.which) == Slot(r, n);
    CallEffect(r0, texts[n], Slot(r, j));
    if j < n {
      SlotsDiffer(r, j, n);
      assert before[j] == texts[j];
      ResultStaysLive(r, before, j);
    }
  }

  /** The twelfth later call writes into the same buffer. */
  lemma {:induction false} TwelfthCallOverwrites(r: Ring, texts: seq<string>, j: nat)
    requires r.Valid() && AllShort(texts) && |texts| == j + 12 + 1
    ensures CString(Calls(r, texts).rows[Slot(r, j)]) == Some(texts[j + 12])
  {
    ResultStaysLive(r, texts, j + IPTOSBUFFERS);
    SlotsDiffer(r, j, j + IPTOSBUFFERS);
  }

  function AllDotted(addresses: seq<Address>): (texts: seq<string>)
    ensures |texts| == |addresses|
    ensures forall i | 0 <= i < |texts| :: texts[i] == Dotted(addresses[i])
  {
    seq(|addresses|, i requires 0 <= i < |addresses| => Dotted(addresses[i]))
  }

  lemma {:induction false} DottedAllShort(addresses: seq<Address>)
    ensures AllShort(AllDotted(addresses))
  {
    forall i | 0 <= i < |addresses| ensures Short(AllDotted(addresses)[i]) {
      DottedFits(addresses[i]);
    }
  }

  /** Any twelve consecutive results are in different buffers and all denote their own arguments. */
  lemma {:induction false} TwelveLiveResults(r: Ring, addresses: seq<Address>, j: nat, k: nat)
    requires r.Valid() && j < k < |addresses| <= j + 12
    ensures Slot(r, j) != Slot(r, k)
    ensures AllShort(AllDotted(addresses))
    ensures var rows := Calls(r, AllDotted(addresses)).rows;
      && CString(rows[Slot(r, j)]).Some? && Denoted(CString(rows[Slot(r, j)]).value) == Some(addresses[j])
      && CString(rows[Slot(r, k)]).Some? && Denoted(CString(rows[Slot(r, k)]).value) == Some(addresses[k])
  {
    DottedAllShort(addresses);
    ResultStaysLive(r, AllDotted(addresses), j);
    ResultStaysLive(r, AllDotted(addresses), k);
    SlotsDiffer(r, j, k);
    DottedReadsBack(addresses[j]);
    DottedReadsBack(addresses[k]);
  }
}
