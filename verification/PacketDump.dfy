/**
 `PrintPackets`: the walk over the records a driver packed into one buffer, and the hex dump of
 each. Printed lines are returned as rows of text.
 */
module PacketDump {
  import opened Common
  import opened Text
  import opened WordAlign

  // -------- The hex dump --------

  /** A printed line: the offset its label gives, the hex column and the character column. */
  datatype Row = Row(offset: nat, hex: string, chars: string) {
    /** The label as printed, `%08lx`. */
    function Label(): string { Hex(offset, 8) }
  }

  function Blanks(n: nat): (s: string)
    ensures |s| == n && forall i | 0 <= i < n :: s[i] == ' '
  {
    seq(n, i => ' ')
  }

  function HexColumn(bytes: seq<Byte>): (s: string)
    ensures |s| == 3 * |bytes|
  {
    if bytes == [] then "" else HexColumn(bytes[..|bytes| - 1]) + Hex(bytes[|bytes| - 1], 2) + " "
  }

  /** `isprint` of the C locale. */
  function Shown(b: Byte): char {
    if 0x20 <= b <= 0x7e then b as char else '.'
  }

  function CharColumn(bytes: seq<Byte>): (s: string)
    ensures |s| == |bytes|
    ensures forall i | 0 <= i < |bytes| :: s[i] == Shown(bytes[i])
  {
    seq(|bytes|, i requires 0 <= i < |bytes| => Shown(bytes[i]))
  }

  /** The bytes of row `i`. */
  function Chunk(data: seq<Byte>, i: nat): seq<Byte>
    requires 16 * i <= |data|
  {
    if |data| - 16 * i > 16 then data[16 * i..16 * i + 16] else data[16 * i..]
  }

  function RowOf(data: seq<Byte>, i: nat): Row
    requires 16 * i <= |data|
  {
    var chunk := Chunk(data, i);
    Row(16 * i, HexColumn(chunk) + Blanks(3 * (16 - |chunk|)), CharColumn(chunk))
  }

  /** The first `k` rows; row `k - 1` must not be empty. */
  function FirstRows(data: seq<Byte>, k: nat): (rows: seq<Row>)
    requires 16 * k < |data| + 16
    ensures |rows| == k
  {
    if k == 0 then [] else FirstRows(data, k - 1) + [RowOf(data, k - 1)]
  }

  function RowCount(n: nat): (rows: nat)
    ensures n <= 16 * rows < n + 16
  {
    (n + 15) / 16
  }

  function Rows(data: seq<Byte>): seq<Row> { FirstRows(data, RowCount(|data|)) }

  lemma {:induction false} RowIs(data: seq<Byte>, k: nat, i: nat)
    requires i < k && 16 * k < |data| + 16
    ensures FirstRows(data, k)[i] == RowOf(data, i)
  {
    var before := FirstRows(data, k - 1);
    assert FirstRows(data, k) == before + [RowOf(data, k - 1)];
    if i < k - 1 {
      RowIs(data, k - 1, i);
      assert (before + [RowOf(data, k - 1)])[i] == before[i];
    } else {
      assert (before + [RowOf(data, k - 1)])[i] == RowOf(data, k - 1);
    }
  }

  /** The buffer holds `bytes` from position `at`. */
  ghost predicate Holds(buf: array<Byte>, at: nat, bytes: seq<Byte>)
    reads buf
  {
    at + |bytes| <= buf.Length && forall k | 0 <= k < |bytes| :: buf[at + k] == bytes[k]
  }

  /** The first inner loop, with the padding of a short row. */
  method PrintHex(buf: array<Byte>, pLine: nat, ulen: nat, ghost chunk: seq<Byte>) returns (hex: string)
    requires Holds(buf, pLine, chunk) && |chunk| == ulen <= 16
    ensures hex == HexColumn(chunk) + Blanks(3 * (16 - ulen))
  {
    var pChar, j := pLine, 0;
    hex := "";
    while j < ulen
      invariant j <= ulen && pChar == pLine + j && hex == HexColumn(chunk[..j])
    {
      assert chunk[..j + 1][..j] == chunk[..j];
      hex := hex + Hex(buf[pChar], 2) + " ";
      pChar := pChar + 1;
      j := j + 1;
    }
    assert chunk[..ulen] == chunk;
    if ulen < 16 {
      hex := hex + Blanks((16 - ulen) * 3);
    } else {
      assert hex == hex + Blanks(0);
    }
  }

  /** The second inner loop, from the start of the line again. */
  method PrintChars(buf: array<Byte>, pLine: nat, ulen: nat, ghost chunk: seq<Byte>)
    returns (chars: string, pChar: nat)
    requires Holds(buf, pLine, chunk) && |chunk| == ulen
    ensures chars == CharColumn(chunk) && pChar == pLine + ulen
  {
    pChar, chars := pLine, "";
    var j := 0;
    while j < ulen
      invariant j <= ulen && pChar == pLine + j && |chars| == j
      invariant forall k | 0 <= k < j :: chars[k] == Shown(chunk[k])
    {
      chars := chars + [Shown(buf[pChar])];
      j, pChar := j + 1, pChar + 1;
    }
  }

  lemma {:induction false} NoWrap(n: nat)
    requires n < UINT_RANGE
    ensures n % UINT_RANGE == n
  {
  }

  lemma {:induction false} HoldsChunk(buf: array<Byte>, start: nat, data: seq<Byte>, i: nat)
    requires Holds(buf, start, data) && 16 * i < |data|
    ensures Holds(buf, start + 16 * i, Chunk(data, i))
  {
    forall k | 0 <= k < |Chunk(data, i)| ensures buf[start + 16 * i + k] == Chunk(data, i)[k] {
      assert buf[start + (16 * i + k)] == data[16 * i + k];
    }
  }

  /** The bytes not yet shown before row `i`. */
  function Left(caplen: nat, i: nat): nat {
    if 16 * i <= caplen then caplen - 16 * i else 0
  }

  /** One turn of the row loop, at row `i`. */
  method PrintRow(buf: array<Byte>, base: nat, pLine: nat, left0: nat, ghost data: seq<Byte>, ghost i: nat)
    returns (row: Row, pChar: nat, left: nat)
    requires Holds(buf, base, data) && 16 * i < |data|
    requires pLine == base + 16 * i && left0 == Left(|data|, i)
    ensures row == RowOf(data, i) && left == Left(|data|, i + 1)
    ensures 16 * (i + 1) < |data| ==> pChar == base + 16 * (i + 1)
  {
    HoldsChunk(buf, base, data, i);
    var ulen := if left0 > 16 then 16 else left0;
    left := left0 - ulen;
    var hex := PrintHex(buf, pLine, ulen, Chunk(data, i));
    var chars;
    chars, pChar := PrintChars(buf, pLine, ulen, Chunk(data, i));
    row := Row(pLine - base, hex, chars);
  }

  method CountLines(tlen: nat) returns (ulLines: nat)
    requires tlen <= UINT_RANGE - 16
    ensures ulLines == RowCount(tlen)
  {
    NoWrap(tlen + 15);
    ulLines := (tlen + 15) % UINT_RANGE / 16;
  }

  /** The row loop of `PrintPackets`, with `pChar` at `start`; `left` is the final `tlen`. */
  method PrintRows(buf: array<Byte>, start: nat, caplen: nat, ghost data: seq<Byte>)
    returns (rows: seq<Row>, left: nat)
    requires Holds(buf, start, data) && |data| == caplen <= UINT_RANGE - 16
    ensures rows == Rows(data) && left == 0
  {
    var ulLines := CountLines(caplen);
    var pChar, base := start, start;
    left, rows := caplen, [];
    var i := 0;
    while i < ulLines
      invariant i <= ulLines == RowCount(caplen) && rows == FirstRows(data, i)
      invariant left == Left(caplen, i) && (16 * i < caplen ==> pChar == start + 16 * i)
    {
      var row;
      row, pChar, left := PrintRow(buf, base, pChar, left, data, i);
      rows := rows + [row];
      i := i + 1;
    }
  }

  // -------- What the dump shows --------

  /** Reads a hex column back: two digits and a blank a byte, up to the padding. */
  function ReadHex(column: string): seq<nat> {
    if |column| < 3 || !IsHexDigit(column[0]) || !IsHexDigit(column[1]) then []
    else [HexNumber(column[..2])] + ReadHex(column[3..])
  }

  lemma {:induction false} HexColumnFront(bytes: seq<Byte>)
    requires bytes != []
    ensures HexColumn(bytes) == Hex(bytes[0], 2) + " " + HexColumn(bytes[1..])
  {
    var last := bytes[|bytes| - 1];
    if |bytes| == 1 {
      assert bytes[..0] == [];
    } else {
      HexColumnFront(bytes[..|bytes| - 1]);
      assert bytes[..|bytes| - 1][1..] == bytes[1..][..|bytes| - 2];
    }
  }

  lemma {:induction false} ReadHexColumn(bytes: seq<Byte>, n: nat)
    ensures ReadHex(HexColumn(bytes) + Blanks(n)) == bytes
    decreases |bytes|
  {
    var column := HexColumn(bytes) + Blanks(n);
    if bytes != [] {
      HexColumnFront(bytes);
      ReadHexColumn(bytes[1..], n);
      assert Pow16(2) == 256;
      HexReadsBack(bytes[0], 2);
      assert column[..2] == Hex(bytes[0], 2);
      assert column[3..] == HexColumn(bytes[1..]) + Blanks(n);
    }
  }

  function AllBytes(rows: seq<Row>): seq<nat> {
    if rows == [] then [] else AllBytes(rows[..|rows| - 1]) + ReadHex(rows[|rows| - 1].hex)
  }

  function AllChars(rows: seq<Row>): string {
    if rows == [] then "" else AllChars(rows[..|rows| - 1]) + rows[|rows| - 1].chars
  }

  /** The data of the first `k` rows. */
  function Front(data: seq<Byte>, k: nat): seq<Byte> {
    if 16 * k <= |data| then data[..16 * k] else data
  }

  lemma {:induction false} FrontGrows(data: seq<Byte>, k: nat)
    requires 16 * k < |data|
    ensures Front(data, k + 1) == Front(data, k) + Chunk(data, k)
  {
    if 16 * (k + 1) <= |data| {
      assert data[..16 * (k + 1)] == data[..16 * k] + data[16 * k..16 * k + 16];
    } else {
      assert data == data[..16 * k] + data[16 * k..];
    }
  }

  lemma {:induction false} CharColumnConcat(a: seq<Byte>, b: seq<Byte>)
    ensures CharColumn(a + b) == CharColumn(a) + CharColumn(b)
  {
  }

  lemma {:induction false} RowShows(rows: seq<Row>, data: seq<Byte>, i: nat)
    requires 16 * i < |data|
    ensures AllBytes(rows + [RowOf(data, i)]) == AllBytes(rows) + Chunk(data, i)
    ensures AllChars(rows + [RowOf(data, i)]) == AllChars(rows) + CharColumn(Chunk(data, i))
  {
    var all, chunk := rows + [RowOf(data, i)], Chunk(data, i);
    assert all[..|all| - 1] == rows;
    ReadHexColumn(chunk, 3 * (16 - |chunk|));
  }

  lemma {:induction false} FirstRowsShow(data: seq<Byte>, k: nat)
    requires 16 * k < |data| + 16
    ensures AllBytes(FirstRows(data, k)) == Front(data, k)
    ensures AllChars(FirstRows(data, k)) == CharColumn(Front(data, k))
  {
    if k > 0 {
      FirstRowsShow(data, k - 1);
      RowShows(FirstRows(data, k - 1), data, k - 1);
      FrontGrows(data, k - 1);
      CharColumnConcat(Front(data, k - 1), Chunk(data, k - 1));
    }
  }

  /**
   Row `i` is labelled with its offset 16 * i, all rows but the last hold 16 bytes, no row is
   empty, and the hex column always has the same width.
   */
  lemma {:induction false} RowShape(data: seq<Byte>, i: nat)
    requires |data| <= UINT_RANGE && i < |Rows(data)|
    ensures var row := Rows(data)[i];
      && |row.Label()| == 8 && HexNumber(row.Label()) == 16 * i
      && |row.hex| == 48
      && 0 < |row.chars| <= 16
      && (i < |Rows(data)| - 1 ==> |row.chars| == 16)
  {
    RowIs(data, |Rows(data)|, i);
    LabelReads(16 * i);
  }

  lemma {:induction false} LabelReads(n: nat)
    requires n < UINT_RANGE
    ensures HexNumber(Hex(n, 8)) == n
  {
    assert Pow16(4) == 0x1_0000 && Pow16(8) == 0x1_0000_0000;
    HexReadsBack(n, 8);
  }

  /** The dump shows every captured byte once and in order, in hexadecimal and as a character. */
  lemma {:induction false} DumpShowsData(data: seq<Byte>)
    ensures AllBytes(Rows(data)) == data && AllChars(Rows(data)) == CharColumn(data)
  {
    FirstRowsShow(data, |Rows(data)|);
    assert Front(data, |Rows(data)|) == data;
  }

  /** Each shown character: a byte from 32 to 126 as the character of that code, any other as a dot. */
  lemma {:induction false} DumpShowsPrintable(data: seq<Byte>, i: nat)
    requires i < |data|
    ensures |AllChars(Rows(data))| == |data|
    ensures AllChars(Rows(data))[i] == if 32 <= data[i] <= 126 then data[i] as char else '.'
  {
    DumpShowsData(data);
  }

  lemma {:induction false} HexCell(bytes: seq<Byte>, j: nat)
    requires j < |bytes|
    ensures HexColumn(bytes)[3 * j..3 * j + 3] == Hex(bytes[j], 2) + " "
    decreases |bytes|
  {
    var last := |bytes| - 1;
    var front, cell := HexColumn(bytes[..last]), Hex(bytes[last], 2) + " ";
    assert HexColumn(bytes) == front + cell;
    if j < last {
      HexCell(bytes[..last], j);
      assert (front + cell)[3 * j..3 * j + 3] == front[3 * j..3 * j + 3];
    } else {
      assert (front + cell)[3 * j..3 * j + 3] == cell;
    }
  }

  lemma {:induction false} TwoHexDigits(b: Byte)
    ensures Hex(b, 2) == ["0123456789abcdef"[b / 16], "0123456789abcdef"[b % 16]]
  {
    HexDigitsInOrder(b / 16);
    HexDigitsInOrder(b % 16);
    assert Hex(b / 16, 1) == [HexDigit(b / 16)];
  }

  /** The hex column of row `i`: two lower-case digits and a blank a byte, then blanks to the end. */
  lemma {:induction false} RowCells(data: seq<Byte>, i: nat, j: nat)
    requires i < |Rows(data)| && j < 16
    ensures |Rows(data)[i].hex| == 48
    ensures var cell := Rows(data)[i].hex[3 * j..3 * j + 3];
      cell == if 16 * i + j < |data|
              then ["0123456789abcdef"[data[16 * i + j] / 16], "0123456789abcdef"[data[16 * i + j] % 16], ' ']
              else "   "
  {
    RowIs(data, |Rows(data)|, i);
    assert RowOf(data, i).hex == HexColumn(Chunk(data, i)) + Blanks(3 * (16 - |Chunk(data, i)|));
    CellOf(Chunk(data, i), j);
    ChunkCell(data, i, j);
  }

  lemma {:induction false} ChunkCell(data: seq<Byte>, i: nat, j: nat)
    requires 16 * i <= |data| && j < 16
    ensures j < |Chunk(data, i)| <==> 16 * i + j < |data|
    ensures 16 * i + j < |data| ==> Chunk(data, i)[j] == data[16 * i + j]
  {
  }

  lemma {:induction false} CellOf(chunk: seq<Byte>, j: nat)
    requires |chunk| <= 16 && j < 16
    ensures (HexColumn(chunk) + Blanks(3 * (16 - |chunk|)))[3 * j..3 * j + 3] == Cell(chunk, j)
  {
    var blanks := Blanks(3 * (16 - |chunk|));
    SliceOf(HexColumn(chunk), blanks, 3 * j);
    if j < |chunk| {
      HexCell(chunk, j);
      TwoHexDigits(chunk[j]);
    } else {
      assert blanks[3 * j - 3 * |chunk|..3 * j + 3 - 3 * |chunk|] == "   ";
    }
  }

  function Cell(chunk: seq<Byte>, j: nat): string {
    if j < |chunk| then ["0123456789abcdef"[chunk[j] / 16], "0123456789abcdef"[chunk[j] % 16], ' '] else "   "
  }

  lemma {:induction false} SliceOf(a: string, b: string, k: nat)
    requires k + 3 <= |a + b|
    ensures k + 3 <= |a| ==> (a + b)[k..k + 3] == a[k..k + 3]
    ensures |a| <= k ==> (a + b)[k..k + 3] == b[k - |a|..k + 3 - |a|]
  {
  }

  // -------- The record walk --------

  lemma {:induction false} HoldsParts(buf: array<Byte>, at: nat, a: seq<Byte>, b: seq<Byte>)
    requires Holds(buf, at, a + b)
    ensures Holds(buf, at, a) && Holds(buf, at + |a|, b)
  {
    assert forall k | 0 <= k < |a| :: (a + b)[k] == a[k];
    forall k | 0 <= k < |b| ensures buf[at + |a| + k] == b[k] {
      assert buf[at + (|a| + k)] == (a + b)[|a| + k];
    }
  }

  /** A number stored in little-endian bytes. */
  function Stored(n: nat, width: nat): (bytes: seq<Byte>)
    ensures |bytes| == width
  {
    if width == 0 then [] else [n % 256] + Stored(n / 256, width - 1)
  }

  /** The number a field of `width` bytes holds. */
  function Field(buf: array<Byte>, at: nat, width: nat): nat
    requires at + width <= buf.Length
    reads buf
    decreases width
  {
    if width == 0 then 0 else buf[at] + 256 * Field(buf, at + 1, width - 1)
  }

  function Pow256(width: nat): (p: nat)
    ensures p > 0
  {
    if width == 0 then 1 else 256 * Pow256(width - 1)
  }

  lemma {:induction false} FieldReadsBack(buf: array<Byte>, at: nat, n: nat, width: nat)
    requires Holds(buf, at, Stored(n, width)) && n < Pow256(width)
    ensures Field(buf, at, width) == n
    decreases width
  {
    if width > 0 {
      var first: seq<Byte> := [n % 256];
      HoldsParts(buf, at, first, Stored(n / 256, width - 1));
      assert buf[at + 0] == first[0];
      FieldReadsBack(buf, at + 1, n / 256, width - 1);
    }
  }

  /** A `bpf_hdr` (time stamp, captured length, original length, header length), data and padding. */
  datatype Record = Record(stamp: seq<Byte>, datalen: nat, extra: seq<Byte>, data: seq<Byte>, pad: seq<Byte>)

  function HeaderLength(r: Record): nat { 18 + |r.extra| }

  function Header(r: Record): seq<Byte> {
    r.stamp + Stored(|r.data|, 4) + Stored(r.datalen, 4) + Stored(HeaderLength(r), 2) + r.extra
  }

  function Image(r: Record): seq<Byte> {
    Header(r) + r.data + r.pad
  }

  /** The fields fit their widths and the padding leads to the next word boundary. */
  predicate WellLaid(r: Record) {
    && |r.stamp| == 8
    && |r.data| < UINT_RANGE && r.datalen < UINT_RANGE
    && HeaderLength(r) < 0x1_0000
    && |r.pad| < 4 && (HeaderLength(r) + |r.data| + |r.pad|) % 4 == 0
  }

  function Layout(recs: seq<Record>): seq<Byte> {
    if recs == [] then [] else Image(recs[0]) + Layout(recs[1..])
  }

  /** The space a record takes, and the offset of record `k` in a layout. */
  function Size(r: Record): nat { HeaderLength(r) + |r.data| + |r.pad| }

  function Offset(recs: seq<Record>, k: nat): nat
    requires k <= |recs|
  {
    if k == 0 then 0 else Offset(recs, k - 1) + Size(recs[k - 1])
  }

  lemma {:induction false} OffsetFront(recs: seq<Record>, k: nat)
    requires k < |recs|
    ensures Offset(recs, k + 1) == Size(recs[0]) + Offset(recs[1..], k)
  {
    if k > 0 {
      OffsetFront(recs, k - 1);
    }
  }

  datatype Dump = Dump(datalen: nat, caplen: nat, rows: seq<Row>)

  function DumpOf(r: Record): Dump {
    Dump(r.datalen, |r.data|, Rows(r.data))
  }

  /** What is printed for each record. */
  function Dumps(recs: seq<Record>): (ds: seq<Dump>)
    ensures |ds| == |recs|
    ensures forall i | 0 <= i < |recs| :: ds[i] == DumpOf(recs[i])
  {
    seq(|recs|, i requires 0 <= i < |recs| => DumpOf(recs[i]))
  }

  /** A record's fields can be read where the structure puts them, and its data where they lead. */
  ghost predicate RecordAt(buf: array<Byte>, at: nat, r: Record)
    reads buf
  {
    && at + Size(r) <= buf.Length
    && Field(buf, at + 8, 4) == |r.data|
    && Field(buf, at + 12, 4) == r.datalen
    && Field(buf, at + 16, 2) == HeaderLength(r)
    && Holds(buf, at + HeaderLength(r), r.data)
  }

  /** Two or four bytes of the buffer as a number, the first one least significant. */
  function TwoBytes(buf: array<Byte>, at: nat): int
    requires at + 2 <= buf.Length
    reads buf
  {
    buf[at] as int + 0x100 * buf[at + 1] as int
  }

  function FourBytes(buf: array<Byte>, at: nat): int
    requires at + 4 <= buf.Length
    reads buf
  {
    TwoBytes(buf, at) + 0x1_0000 * TwoBytes(buf, at + 2)
  }

  lemma {:induction false} LittleEndian(buf: array<Byte>, at: nat)
    requires at + 2 <= buf.Length
    ensures Field(buf, at, 2) == TwoBytes(buf, at)
    ensures at + 4 <= buf.Length ==> Field(buf, at, 4) == FourBytes(buf, at)
  {
    assert Field(buf, at + 1, 1) == buf[at + 1];
    if at + 4 <= buf.Length {
      assert Field(buf, at + 3, 1) == buf[at + 3];
      assert Field(buf, at + 2, 2) == TwoBytes(buf, at + 2);
      assert Field(buf, at + 1, 3) == buf[at + 1] as int + 0x100 * Field(buf, at + 2, 2);
    }
  }

  /** The header's fields, byte by byte where the structure puts them, and the data they lead to. */
  lemma {:induction false} HeaderFields(buf: array<Byte>, at: nat, r: Record)
    requires Holds(buf, at, Image(r)) && WellLaid(r)
    ensures RecordAt(buf, at, r) && |Image(r)| == Size(r)
    ensures at + 18 + |r.extra| + |r.data| + |r.pad| <= buf.Length
    ensures FourBytes(buf, at + 8) == |r.data| && FourBytes(buf, at + 12) == r.datalen
    ensures TwoBytes(buf, at + 16) == 18 + |r.extra|
    ensures forall k | 0 <= k < |r.data| :: buf[at + 18 + |r.extra| + k] == r.data[k]
  {
    FieldsPlaced(buf, at, r);
    LittleEndian(buf, at + 8);
    LittleEndian(buf, at + 12);
    LittleEndian(buf, at + 16);
  }

  lemma {:induction false} FieldsPlaced(buf: array<Byte>, at: nat, r: Record)
    requires Holds(buf, at, Image(r)) && WellLaid(r)
    ensures RecordAt(buf, at, r) && |Image(r)| == Size(r)
  {
    var caplen, datalen, hdrlen := Stored(|r.data|, 4), Stored(r.datalen, 4), Stored(HeaderLength(r), 2);
    HoldsParts(buf, at, Header(r) + r.data, r.pad);
    HoldsParts(buf, at, Header(r), r.data);
    HoldsParts(buf, at, r.stamp + caplen + datalen + hdrlen, r.extra);
    HoldsParts(buf, at, r.stamp + caplen + datalen, hdrlen);
    HoldsParts(buf, at, r.stamp + caplen, datalen);
    HoldsParts(buf, at, r.stamp, caplen);
    assert Pow256(2) == 0x1_0000 && Pow256(4) == UINT_RANGE;
    FieldReadsBack(buf, at + 8, |r.data|, 4);
    FieldReadsBack(buf, at + 12, r.datalen, 4);
    FieldReadsBack(buf, at + 16, HeaderLength(r), 2);
  }

  /** In a buffer that holds a layout, every record is at its offset. */
  lemma {:induction false} EveryRecordPlaced(buf: array<Byte>, at: nat, recs: seq<Record>, k: nat)
    requires k < |recs| && Holds(buf, at, Layout(recs))
    requires forall i | 0 <= i < |recs| :: WellLaid(recs[i])
    ensures RecordAt(buf, at + Offset(recs, k), recs[k])
    decreases k
  {
    HoldsParts(buf, at, Image(recs[0]), Layout(recs[1..]));
    FieldsPlaced(buf, at, recs[0]);
    if k > 0 {
      OffsetFront(recs, k - 1);
      EveryRecordPlaced(buf, at + Size(recs[0]), recs[1..], k - 1);
    }
  }

  lemma {:induction false} LayoutLength(recs: seq<Record>)
    requires forall i | 0 <= i < |recs| :: WellLaid(recs[i])
    ensures |Layout(recs)| == Offset(recs, |recs|)
  {
    if recs != [] {
      ImageLength(recs[0]);
      LayoutLength(recs[1..]);
      OffsetFront(recs, |recs| - 1);
      assert |Layout(recs)| == |Image(recs[0])| + |Layout(recs[1..])|;
    }
  }

  lemma {:induction false} ImageLength(r: Record)
    requires WellLaid(r)
    ensures |Image(r)| == Size(r)
  {
  }

  lemma {:induction false} RoundUp(n: nat, pad: nat)
    requires pad < 4 && (n + pad) % 4 == 0
    ensures (n + 3) / 4 * 4 == n + pad
  {
  }

  /** Aligning the end of a record's data passes over its padding. */
  lemma {:induction false} AlignPast(off: nat, n: nat, pad: nat)
    requires off % 4 == 0 && pad < 4 && (n + pad) % 4 == 0 && off + n + pad < UINT_RANGE
    ensures Align(off + n) == off + n + pad
    ensures (off + n + pad) % 4 == 0 && off + n + pad <= UINT_RANGE - 4
  {
    RoundUp(n, pad);
    RoundUp(off + n, pad);
    AlignFrom(off, n);
  }

  /** The body of the walk, at the header of a record. */
  method PrintRecord(buf: array<Byte>, off0: nat, ghost r: Record) returns (dump: Dump, off: nat)
    requires buf.Length < UINT_RANGE && off0 % 4 == 0 && WellLaid(r) && RecordAt(buf, off0, r)
    ensures dump == DumpOf(r)
    ensures off == off0 + Size(r)
  {
    var tlen1 := Field(buf, off0 + 12, 4);
    var tlen := Field(buf, off0 + 8, 4);
    NoWrap(off0 + HeaderLength(r));
    NoWrap(off0 + HeaderLength(r) + |r.data|);
    off := (off0 + Field(buf, off0 + 16, 2)) % UINT_RANGE;
    var pChar := off;
    off := (off + tlen) % UINT_RANGE;
    AlignPast(off0, HeaderLength(r) + |r.data|, |r.pad|);
    off := Align(off);
    var rows, left := PrintRows(buf, pChar, tlen, r.data);
    dump := Dump(tlen1, tlen, rows);
  }

  /** Record `k` of a layout is at its offset in the buffer, and `wanted[k]` is what to print for it. */
  ghost predicate Placed(buf: array<Byte>, recs: seq<Record>, wanted: seq<Dump>, k: nat)
    reads buf
  {
    && k < |recs| == |wanted|
    && WellLaid(recs[k]) && RecordAt(buf, Offset(recs, k), recs[k])
    && wanted[k] == DumpOf(recs[k])
  }

  lemma {:induction false} OffsetAligned(recs: seq<Record>, k: nat)
    requires k <= |recs| && forall i | 0 <= i < |recs| :: WellLaid(recs[i])
    ensures Offset(recs, k) % 4 == 0
  {
    if k > 0 {
      OffsetAligned(recs, k - 1);
      assert Size(recs[k - 1]) % 4 == 0;
    }
  }

  /** The body of the walk, at record `k`. */
  method VisitRecord(buf: array<Byte>, off0: nat, ghost recs: seq<Record>, ghost wanted: seq<Dump>, ghost k: nat)
    returns (dump: Dump, off: nat)
    requires buf.Length < UINT_RANGE && k < |recs| == |wanted| && off0 == Offset(recs, k)
    requires forall i | 0 <= i < |recs| :: Placed(buf, recs, wanted, i)
    ensures dump == wanted[k] && off == Offset(recs, k + 1)
  {
    forall i | 0 <= i < |recs| ensures WellLaid(recs[i]) {
      assert Placed(buf, recs, wanted, i);
    }
    OffsetAligned(recs, k);
    assert Placed(buf, recs, wanted, k);
    dump, off := PrintRecord(buf, off0, recs[k]);
  }

  /** The loop of the walk. */
  method Walk(buf: array<Byte>, received: nat, ghost recs: seq<Record>, ghost wanted: seq<Dump>)
    returns (dumps: seq<Dump>, off: nat, ghost seen: nat)
    requires buf.Length < UINT_RANGE && |recs| == |wanted| && received <= Offset(recs, |recs|)
    requires forall k | 0 <= k < |recs| :: Placed(buf, recs, wanted, k)
    ensures seen <= |recs| && dumps == wanted[..seen]
    ensures received <= off == Offset(recs, seen)
    ensures seen > 0 ==> Offset(recs, seen - 1) < received
  {
    off, dumps, seen := 0, [], 0;
    while off < received
      invariant seen <= |recs| && dumps == wanted[..seen] && off == Offset(recs, seen)
      invariant seen > 0 ==> Offset(recs, seen - 1) < received
      decreases |recs| - seen
    {
      var dump;
      dump, off := VisitRecord(buf, off, recs, wanted, seen);
      dumps := dumps + [dump];
      seen := seen + 1;
    }
  }

  /**
   The walk prints exactly the records whose offset lies inside the received length, once each and
   in order, and stops at the word boundary after the last of them, at or past that length.
   */
  method PrintPackets(buf: array<Byte>, received: nat, ghost recs: seq<Record>)
    returns (dumps: seq<Dump>, off: nat, ghost seen: nat)
    requires buf.Length < UINT_RANGE && Holds(buf, 0, Layout(recs)) && received <= |Layout(recs)|
    requires forall i | 0 <= i < |recs| :: WellLaid(recs[i])
    ensures seen <= |recs| && dumps == Dumps(recs)[..seen]
    ensures forall i | 0 <= i < |recs| :: i < seen <==> Offset(recs, i) < received
    ensures received <= off == Offset(recs, seen) && off % 4 == 0
    ensures forall i | 0 <= i < seen :: Shows(dumps[i], recs[i])
  {
    LayoutLength(recs);
    AllPlaced(buf, recs);
    dumps, off, seen := Walk(buf, received, recs, Dumps(recs));
    SeenExactly(recs, seen, received);
    OffsetAligned(recs, seen);
    AllShow(recs, dumps);
  }

  /** The printed lengths are the record's original and captured ones, in this order, and the rows its data. */
  predicate Shows(d: Dump, r: Record) {
    && d.datalen == r.datalen && d.caplen == |r.data| == |AllChars(d.rows)|
    && AllBytes(d.rows) == r.data
    && forall i | 0 <= i < |r.data| :: AllChars(d.rows)[i] == if 32 <= r.data[i] <= 126 then r.data[i] as char else '.'
  }

  lemma {:induction false} AllPlaced(buf: array<Byte>, recs: seq<Record>)
    requires Holds(buf, 0, Layout(recs)) && forall i | 0 <= i < |recs| :: WellLaid(recs[i])
    ensures forall k | 0 <= k < |recs| :: Placed(buf, recs, Dumps(recs), k)
  {
    forall k | 0 <= k < |recs| ensures Placed(buf, recs, Dumps(recs), k) {
      EveryRecordPlaced(buf, 0, recs, k);
    }
  }

  lemma {:induction false} AllShow(recs: seq<Record>, dumps: seq<Dump>)
    requires |dumps| <= |recs| && dumps == Dumps(recs)[..|dumps|]
    ensures forall i | 0 <= i < |dumps| :: Shows(dumps[i], recs[i])
  {
    forall i | 0 <= i < |dumps| ensures Shows(dumps[i], recs[i]) {
      DumpShows(recs[i]);
      assert dumps[i] == Dumps(recs)[i];
    }
  }

  lemma {:induction false} DumpShows(r: Record)
    ensures Shows(DumpOf(r), r)
  {
    DumpShowsData(r.data);
  }

  lemma {:induction false} SeenExactly(recs: seq<Record>, seen: nat, received: nat)
    requires seen <= |recs| && received <= Offset(recs, seen)
    requires seen > 0 ==> Offset(recs, seen - 1) < received
    ensures forall i | 0 <= i < |recs| :: i < seen <==> Offset(recs, i) < received
  {
    forall i | 0 <= i < |recs| ensures i < seen <==> Offset(recs, i) < received {
      if i < seen {
        OffsetsGrow(recs, i, seen - 1);
      } else {
        OffsetsGrow(recs, seen, i);
      }
    }
  }

  lemma {:induction false} OffsetsGrow(recs: seq<Record>, i: nat, k: nat)
    requires i <= k <= |recs|
    ensures Offset(recs, i) <= Offset(recs, k)
  {
    if i < k {
      OffsetsGrow(recs, i, k - 1);
    }
  }
}
