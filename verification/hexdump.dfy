/**
 * `formatByteSliceAsHexDump`: the fixed layout a byte slice is rendered in.
 *
 * After a header line, each run of up to 16 bytes gets one line: the offset
 * as 8 lower-case hex digits and two spaces, 16 hex cells of three columns
 * (one extra space after the 8th), padding up to column 50, then the
 * printable-ASCII view of the bytes between `| ` and ` |`.
 */
module HexDump {
  import opened Values
  import opened Text

  const LineLen: nat := 16
  const AsciiStartCol: nat := 50
  const AsciiMaxLen: nat := 16

  /** `%02x` of a byte: its high and its low nibble. */
  function Hex2(b: byte): (r: string)
    ensures |r| == 2 && IsDigitOf(r[0], 16) && IsDigitOf(r[1], 16)
  {
    DigitCharValue(b as nat / 16, 16);
    DigitCharValue(b as nat % 16, 16);
    [DigitChar(b as nat / 16), DigitChar(b as nat % 16)]
  }

  /** The two digits read back as the byte. */
  lemma Hex2RoundTrip(b: byte)
    ensures ParseDigits(Hex2(b), 16) == b as nat
  {
    var r := Hex2(b);
    var hi, lo := b as nat / 16, b as nat % 16;
    DigitCharValue(hi, 16);
    DigitCharValue(lo, 16);
    assert r[..1] == [DigitChar(hi)];
    assert r[..1][..0] == [];
    assert ParseDigits(r[..1], 16) == hi;
    assert ParseDigits(r, 16) == hi * 16 + lo;
  }

  /** Hex2 agrees with the general zero-padded formatting of width 2. */
  lemma Hex2IsPadded(b: byte)
    ensures Hex2(b) == HexPadded(b as nat, 2)
  {
    var n := b as nat;
    if n >= 16 {
      assert Digits(n, 16) == Digits(n / 16, 16) + [DigitChar(n % 16)];
    }
  }

  /** `%08x  ` of the line's offset. */
  function OffsetText(offset: nat): (r: string)
    ensures |r| >= 10
  {
    HexPadded(offset, 8) + "  "
  }

  /** The 16 cell slots of a line: its bytes, then empty slots. */
  function Slots(chunk: seq<byte>): (r: seq<Option<byte>>)
    requires |chunk| <= LineLen
    ensures |r| == LineLen
    ensures forall j :: 0 <= j < LineLen ==> r[j] == if j < |chunk| then Some(chunk[j]) else None
  {
    seq(LineLen, j requires 0 <= j < LineLen => if j < |chunk| then Some(chunk[j]) else None)
  }

  /** Hex cell `j`: the byte and a space, or three blanks; one more blank after the 8th cell. */
  function Cell(slot: Option<byte>, j: nat): (r: string)
    ensures |r| == if j == 7 then 4 else 3
  {
    (match slot
     case Some(b) => Hex2(b) + " "
     case None => "   ")
    + (if j == 7 then " " else "")
  }

  /** The cells for `slots`, the first of which is cell `j`. */
  function Cells(slots: seq<Option<byte>>, j: nat): (r: string)
    ensures |r| == CellPos(j + |slots|) - CellPos(j)
    decreases |slots|
  {
    if |slots| == 0 then "" else Cell(slots[0], j) + Cells(slots[1..], j + 1)
  }

  /** Column of cell `j` within the hex section. */
  function CellPos(j: nat): nat
  {
    3 * j + (if j >= 8 then 1 else 0)
  }

  /** The ASCII-column character of one byte. */
  function AsciiChar(b: byte): char
  {
    if 32 <= b <= 126 then (b as int) as char else '.'
  }

  function AsciiChars(chunk: seq<byte>): (r: string)
    ensures |r| == |chunk|
    ensures forall j :: 0 <= j < |chunk| ==> r[j] == AsciiChar(chunk[j])
  {
    if |chunk| == 0 then "" else [AsciiChar(chunk[0])] + AsciiChars(chunk[1..])
  }

  function Max(a: int, b: int): int
  {
    if a >= b then a else b
  }

  /** The printable view of a line's bytes, padded with blanks to 16 columns. */
  function AsciiPadded(chunk: seq<byte>): (r: string)
    requires |chunk| <= AsciiMaxLen
    ensures |r| == AsciiMaxLen
    ensures forall j :: 0 <= j < AsciiMaxLen ==>
              r[j] == if j < |chunk| then AsciiChar(chunk[j]) else ' '
  {
    var ascii := AsciiChars(chunk);
    ascii + Spaces(AsciiMaxLen - |ascii|)
  }

  /** Everything after the hex cells: the padding and the framed ASCII view. */
  function AsciiColumn(padding: nat, chunk: seq<byte>): string
    requires |chunk| <= AsciiMaxLen
  {
    Spaces(padding) + "| " + AsciiPadded(chunk) + " |"
  }

  /** One dump line, without its indentation and newline. */
  function LineText(offset: nat, chunk: seq<byte>): string
    requires |chunk| <= LineLen
  {
    var off := OffsetText(offset);
    var hex := Cells(Slots(chunk), 0);
    var visibleLen := |off| + |hex|;
    var padding := Max(1, AsciiStartCol - visibleLen);
    off + hex + AsciiColumn(padding, chunk)
  }

  function Min(a: int, b: int): int
  {
    if a <= b then a else b
  }

  /** A line of the dump before formatting: its offset and the (at most 16) bytes it shows. */
  datatype Row = Row(offset: nat, bytes: seq<byte>)

  predicate ShortRows(rows: seq<Row>)
  {
    forall k :: 0 <= k < |rows| ==> |rows[k].bytes| <= LineLen
  }

  /** The rows for the bytes from `start` on: the loop `for i := start; i < len(b); i += 16`. */
  function Rows(data: seq<byte>, start: nat): (r: seq<Row>)
    ensures ShortRows(r)
    decreases |data| - start
  {
    if start >= |data| then []
    else
      var end := Min(start + LineLen, |data|);
      [Row(start, data[start..end])] + Rows(data, start + LineLen)
  }

  /** The text of each row. */
  function RowTexts(rows: seq<Row>): (r: seq<string>)
    requires ShortRows(rows)
    ensures |r| == |rows|
    ensures forall k :: 0 <= k < |rows| ==> r[k] == LineText(rows[k].offset, rows[k].bytes)
  {
    seq(|rows|, k requires 0 <= k < |rows| => LineText(rows[k].offset, rows[k].bytes))
  }

  /** Each line written with the body indentation and a newline. */
  function JoinIndented(indentText: string, lines: seq<string>): string
  {
    if |lines| == 0 then "" else indentText + lines[0] + "\n" + JoinIndented(indentText, lines[1..])
  }

  /**
   * `formatByteSliceAsHexDump(b, indent)`. The closing brace is indented one
   * level less than the body; the source slices two spaces off the body
   * indentation, which needs `indent >= 1` (its only caller passes depth+1).
   */
  function FormatByteSliceAsHexDump(data: seq<byte>, cap: nat, indent: nat): (r: string)
    requires indent >= 1
    ensures HexHeader(data, cap) <= r
    ensures HasSuffix(r, Indent(indent - 1) + "}")
  {
    var fieldIndent := Indent(indent);
    var closing := fieldIndent[..|fieldIndent| - IndentWidth] + "}";
    assert closing == Indent(indent - 1) + "}";
    var r := HexHeader(data, cap) + JoinIndented(fieldIndent, RowTexts(Rows(data, 0))) + closing;
    assert r[|r| - |closing|..] == closing;
    r
  }

  function HexHeader(data: seq<byte>, cap: nat): string
  {
    HeaderLine(data, cap) + "\n"
  }

  /** The header's text, without its line break. */
  function HeaderLine(data: seq<byte>, cap: nat): string
  {
    "([]uint8) (len=" + Decimal(|data|) + " cap=" + Decimal(cap) + ") {"
  }

  // ---------------------------------------------------------------------
  // Layout properties
  // ---------------------------------------------------------------------

  /** A dump of N bytes has ceil(N / 16) lines. */
  lemma {:induction false} RowCount(data: seq<byte>, start: nat)
    ensures |Rows(data, start)| == (Max(|data| - start, 0) + LineLen - 1) / LineLen
    decreases |data| - start
  {
    if start < |data| {
      RowCount(data, start + LineLen);
    }
  }

  /** Row k shows the bytes from offset 16k on (at most 16 of them), labelled with that offset. */
  lemma {:induction false} RowAt(data: seq<byte>, start: nat, k: nat)
    requires k < |Rows(data, start)|
    ensures start + 16 * k < |data|
    ensures Rows(data, start)[k]
            == Row(start + 16 * k, data[start + 16 * k..Min(start + 16 * k + LineLen, |data|)])
    decreases k
  {
    var r := Rows(data, start);
    if k > 0 {
      assert r[k] == Rows(data, start + LineLen)[k - 1];
      RowAt(data, start + LineLen, k - 1);
      assert start + LineLen + 16 * (k - 1) == start + 16 * k;
    }
  }

  /** All bytes of the rows, in order. */
  function RowBytes(rows: seq<Row>): seq<byte>
  {
    if |rows| == 0 then [] else rows[0].bytes + RowBytes(rows[1..])
  }

  /** The rows cover the data exactly once, in order. */
  lemma {:induction false} RowsCover(data: seq<byte>, start: nat)
    requires start <= |data|
    ensures RowBytes(Rows(data, start)) == data[start..]
    decreases |data| - start
  {
    if start < |data| {
      var r := Rows(data, start);
      var end := Min(start + LineLen, |data|);
      assert r[1..] == Rows(data, start + LineLen);
      if start + LineLen <= |data| {
        RowsCover(data, start + LineLen);
        assert data[start..] == data[start..end] + data[start + LineLen..];
      } else {
        assert Rows(data, start + LineLen) == [];
      }
    }
  }

  /** Offsets stay below the data length. */
  lemma {:induction false} RowOffsets(data: seq<byte>, start: nat)
    ensures forall k :: 0 <= k < |Rows(data, start)| ==> Rows(data, start)[k].offset < |data|
    decreases |data| - start
  {
    if start < |data| {
      RowOffsets(data, start + LineLen);
      var r := Rows(data, start);
      assert r[1..] == Rows(data, start + LineLen);
      forall k | 0 <= k < |r| ensures r[k].offset < |data| {
        if k > 0 {
          assert r[k] == r[1..][k - 1];
        }
      }
    }
  }

  /** A slice of `a + b` that starts past `a` is a slice of `b`. */
  lemma Shifted<T>(whole: seq<T>, a: seq<T>, b: seq<T>, q: nat, p: nat, x: seq<T>)
    requires whole == a + b && q == |a| + p && p + |x| <= |b| && b[p..p + |x|] == x
    ensures whole[q..q + |x|] == x
  {
  }

  lemma SliceAfter(a: string, b: string, i: nat, n: nat)
    requires i + n <= |b|
    ensures (a + b)[|a| + i..|a| + i + n] == b[i..i + n]
  {
  }

  /** What a hex cell shows: the byte's two digits, or two blanks. */
  function SlotHex(slot: Option<byte>): (r: string)
    ensures |r| == 2
  {
    match slot
    case Some(b) => Hex2(b)
    case None => "  "
  }

  /** The first cell of Cells(slots, j0) shows slot 0. */
  lemma CellFirst(slots: seq<Option<byte>>, j0: nat)
    requires |slots| > 0
    ensures Cells(slots, j0)[0..2] == SlotHex(slots[0])
  {
    var head := Cell(slots[0], j0);
    assert Cells(slots, j0) == head + Cells(slots[1..], j0 + 1);
    assert head[0..2] == SlotHex(slots[0]);
  }

  /** Cells(slots, j0) is the first cell followed by Cells(slots[1..], j0 + 1). */
  lemma CellsSplit(slots: seq<Option<byte>>, j0: nat)
    requires |slots| > 0
    ensures Cells(slots, j0) == Cell(slots[0], j0) + Cells(slots[1..], j0 + 1)
    ensures |Cell(slots[0], j0)| == CellPos(j0 + 1) - CellPos(j0)
  {
  }

  /** Slot `i` of `slots` is shown at column CellPos(j0 + i) - CellPos(j0) of Cells(slots, j0). */
  lemma {:induction false} CellAt(slots: seq<Option<byte>>, j0: nat, i: nat)
    requires i < |slots|
    ensures Cells(slots, j0)[CellPos(j0 + i) - CellPos(j0)..CellPos(j0 + i) - CellPos(j0) + 2] == SlotHex(slots[i])
    decreases i
  {
    if i == 0 {
      CellFirst(slots, j0);
    } else {
      CellsSplit(slots, j0);
      CellAt(slots[1..], j0 + 1, i - 1);
      TailIndex(slots, i);
      Shifted(Cells(slots, j0), Cell(slots[0], j0), Cells(slots[1..], j0 + 1),
              CellPos(j0 + i) - CellPos(j0), CellPos(j0 + 1 + (i - 1)) - CellPos(j0 + 1), SlotHex(slots[i]));
    }
  }

  lemma TailIndex<T>(s: seq<T>, i: nat)
    requires 0 < i < |s|
    ensures s[1..][i - 1] == s[i]
  {
  }

  /** Column of the first hex cell within a line. */
  const HexStart: nat := 10

  /** Column of the first ASCII character within a line. */
  const AsciiStart: nat := 62

  /** An offset below 2^32 prints as exactly 8 digits that read back as the offset. */
  lemma OffsetWidth(offset: nat)
    requires offset < 0x1_0000_0000
    ensures |OffsetText(offset)| == HexStart
    ensures ParseDigits(OffsetText(offset)[..8], 16) == offset
  {
    assert Pow16(8) == 0x1_0000_0000;
    HexDigitCount(offset, 8);
    assert OffsetText(offset)[..8] == HexPadded(offset, 8);
    HexPaddedRoundTrip(offset, 8);
  }

  /** With an 8-digit offset the hex cells end at column 59, so the padding is one blank. */
  lemma LineParts(offset: nat, chunk: seq<byte>)
    requires |chunk| <= LineLen
    requires offset < 0x1_0000_0000
    ensures |OffsetText(offset)| == HexStart
    ensures LineText(offset, chunk) == OffsetText(offset) + Cells(Slots(chunk), 0) + AsciiColumn(1, chunk)
  {
    OffsetWidth(offset);
  }

  /** Every line of a dump below 4 GiB is 80 columns wide, offset first. */
  lemma LineLength(offset: nat, chunk: seq<byte>)
    requires |chunk| <= LineLen
    requires offset < 0x1_0000_0000
    ensures |LineText(offset, chunk)| == 80
    ensures ParseDigits(LineText(offset, chunk)[..8], 16) == offset
  {
    LineParts(offset, chunk);
    OffsetWidth(offset);
    assert LineText(offset, chunk)[..8] == OffsetText(offset)[..8];
  }

  /** Hex cell `j` of a line is at column 10 + 3j (one more from the 9th cell on). */
  lemma LineCell(offset: nat, chunk: seq<byte>, j: nat)
    requires |chunk| <= LineLen
    requires offset < 0x1_0000_0000
    requires j < LineLen
    ensures |LineText(offset, chunk)| >= HexStart + CellPos(j) + 2
    ensures LineText(offset, chunk)[HexStart + CellPos(j)..HexStart + CellPos(j) + 2]
            == if j < |chunk| then Hex2(chunk[j]) else "  "
  {
    LineParts(offset, chunk);
    var off := OffsetText(offset);
    var hex := Cells(Slots(chunk), 0);
    var rest := AsciiColumn(1, chunk);
    CellAt(Slots(chunk), 0, j);
    assert (off + hex + rest)[HexStart + CellPos(j)..HexStart + CellPos(j) + 2]
        == (off + hex)[HexStart + CellPos(j)..HexStart + CellPos(j) + 2];
    SliceAfter(off, hex, CellPos(j), 2);
  }

  /** The printable view of byte `j` of a line is at column 62 + j; blanks fill the rest. */
  lemma LineAscii(offset: nat, chunk: seq<byte>, j: nat)
    requires |chunk| <= LineLen
    requires offset < 0x1_0000_0000
    requires j < AsciiMaxLen
    ensures |LineText(offset, chunk)| > AsciiStart + j
    ensures LineText(offset, chunk)[AsciiStart + j] == if j < |chunk| then AsciiChar(chunk[j]) else ' '
  {
    LineParts(offset, chunk);
    var rest := AsciiColumn(1, chunk);
    assert rest[3 + j] == AsciiPadded(chunk)[j];
  }

  /** A number below 16^w has at most w hex digits. */
  lemma {:induction false} HexDigitCount(n: nat, w: nat)
    requires w >= 1
    requires n < Pow16(w)
    ensures |Digits(n, 16)| <= w
    decreases w
  {
    if n >= 16 {
      assert w >= 2;
      assert n / 16 < Pow16(w - 1);
      HexDigitCount(n / 16, w - 1);
    }
  }

  function Pow16(w: nat): (r: nat)
    ensures r >= 1
  {
    if w == 0 then 1 else 16 * Pow16(w - 1)
  }

  // ---------------------------------------------------------------------
  // Reading a dump back
  // ---------------------------------------------------------------------

  /** The bytes a line shows, read from its hex cells up to the first blank cell. */
  function DecodeCells(t: string, j: nat): seq<byte>
    decreases LineLen - j
  {
    if j >= LineLen || |t| < HexStart + CellPos(j) + 2 || t[HexStart + CellPos(j)] == ' ' then []
    else
      var v := ParseDigits(t[HexStart + CellPos(j)..HexStart + CellPos(j) + 2], 16);
      (if v < 256 then [v as byte] else [0]) + DecodeCells(t, j + 1)
  }

  /** The bytes all lines show, in order. */
  function DecodeLines(lines: seq<string>): seq<byte>
  {
    if |lines| == 0 then [] else DecodeCells(lines[0], 0) + DecodeLines(lines[1..])
  }

  /** `t` shows the bytes of `chunk` in its hex cells, and blanks in the remaining cells. */
  predicate ShowsCells(t: string, chunk: seq<byte>)
  {
    forall j :: 0 <= j < LineLen ==>
      |t| >= HexStart + CellPos(j) + 2 &&
      t[HexStart + CellPos(j)..HexStart + CellPos(j) + 2] == if j < |chunk| then Hex2(chunk[j]) else "  "
  }

  /** Reading the cells from cell `j` on gives back the bytes from `j` on. */
  lemma {:induction false} DecodeShown(t: string, chunk: seq<byte>, j: nat)
    requires |chunk| <= LineLen
    requires ShowsCells(t, chunk)
    requires j <= |chunk|
    ensures DecodeCells(t, j) == chunk[j..]
    decreases LineLen - j
  {
    if j < |chunk| {
      ShownCell(t, chunk, j);
      DecodeByte(t, chunk[j], j);
      DecodeShown(t, chunk, j + 1);
      ConsDrop(chunk, j);
    } else if j < LineLen {
      ShownCell(t, chunk, j);
      DecodeBlank(t, j);
    }
  }

  lemma ShownCell(t: string, chunk: seq<byte>, j: nat)
    requires ShowsCells(t, chunk) && j < LineLen
    ensures |t| >= HexStart + CellPos(j) + 2
    ensures t[HexStart + CellPos(j)..HexStart + CellPos(j) + 2] == if j < |chunk| then Hex2(chunk[j]) else "  "
  {
  }

  lemma ConsDrop<T>(s: seq<T>, j: nat)
    requires j < |s|
    ensures s[j..] == [s[j]] + s[j + 1..]
  {
  }

  /** A cell showing a byte reads back as that byte, followed by the cells after it. */
  lemma DecodeByte(t: string, b: byte, j: nat)
    requires j < LineLen && |t| >= HexStart + CellPos(j) + 2
    requires t[HexStart + CellPos(j)..HexStart + CellPos(j) + 2] == Hex2(b)
    ensures DecodeCells(t, j) == [b] + DecodeCells(t, j + 1)
  {
    Hex2RoundTrip(b);
    assert t[HexStart + CellPos(j)] == Hex2(b)[0];
  }

  /** A blank cell ends the reading. */
  lemma DecodeBlank(t: string, j: nat)
    requires j < LineLen && |t| >= HexStart + CellPos(j) + 2
    requires t[HexStart + CellPos(j)..HexStart + CellPos(j) + 2] == "  "
    ensures DecodeCells(t, j) == []
  {
    assert t[HexStart + CellPos(j)] == "  "[0];
  }

  /** Reading one line's hex cells gives back the line's bytes. */
  lemma DecodeLine(offset: nat, chunk: seq<byte>)
    requires |chunk| <= LineLen
    requires offset < 0x1_0000_0000
    ensures DecodeCells(LineText(offset, chunk), 0) == chunk
  {
    var t := LineText(offset, chunk);
    forall j | 0 <= j < LineLen
      ensures |t| >= HexStart + CellPos(j) + 2
      ensures t[HexStart + CellPos(j)..HexStart + CellPos(j) + 2] == if j < |chunk| then Hex2(chunk[j]) else "  "
    {
      LineCell(offset, chunk, j);
    }
    DecodeShown(t, chunk, 0);
  }

  /** Reading the lines of rows with small offsets gives back the bytes of the rows. */
  lemma {:induction false} DecodeRows(rows: seq<Row>)
    requires ShortRows(rows)
    requires forall k :: 0 <= k < |rows| ==> rows[k].offset < 0x1_0000_0000
    ensures DecodeLines(RowTexts(rows)) == RowBytes(rows)
  {
    if |rows| > 0 {
      var lines := RowTexts(rows);
      assert lines[1..] == RowTexts(rows[1..]);
      DecodeLine(rows[0].offset, rows[0].bytes);
      DecodeRows(rows[1..]);
    }
  }

  /** Round trip: the hex cells of the line texts of data below 4 GiB spell out exactly the data. */
  lemma DecodeDump(data: seq<byte>)
    requires |data| <= 0x1_0000_0000
    ensures DecodeLines(RowTexts(Rows(data, 0))) == data
  {
    RowOffsets(data, 0);
    DecodeRows(Rows(data, 0));
    RowsCover(data, 0);
  }

  // ---------------------------------------------------------------------
  // The lines of the dump text
  // ---------------------------------------------------------------------

  lemma DecimalNoBreak(i: int)
    ensures '\n' !in Decimal(i)
  {
    var d := Digits(if i < 0 then -i else i, 10);
    assert forall k :: 0 <= k < |d| ==> d[k] != '\n';
  }

  lemma {:induction false} CellsNoBreak(slots: seq<Option<byte>>, j: nat)
    ensures '\n' !in Cells(slots, j)
    decreases |slots|
  {
    if |slots| > 0 {
      var c := Cell(slots[0], j);
      if slots[0].Some? {
        var h := Hex2(slots[0].value);
        assert h[0] != '\n' && h[1] != '\n';
      }
      assert '\n' !in c;
      CellsNoBreak(slots[1..], j + 1);
    }
  }

  /** A dump line never contains a line break. */
  lemma LineNoBreak(offset: nat, chunk: seq<byte>)
    requires |chunk| <= LineLen
    ensures '\n' !in LineText(offset, chunk)
  {
    var digits := HexPadded(offset, 8);
    assert forall k :: 0 <= k < |digits| ==> digits[k] != '\n';
    CellsNoBreak(Slots(chunk), 0);
    var ascii := AsciiPadded(chunk);
    assert forall k :: 0 <= k < |ascii| ==> ascii[k] != '\n';
    var padding := Max(1, AsciiStartCol - |OffsetText(offset)| - |Cells(Slots(chunk), 0)|);
    assert forall k :: 0 <= k < padding ==> Spaces(padding)[k] != '\n';
  }

  /** Splitting after a first line that holds no break. */
  lemma SplitAfterLine(a: string, b: string)
    requires '\n' !in a
    ensures SplitOn(a + "\n" + b, '\n') == [a] + SplitOn(b, '\n')
  {
    var s := a + "\n" + b;
    var k := Find(s, '\n');
    assert s[|a|] == '\n';
    assert s[..|a|] == a && s[|a| + 1..] == b;
  }

  lemma SplitSingle(a: string)
    requires '\n' !in a
    ensures SplitOn(a, '\n') == [a]
  {
  }

  /** Each line prefixed by the indentation. */
  function Indented(ind: string, lines: seq<string>): (r: seq<string>)
    ensures |r| == |lines|
    ensures forall k :: 0 <= k < |lines| ==> r[k] == ind + lines[k]
  {
    seq(|lines|, k requires 0 <= k < |lines| => ind + lines[k])
  }

  predicate NoBreaks(lines: seq<string>)
  {
    forall k :: 0 <= k < |lines| ==> '\n' !in lines[k]
  }

  lemma NoBreaksTail(lines: seq<string>)
    requires NoBreaks(lines) && |lines| > 0
    ensures '\n' !in lines[0] && NoBreaks(lines[1..])
  {
    assert forall k :: 0 <= k < |lines| - 1 ==> lines[1..][k] == lines[k + 1];
  }

  lemma JoinStep(ind: string, lines: seq<string>, last: string)
    requires |lines| > 0
    ensures JoinIndented(ind, lines) + last == (ind + lines[0]) + "\n" + (JoinIndented(ind, lines[1..]) + last)
  {
  }

  lemma IndentedStep(ind: string, lines: seq<string>, last: string)
    requires |lines| > 0
    ensures Indented(ind, lines) + [last] == [ind + lines[0]] + (Indented(ind, lines[1..]) + [last])
  {
    assert Indented(ind, lines) == [ind + lines[0]] + Indented(ind, lines[1..]);
  }

  /** Splitting the indented lines and a last line gives back each of them. */
  lemma {:induction false} SplitIndented(ind: string, lines: seq<string>, last: string)
    requires '\n' !in ind && '\n' !in last && NoBreaks(lines)
    ensures SplitOn(JoinIndented(ind, lines) + last, '\n') == Indented(ind, lines) + [last]
    decreases |lines|
  {
    if |lines| == 0 {
      assert JoinIndented(ind, lines) + last == last;
      SplitSingle(last);
    } else {
      NoBreaksTail(lines);
      JoinStep(ind, lines, last);
      SplitAfterLine(ind + lines[0], JoinIndented(ind, lines[1..]) + last);
      SplitIndented(ind, lines[1..], last);
      IndentedStep(ind, lines, last);
    }
  }

  /**
   * The lines of the dump text: the header, one line per row of 16 bytes
   * (ceil(len/16) of them) at the body indentation, and the closing brace.
   */
  lemma DumpLines(data: seq<byte>, cap: nat, indent: nat)
    requires indent >= 1
    ensures var ls := SplitOn(FormatByteSliceAsHexDump(data, cap, indent), '\n');
            var rows := RowTexts(Rows(data, 0));
            && |ls| == |rows| + 2 == (|data| + LineLen - 1) / LineLen + 2
            && ls[0] == HeaderLine(data, cap)
            && (forall k :: 0 <= k < |rows| ==> ls[k + 1] == Indent(indent) + rows[k])
            && ls[|ls| - 1] == Indent(indent - 1) + "}"
  {
    var ind := Indent(indent);
    var rows := RowTexts(Rows(data, 0));
    var closing := Indent(indent - 1) + "}";
    DumpParts(data, cap, indent);
    HeaderNoBreak(data, cap);
    RowsNoBreak(data);
    IndentNoBreak(indent);
    IndentNoBreak(indent - 1);
    SplitAfterLine(HeaderLine(data, cap), JoinIndented(ind, rows) + closing);
    SplitIndented(ind, rows, closing);
    RowCount(data, 0);
    LinesOfParts(HeaderLine(data, cap), Indented(ind, rows), closing);
  }

  /** The dump text is the header line, the joined rows and the closing brace. */
  lemma DumpParts(data: seq<byte>, cap: nat, indent: nat)
    requires indent >= 1
    ensures FormatByteSliceAsHexDump(data, cap, indent)
            == HeaderLine(data, cap) + "\n"
               + (JoinIndented(Indent(indent), RowTexts(Rows(data, 0))) + (Indent(indent - 1) + "}"))
  {
    var ind := Indent(indent);
    assert ind[..|ind| - IndentWidth] == Indent(indent - 1);
  }

  lemma HeaderNoBreak(data: seq<byte>, cap: nat)
    ensures '\n' !in HeaderLine(data, cap)
  {
    DecimalNoBreak(|data|);
    DecimalNoBreak(cap);
  }

  lemma RowsNoBreak(data: seq<byte>)
    ensures NoBreaks(RowTexts(Rows(data, 0)))
  {
    var rows := RowTexts(Rows(data, 0));
    forall k | 0 <= k < |rows|
      ensures '\n' !in rows[k]
    {
      LineNoBreak(Rows(data, 0)[k].offset, Rows(data, 0)[k].bytes);
    }
  }

  lemma IndentNoBreak(n: nat)
    ensures '\n' !in Indent(n) && '\n' !in Indent(n) + "}"
  {
    var ind := Indent(n);
    assert forall k :: 0 <= k < |ind| ==> ind[k] != '\n';
    assert forall k :: 0 <= k < |ind + "}"| ==> (ind + "}")[k] != '\n';
  }

  lemma LinesOfParts(head: string, mid: seq<string>, last: string)
    ensures var ls := [head] + (mid + [last]);
            && |ls| == |mid| + 2 && ls[0] == head && ls[|ls| - 1] == last
            && forall k :: 0 <= k < |mid| ==> ls[k + 1] == mid[k]
  {
  }

  /** The lines with the first `n` characters of each removed. */
  function Dedent(ls: seq<string>, n: nat): (r: seq<string>)
    ensures |r| == |ls|
    ensures forall k :: 0 <= k < |ls| && n <= |ls[k]| ==> r[k] == ls[k][n..]
  {
    seq(|ls|, k requires 0 <= k < |ls| => if n <= |ls[k]| then ls[k][n..] else ls[k])
  }

  /**
   * Round trip on the dump text itself: the lines between the header and the
   * closing brace, without the body indentation, spell out exactly the dumped
   * bytes in their hex cells.
   */
  lemma DumpTextDecodes(data: seq<byte>, cap: nat, indent: nat)
    requires indent >= 1 && |data| <= 0x1_0000_0000
    ensures var ls := SplitOn(FormatByteSliceAsHexDump(data, cap, indent), '\n');
            |ls| >= 2 && DecodeLines(Dedent(ls[1..|ls| - 1], IndentWidth * indent)) == data
  {
    var ls := SplitOn(FormatByteSliceAsHexDump(data, cap, indent), '\n');
    var rows := RowTexts(Rows(data, 0));
    DumpLines(data, cap, indent);
    assert Dedent(ls[1..|ls| - 1], IndentWidth * indent) == rows by {
      forall k | 0 <= k < |rows|
        ensures Dedent(ls[1..|ls| - 1], IndentWidth * indent)[k] == rows[k]
      {
        assert ls[1..|ls| - 1][k] == Indent(indent) + rows[k];
      }
    }
    DecodeDump(data);
  }
}
