/** Hex: a dump of a range of a file, and how to read it back. */
module HexDump {
  import opened Bytes
  import opened Numbers
  import opened Streams

  const LINE_BYTES := 16
  const LINE_BUFFER := 80
  const MAX_SEEK_OFFSET := 0x7FFF_FFFF
  const SEEK_ADDRESS_SPACE := 0x8000_0000

  // ------------------------------------------------------------- a dump line

  ghost function Column(data: seq<byte>, i: nat): (c: seq<byte>)
    ensures |c| == 3
  {
    (if i < |data| then HexDigits(data[i] as int, 2) else [' ', ' ']) + [' ']
  }

  ghost function Columns(data: seq<byte>, n: nat): (c: seq<byte>)
    ensures |c| == 3 * n
  {
    if n == 0 then [] else Columns(data, n - 1) + Column(data, n - 1)
  }

  function Shown(c: byte): byte {
    if 32 <= c as int <= 126 then c else '.'
  }

  ghost function Ascii(data: seq<byte>): (a: seq<byte>)
    ensures |a| == |data|
  {
    if data == [] then [] else Ascii(data[..|data| - 1]) + [Shown(data[|data| - 1])]
  }

  /** A line of the dump without its newline. */
  ghost function Line(address: nat, data: seq<byte>): (l: seq<byte>)
    ensures |l| == 59 + |data|
  {
    HexDigits(address, 8) + [' ', ' '] + Columns(data, LINE_BYTES) + [' '] + Ascii(data)
  }

  ghost function FullLine(address: nat, data: seq<byte>): seq<byte> {
    Line(address, data) + ['\n']
  }

  /** The dump of consecutive pieces of a file, one line each. */
  ghost function Dump(address: nat, pieces: seq<seq<byte>>): seq<byte>
    decreases |pieces|
  {
    if pieces == [] then []
    else FullLine(address, pieces[0]) + Dump(address + |pieces[0]|, pieces[1..])
  }

  lemma {:induction false} DumpSnoc(address: nat, pieces: seq<seq<byte>>, last: seq<byte>)
    ensures Dump(address, pieces + [last])
         == Dump(address, pieces) + FullLine(address + |Flatten(pieces)|, last)
    decreases |pieces|
  {
    hide FullLine;
    if pieces == [] {
      assert pieces + [last] == [last];
      assert Dump(address, [last]) == FullLine(address, last) + Dump(address + |last|, [last][1..]);
    } else {
      assert (pieces + [last])[1..] == pieces[1..] + [last];
      DumpSnoc(address + |pieces[0]|, pieces[1..], last);
      Assoc(FullLine(address, pieces[0]), Dump(address + |pieces[0]|, pieces[1..]),
            FullLine(address + |Flatten(pieces)|, last));
    }
  }

  // -------------------------------------------------------- reading it back

  /** What a line records: its address and its bytes. */
  datatype Record = Record(address: nat, data: seq<byte>)

  ghost function PairValue(hi: char, lo: char): int {
    DigitValue(hi) * 16 + DigitValue(lo)
  }

  /** The bytes in the hexadecimal columns from column i on, up to the first blank one. */
  ghost function ReadColumns(l: seq<byte>, i: nat): seq<byte>
    decreases LINE_BYTES - i
  {
    if i >= LINE_BYTES || |l| < 12 + 3 * i || l[10 + 3 * i] == ' ' || !(0 <= PairValue(l[10 + 3 * i], l[11 + 3 * i]) < 256)
    then []
    else [PairValue(l[10 + 3 * i], l[11 + 3 * i]) as char] + ReadColumns(l, i + 1)
  }

  ghost function ReadLine(l: seq<byte>): Record {
    Record(if |l| >= 8 && Digits(l[..8], 16) then Value(l[..8], 16) else 0, ReadColumns(l, 0))
  }

  ghost function LineEnd(text: seq<byte>): (n: nat)
    ensures n <= |text|
  {
    if text == [] || text[0] == '\n' then 0 else 1 + LineEnd(text[1..])
  }

  /** Reads a whole dump. */
  ghost function Undump(text: seq<byte>): seq<Record> {
    if text == [] then []
    else
      var n := LineEnd(text);
      [ReadLine(text[..n])] + if n < |text| then Undump(text[n + 1..]) else []
  }

  /** The records a dump of some pieces should contain. */
  ghost function Records(address: nat, pieces: seq<seq<byte>>): seq<Record>
    decreases |pieces|
  {
    if pieces == [] then [] else [Record(address, pieces[0])] + Records(address + |pieces[0]|, pieces[1..])
  }

  lemma SliceOfConcat(a: seq<byte>, b: seq<byte>, i: nat, j: nat)
    requires i <= j
    ensures j <= |a| ==> (a + b)[i..j] == a[i..j]
    ensures i == |a| && j == |a + b| ==> (a + b)[i..j] == b
  {
  }

  lemma {:induction false} ColumnAt(data: seq<byte>, n: nat, i: nat)
    requires i < n
    ensures Columns(data, n)[3 * i..3 * i + 3] == Column(data, i)
  {
    hide Column;
    SliceOfConcat(Columns(data, n - 1), Column(data, n - 1), 3 * i, 3 * i + 3);
    if i < n - 1 { ColumnAt(data, n - 1, i); }
  }

  lemma TwoDigits(v: nat)
    requires v < 256
    ensures HexDigits(v, 2) == [HexDigit(v / 16), HexDigit(v % 16)]
    ensures PairValue(HexDigits(v, 2)[0], HexDigits(v, 2)[1]) == v
  {
    OneDigit(v / 16);
    assert HexDigits(v, 2) == HexDigits(v / 16, 1) + [HexDigit(v % 16)];
    hide HexDigits, HexDigit, DigitValue;
  }

  lemma OneDigit(v: nat)
    requires v < 16
    ensures HexDigits(v, 1) == [HexDigit(v)]
  {
    assert HexDigits(v / 16, 0) == [];
    hide HexDigit;
  }

  lemma LineParts(address: nat, data: seq<byte>, i: nat)
    requires |data| <= LINE_BYTES && i < LINE_BYTES
    ensures var l := Line(address, data);
            && l[..8] == HexDigits(address, 8)
            && l[10 + 3 * i..13 + 3 * i] == Column(data, i)
  {
    var l := Line(address, data);
    ColumnAt(data, LINE_BYTES, i);
    assert l[10..58] == Columns(data, LINE_BYTES);
    assert l[10 + 3 * i..13 + 3 * i] == l[10..58][3 * i..3 * i + 3];
  }

  lemma {:induction false} ColumnsReadBack(address: nat, data: seq<byte>, i: nat)
    requires i <= |data| <= LINE_BYTES
    ensures ReadColumns(Line(address, data), i) == data[i..]
    decreases LINE_BYTES - i
  {
    hide Line, HexDigits, Columns;
    var l := Line(address, data);
    if i < LINE_BYTES {
      LineParts(address, data, i);
      var c := Column(data, i);
      assert l[10 + 3 * i] == c[0] && l[11 + 3 * i] == c[1];
      if i < |data| {
        TwoDigits(data[i] as int);
        ColumnsReadBack(address, data, i + 1);
        assert data[i..] == [data[i]] + data[i + 1..];
      }
    }
  }

  lemma LineReadsBack(address: ULONG, data: seq<byte>)
    requires |data| <= LINE_BYTES
    ensures ReadLine(Line(address, data)) == Record(address, data)
  {
    LineParts(address, data, 0);
    ColumnsReadBack(address, data, 0);
    assert data[0..] == data;
    PrintedHexParses(address);
  }

  lemma {:induction false} NoNewlineInDigits(v: nat, n: nat)
    ensures '\n' !in HexDigits(v, n)
  {
    if n > 0 { NoNewlineInDigits(v / 16, n - 1); }
  }

  lemma {:induction false} NoNewlineInColumns(data: seq<byte>, n: nat)
    ensures '\n' !in Columns(data, n)
  {
    if n > 0 {
      NoNewlineInColumns(data, n - 1);
      if n - 1 < |data| { NoNewlineInDigits(data[n - 1] as int, 2); }
    }
  }

  lemma {:induction false} NoNewlineInAscii(data: seq<byte>)
    ensures '\n' !in Ascii(data)
  {
    if data != [] { NoNewlineInAscii(data[..|data| - 1]); }
  }

  lemma NoNewlineInLine(address: nat, data: seq<byte>)
    ensures '\n' !in Line(address, data)
  {
    NoNewlineInDigits(address, 8);
    NoNewlineInColumns(data, LINE_BYTES);
    NoNewlineInAscii(data);
  }

  lemma {:induction false} LineEndAfter(l: seq<byte>, rest: seq<byte>)
    requires '\n' !in l
    ensures LineEnd(l + ['\n'] + rest) == |l|
  {
    var text := l + ['\n'] + rest;
    if l != [] {
      assert text[0] == l[0];
      assert text[1..] == l[1..] + ['\n'] + rest;
      LineEndAfter(l[1..], rest);
    }
  }

  /** The first line of a text, read back. */
  lemma UndumpStep(address: ULONG, data: seq<byte>, rest: seq<byte>)
    requires |data| <= LINE_BYTES
    ensures Undump(FullLine(address, data) + rest) == [Record(address, data)] + Undump(rest)
  {
    var l := Line(address, data);
    var text := FullLine(address, data) + rest;
    LineReadsBack(address, data);
    NoNewlineInLine(address, data);
    LineEndAfter(l, rest);
    hide Line, ReadLine, LineEnd;
    assert text[..|l|] == l && text[|l| + 1..] == rest;
  }

  /** Every dump reads back as the addresses and bytes it was made from. */
  lemma {:induction false} DumpReadsBack(address: nat, pieces: seq<seq<byte>>)
    requires forall k :: 0 <= k < |pieces| ==> |pieces[k]| <= LINE_BYTES
    requires address + |Flatten(pieces)| <= SEEK_ADDRESS_SPACE
    ensures Undump(Dump(address, pieces)) == Records(address, pieces)
    decreases |pieces|
  {
    hide FullLine, ReadLine, LineEnd;
    if pieces != [] {
      UndumpStep(address, pieces[0], Dump(address + |pieces[0]|, pieces[1..]));
      DumpReadsBack(address + |pieces[0]|, pieces[1..]);
    }
  }

  ghost function RecordBytes(records: seq<Record>): seq<byte> {
    if records == [] then [] else records[0].data + RecordBytes(records[1..])
  }

  /** Each record starts where the previous one ended. */
  ghost predicate Consecutive(records: seq<Record>, address: nat)
    decreases |records|
  {
    records != [] ==>
      records[0].address == address && Consecutive(records[1..], address + |records[0].data|)
  }

  lemma {:induction false} RecordsCover(address: nat, pieces: seq<seq<byte>>)
    ensures RecordBytes(Records(address, pieces)) == Flatten(pieces)
    ensures Consecutive(Records(address, pieces), address)
    decreases |pieces|
  {
    if pieces != [] { RecordsCover(address + |pieces[0]|, pieces[1..]); }
  }

  /** The dump of a range determines its bytes and labels each line with its position. */
  lemma DumpIsFaithful(address: nat, pieces: seq<seq<byte>>)
    requires forall k :: 0 <= k < |pieces| ==> |pieces[k]| <= LINE_BYTES
    requires address + |Flatten(pieces)| <= SEEK_ADDRESS_SPACE
    ensures RecordBytes(Undump(Dump(address, pieces))) == Flatten(pieces)
    ensures Consecutive(Undump(Dump(address, pieces)), address)
  {
    DumpReadsBack(address, pieces);
    RecordsCover(address, pieces);
  }

  /** Column i of a line shows a byte: its two hexadecimal digits and a blank. */
  ghost predicate ColumnShows(l: seq<byte>, i: nat, c: byte) {
    && |l| >= 13 + 3 * i && l[12 + 3 * i] == ' '
    && l[10 + 3 * i] in "0123456789ABCDEF" && l[11 + 3 * i] in "0123456789ABCDEF"
    && DigitValue(l[10 + 3 * i]) * 16 + DigitValue(l[11 + 3 * i]) == c as int
  }

  /** The layout of a line, character by character: eight digits of the address, two blanks, sixteen columns of two
      digits and a blank, a blank, and the bytes themselves with a dot for each unprintable one. */
  lemma LineLayout(address: ULONG, data: seq<byte>)
    requires |data| <= 16
    ensures var l := Line(address, data);
      && |l| == 59 + |data|
      && (forall k :: 0 <= k < 8 ==> l[k] in "0123456789ABCDEF")
      && Digits(l[..8], 16) && Value(l[..8], 16) == address
      && l[8] == l[9] == l[58] == ' '
      && (forall i :: 0 <= i < |data| ==> ColumnShows(l, i, data[i]))
      && (forall i :: |data| <= i < 16 ==> l[10 + 3 * i] == l[11 + 3 * i] == l[12 + 3 * i] == ' ')
      && (forall i :: 0 <= i < |data| ==> l[59 + i] == if ' ' <= data[i] <= '~' then data[i] else '.')
  {
    hide *;
    LineAddress(address, data);
    LineFrame(address, data);
    forall i | 0 <= i < |data| ensures ColumnShows(Line(address, data), i, data[i]) { LineColumn(address, data, i); }
    forall i | |data| <= i < 16
      ensures var l := Line(address, data); l[10 + 3 * i] == l[11 + 3 * i] == l[12 + 3 * i] == ' '
    {
      BlankColumn(address, data, i);
    }
    forall i | 0 <= i < |data| ensures Line(address, data)[59 + i] == if ' ' <= data[i] <= '~' then data[i] else '.' {
      AsciiAt(data, i);
    }
  }

  lemma LineAddress(address: ULONG, data: seq<byte>)
    requires |data| <= 16
    ensures var l := Line(address, data);
      && (forall k :: 0 <= k < 8 ==> l[k] in "0123456789ABCDEF")
      && Digits(l[..8], 16) && Value(l[..8], 16) == address
  {
    hide Line, HexDigits, Value, Digits, IsNumeral;
    LineParts(address, data, 0);
    PrintedHexParses(address);
    HexNamed(address, 8);
    AddressDigits(address);
    var l := Line(address, data);
    forall k | 0 <= k < 8 ensures l[k] in "0123456789ABCDEF" { assert l[k] == l[..8][k]; }
  }

  lemma AddressDigits(address: ULONG)
    ensures Digits(HexDigits(address, 8), 16)
  {
    assert Pow16(8) == 0x1_0000_0000;
    HexReadsBack(address, 8);
  }

  lemma LineFrame(address: nat, data: seq<byte>)
    requires |data| <= 16
    ensures var l := Line(address, data);
      && |l| == 59 + |data| && l[8] == l[9] == l[58] == ' '
      && forall i :: 0 <= i < |data| ==> l[59 + i] == Ascii(data)[i]
  {
    hide HexDigits, Columns, Ascii;
  }

  lemma LineColumn(address: nat, data: seq<byte>, i: nat)
    requires i < |data| <= 16
    ensures ColumnShows(Line(address, data), i, data[i])
  {
    hide Line, HexDigits, Columns, DigitValue;
    var l, d := Line(address, data), HexDigits(data[i] as int, 2);
    LineParts(address, data, i);
    TwoDigits(data[i] as int);
    HexNamed(data[i] as int, 2);
    var c := l[10 + 3 * i..13 + 3 * i];
    assert c == d + [' '];
    assert l[10 + 3 * i] == c[0] == d[0] && l[11 + 3 * i] == c[1] == d[1] && l[12 + 3 * i] == c[2];
  }

  lemma BlankColumn(address: nat, data: seq<byte>, i: nat)
    requires |data| <= i < 16
    ensures var l := Line(address, data); l[10 + 3 * i] == l[11 + 3 * i] == l[12 + 3 * i] == ' '
  {
    hide Line, HexDigits, Columns;
    LineParts(address, data, i);
    var c := Line(address, data)[10 + 3 * i..13 + 3 * i];
    assert c[0] == c[1] == c[2] == ' ';
  }

  lemma {:induction false} AsciiAt(data: seq<byte>, i: nat)
    requires i < |data|
    ensures Ascii(data)[i] == if ' ' <= data[i] <= '~' then data[i] else '.'
  {
    if i < |data| - 1 { AsciiAt(data[..|data| - 1], i); }
  }

  lemma {:induction false} HexNamed(v: nat, n: nat)
    ensures forall k :: 0 <= k < n ==> HexDigits(v, n)[k] in "0123456789ABCDEF"
  {
    if n > 0 { HexNamed(v / 16, n - 1); }
  }

  // -------------------------------------------------------------- the program

  /** Appending to the part of the line buffer that is already filled. */
  method PutChar(line: array<byte>, p: nat, c: byte)
    requires p < line.Length
    modifies line
    ensures line[..p + 1] == old(line[..p]) + [c]
  {
    line[p] := c;
  }

  lemma NoColumns(head: seq<byte>, data: seq<byte>)
    ensures head + Columns(data, 0) == head
  {
  }

  lemma NextColumn(head: seq<byte>, data: seq<byte>, i: nat)
    ensures head + Columns(data, i) + (if i < |data| then HexDigits(data[i] as int, 2) else [' '] + [' ']) + [' ']
         == head + Columns(data, i + 1)
    ensures head + Columns(data, i) + [' '] + [' '] + [' '] == head + Columns(data, i) + ([' '] + [' ']) + [' ']
  {
    hide HexDigits;
    assert [' '] + [' '] == [' ', ' '];
    Assoc(head, Columns(data, i), Column(data, i));
  }

  /** The columns loop of emit_line. */
  method PutColumns(line: array<byte>, data: array<byte>, count: nat)
    requires line.Length == LINE_BUFFER && data.Length == LINE_BYTES && count <= LINE_BYTES && line != data
    modifies line
    ensures line[..58] == old(line[..10]) + Columns(data[..count], LINE_BYTES)
  {
    hide HexDigits, Columns;
    ghost var head, bytes := line[..10], data[..count];
    var p, i := 10, 0;
    NoColumns(head, bytes);
    while i < LINE_BYTES
      invariant 0 <= i <= LINE_BYTES && p == 10 + 3 * i
      invariant line[..p] == head + Columns(bytes, i)
      invariant data[..count] == bytes
    {
      if i < count {
        assert data[i] == bytes[i];
        PutHex8(line, p, data[i] as int);
      } else {
        PutChar(line, p, ' ');
        PutChar(line, p + 1, ' ');
      }
      p := p + 2;
      PutChar(line, p, ' ');
      p := p + 1;
      NextColumn(head, bytes, i);
      i := i + 1;
    }
  }

  /** The character loop of emit_line. */
  method PutAscii(line: array<byte>, data: array<byte>, count: nat)
    requires line.Length == LINE_BUFFER && data.Length == LINE_BYTES && count <= LINE_BYTES && line != data
    modifies line
    ensures line[..59 + count] == old(line[..59]) + Ascii(data[..count])
  {
    ghost var head, bytes := line[..59], data[..count];
    var i := 0;
    while i < count
      invariant 0 <= i <= count
      invariant line[..59 + i] == head + Ascii(bytes[..i]) && data[..count] == bytes
    {
      var c := data[i];
      PutChar(line, 59 + i, if 32 <= c as int <= 126 then c else '.');
      assert bytes[..i + 1][..i] == bytes[..i] && bytes[i] == c;
      i := i + 1;
    }
    assert bytes[..count] == bytes;
  }

  /** emit_line: builds one line in the 80-byte buffer and writes it. */
  method EmitLine(line: array<byte>, data: array<byte>, address: ULONG, count: nat, out: Sink) returns (ok: bool)
    requires line.Length == LINE_BUFFER && data.Length == LINE_BYTES && count <= LINE_BYTES && line != data
    modifies line, out
    ensures old(out.written) <= out.written <= old(out.written) + FullLine(address, data[..count])
    ensures ok ==> out.written == old(out.written) + FullLine(address, data[..count]) && out.failed == old(out.failed)
    ensures !ok ==> out.failed
  {
    hide Line;
    BuildLine(line, data, address, count);
    var p := 60 + count;
    var wrote := out.Write(line[..p]);
    ok := wrote == p;
  }

  /** The address and the two spaces after it. */
  method PutAddress(line: array<byte>, address: ULONG)
    requires line.Length == LINE_BUFFER
    modifies line
    ensures line[..10] == HexDigits(address, 8) + [' ', ' ']
  {
    hide HexDigits;
    PutHex32(line, 0, address);
    PutChar(line, 8, ' ');
    PutChar(line, 9, ' ');
  }

  /** Fills the line buffer; a full line needs 76 of its 80 bytes. */
  method BuildLine(line: array<byte>, data: array<byte>, address: ULONG, count: nat)
    requires line.Length == LINE_BUFFER && data.Length == LINE_BYTES && count <= LINE_BYTES && line != data
    modifies line
    ensures line[..60 + count] == FullLine(address, data[..count])
  {
    hide HexDigits, Columns, Ascii;
    PutAddress(line, address);
    PutColumns(line, data, count);
    PutChar(line, 58, ' ');
    PutAscii(line, data, count);
    PutChar(line, 59 + count, '\n');
  }

  /** Where a dump ends: at the end of the file, of the request, or of the seek range. */
  ghost function RangeEnd(size: nat, offset: nat, limit: int): int {
    Min(Min(size, 0x8000_0000), if limit < 0 then 0x8000_0000 else offset + limit)
  }

  /** The lines attempted so far cover the file from the offset on. */
  ghost predicate Covers(s: seq<byte>, offset: nat, shown: nat, pieces: seq<seq<byte>>) {
    && offset + shown <= |s| && Flatten(pieces) == s[offset..offset + shown]
    && forall k :: 0 <= k < |pieces| ==> |pieces[k]| <= LINE_BYTES
  }

  lemma CoversMore(s: seq<byte>, offset: nat, shown: nat, pieces: seq<seq<byte>>, piece: seq<byte>)
    requires Covers(s, offset, shown, pieces) && |piece| <= LINE_BYTES
    requires offset + shown + |piece| <= |s| && piece == s[offset + shown..offset + shown + |piece|]
    ensures Covers(s, offset, shown + |piece|, pieces + [piece])
    ensures Dump(offset, pieces + [piece]) == Dump(offset, pieces) + FullLine(offset + shown, piece)
  {
    hide FullLine, Dump, Flatten;
    FlattenSnoc(pieces, piece);
    assert s[offset..offset + shown + |piece|] == s[offset..offset + shown] + piece;
    DumpSnoc(offset, pieces, piece);
  }

  /** How many bytes the next line asks for; 0 when the loop stops before reading. */
  method NextWant(addressLeft: ULONG, shown: ULONG, limited: bool, limit: ULONG) returns (want: nat)
    requires shown <= addressLeft && (limited ==> shown <= limit)
    ensures want == Min(LINE_BYTES, Min(addressLeft - shown, if limited then limit - shown else LINE_BYTES))
  {
    want := LINE_BYTES;
    var positionLeft: ULONG := addressLeft - shown;
    if positionLeft == 0 { return 0; }
    if positionLeft < LINE_BYTES { want := positionLeft; }
    if limited {
      if shown >= limit { return 0; }
      var left: ULONG := limit - shown;
      if left < want { want := left; }
    }
  }

  /** The dump loop of main; `limit` counts only when `limited` says that the third argument is present.
      No ULONG step wraps: every intermediate value is checked to be in range. */
  method DumpRange(file: InFile, out: Sink, offset: ULONG, limited: bool, limit: ULONG)
    returns (code: int, ghost pieces: seq<seq<byte>>, ghost shown: nat)
    requires offset <= MAX_SEEK_OFFSET && (limited ==> limit <= SEEK_ADDRESS_SPACE - offset)
    requires file.pos == 0 && !file.failed && !out.failed
    modifies file, out
    ensures old(out.written) <= out.written <= old(out.written) + Dump(offset, pieces)
    ensures offset <= |file.contents| ==> Covers(file.contents, offset, shown, pieces)
    ensures code == (if file.failed || out.failed then 5 else 0)
    ensures code == 0 ==>
      && out.written == old(out.written) + Dump(offset, pieces)
      && offset + shown == RangeEnd(|file.contents|, offset, if limited then limit else -1) <= |file.contents|
  {
    hide Dump, FullLine, Covers;
    var data, line := new byte[LINE_BYTES], new byte[LINE_BUFFER];
    var addressLeft: ULONG := SEEK_ADDRESS_SPACE - offset;
    var shownNow: ULONG := 0;
    pieces, shown := [], 0;
    ghost var s, base := file.contents, out.written;
    NothingDumped(s, offset);
    if offset != 0 {
      var r := file.SeekTo(offset);
      if r < 0 { return 5, pieces, shown; }
    }
    var got := 0;
    while true
      invariant shown == shownNow <= addressLeft && (limited ==> shown <= limit)
      invariant file.pos == offset + shown <= |s| && !file.failed && !out.failed
      invariant Covers(s, offset, shown, pieces) && out.written == base + Dump(offset, pieces)
      decreases |s| - file.pos
    {
      got := 0;
      var want := NextWant(addressLeft, shownNow, limited, limit);
      if want == 0 { break; }
      var ok;
      got, ok, pieces := DumpLine(file, out, line, data, offset, shownNow, want, base, pieces);
      if got <= 0 { break; }
      shown := shown + got;
      if !ok { return 5, pieces, shown; }
      shownNow := shownNow + got;
    }
    code := if got < 0 then 5 else 0;
  }

  /** The second half of the loop body: reads at most `want` bytes and prints them. */
  method DumpLine(file: InFile, out: Sink, line: array<byte>, data: array<byte>, offset: ULONG, shown: ULONG, want: nat,
                  ghost base: seq<byte>, ghost pieces0: seq<seq<byte>>)
    returns (got: LONG, ok: bool, ghost pieces: seq<seq<byte>>)
    requires line.Length == LINE_BUFFER && data.Length == LINE_BYTES && line != data
    requires 0 < want <= LINE_BYTES && offset + shown + want <= SEEK_ADDRESS_SPACE
    requires file.pos == offset + shown <= |file.contents| && !file.failed && !out.failed
    requires Covers(file.contents, offset, shown, pieces0)
    requires out.written == base + Dump(offset, pieces0)
    modifies file, out, line, data
    ensures got <= want
    ensures got <= 0 ==> pieces == pieces0 && out.written == old(out.written) && !out.failed
    ensures got < 0 ==> file.failed
    ensures got >= 0 ==> file.pos == offset + shown + got <= |file.contents| && !file.failed
    ensures got == 0 ==> file.pos == |file.contents|
    ensures got > 0 ==> Covers(file.contents, offset, shown + got, pieces)
    ensures got > 0 ==> base <= out.written <= base + Dump(offset, pieces)
    ensures got > 0 && ok ==> out.written == base + Dump(offset, pieces) && !out.failed
    ensures got > 0 && !ok ==> out.failed
  {
    hide Dump, FullLine, Covers;
    ok, pieces := true, pieces0;
    got := file.Read(data, want);
    if got <= 0 { return; }
    ghost var piece := data[..got];
    var at: ULONG := offset + shown;
    CoversMore(file.contents, offset, shown, pieces, piece);
    ok := EmitLine(line, data, at, got, out);
    LineStaysInside(base, Dump(offset, pieces), FullLine(at, piece), out.written);
    pieces := pieces + [piece];
  }

  lemma NothingDumped(s: seq<byte>, offset: nat)
    ensures Dump(offset, []) == []
    ensures offset <= |s| ==> Covers(s, offset, 0, [])
  {
  }

  lemma LineStaysInside(base: seq<byte>, sent: seq<byte>, line: seq<byte>, written: seq<byte>)
    requires base + sent <= written <= base + sent + line
    ensures base <= written <= base + (sent + line)
    ensures written == base + sent + line ==> written == base + (sent + line)
  {
  }

  /** The range the arguments ask for. */
  datatype Request = Refused | Range(offset: nat, limit: int)

  /** limit is -1 when no length is given. */
  ghost function RequestOf(argv: seq<CString>): Request {
    if |argv| < 2 || |argv| > 4 then Refused
    else if |argv| >= 3 && !(IsNumeral(argv[2]) && NumeralValue(argv[2]) < 0x8000_0000) then Refused
    else
      var offset := if |argv| >= 3 then NumeralValue(argv[2]) else 0;
      if |argv| == 4 then
        if IsNumeral(argv[3]) && offset + NumeralValue(argv[3]) <= 0x8000_0000
        then Range(offset, NumeralValue(argv[3])) else Refused
      else Range(offset, -1)
  }

  method ParseRequest(argv: seq<CString>) returns (ok: bool, offset: ULONG, limited: bool, limit: ULONG)
    ensures ok <==> RequestOf(argv).Range?
    ensures ok ==> RequestOf(argv) == Range(offset, if limited then limit else -1)
    ensures ok ==> offset <= MAX_SEEK_OFFSET && (limited ==> limit <= SEEK_ADDRESS_SPACE - offset)
  {
    ok, offset, limited, limit := false, 0, false, 0;
    if |argv| < 2 || |argv| > 4 { return; }
    if |argv| >= 3 {
      ok, offset := ParseU32(argv[2]);
      if !ok { return; }
    }
    if offset > MAX_SEEK_OFFSET { ok := false; return; }
    if |argv| == 4 {
      ok, limit := ParseU32(argv[3]);
      if !ok { return; }
    }
    limited := |argv| == 4;
    var addressLeft: ULONG := SEEK_ADDRESS_SPACE - offset;
    ok := !(limited && limit > addressLeft);
  }

  /** Hex, on the file its first argument names, or null when that cannot be opened. */
  method Hex(argv: seq<CString>, file: InFile?, out: Sink)
    returns (code: int, ghost pieces: seq<seq<byte>>, ghost shown: nat)
    requires file != null ==> file.pos == 0 && !file.failed
    requires !out.failed
    modifies file, out
    ensures code == 0 || code == 5 || code == 10
    ensures code == 10 <==> RequestOf(argv).Refused?
    ensures code == 0 ==>
      && file != null && out.written == old(out.written) + Dump(RequestOf(argv).offset, pieces)
      && Covers(file.contents, RequestOf(argv).offset, shown, pieces)
      && RequestOf(argv).offset + shown
         == RangeEnd(|file.contents|, RequestOf(argv).offset, RequestOf(argv).limit)
    ensures code == 5 <==> RequestOf(argv).Range? && (file == null || file.failed || out.failed)
    ensures code == 10 || file == null ==> out.written == old(out.written)
    ensures code == 5 && file != null ==>
      && old(out.written) <= out.written <= old(out.written) + Dump(RequestOf(argv).offset, pieces)
      && (RequestOf(argv).offset <= |file.contents| ==> Covers(file.contents, RequestOf(argv).offset, shown, pieces))
  {
    pieces, shown := [], 0;
    var ok, offset, limited, limit := ParseRequest(argv);
    hide RequestOf;
    if !ok { return 10, pieces, shown; }
    if file == null { return 5, pieces, shown; }
    code, pieces, shown := DumpRange(file, out, offset, limited, limit);
  }

  /** Reading back the output of a successful run gives exactly the requested range, and every
      line is labelled with the position of its first byte. */
  lemma SuccessfulDumpReadsBack(s: seq<byte>, offset: nat, limit: int, pieces: seq<seq<byte>>, shown: nat)
    requires Covers(s, offset, shown, pieces)
    requires offset + shown == RangeEnd(|s|, offset, limit) <= |s|
    ensures RecordBytes(Undump(Dump(offset, pieces))) == s[offset..RangeEnd(|s|, offset, limit)]
    ensures Consecutive(Undump(Dump(offset, pieces)), offset)
  {
    DumpIsFaithful(offset, pieces);
  }
}
