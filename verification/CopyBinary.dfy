/** COPY in binary format (PostgreSQL documentation, reference page COPY,
    section "File Formats", subsection "Binary Format"): the row encoder and the
    parser, with the header that this code writes and reads, which is the
    11-byte signature alone. A text field is its UTF-8 bytes. */
module CopyBinary {
  import opened Common

  type Field = Option<Bytes>

  type Row = seq<Field>

  datatype ParseError = UnexpectedEof | WrongColumns(got: int) | TruncatedField | InvalidUtf8

  const HEADER: Bytes := [0x50, 0x47, 0x43, 0x4F, 0x50, 0x59, 0x0A, 0xFF, 0x0D, 0x0A, 0x00]

  const I16_MAX: int := 0x7fff
  const I32_MAX: int := 0x7fff_ffff

  // ---------- Big-endian integers ----------

  function BeI16(n: int): Bytes
    requires -0x8000 <= n <= I16_MAX
  {
    var u := n % 0x1_0000;
    [(u / 0x100) as Byte, (u % 0x100) as Byte]
  }

  function FromBeI16(hi: Byte, lo: Byte): int {
    var u := hi as int * 0x100 + lo as int;
    if u > I16_MAX then u - 0x1_0000 else u
  }

  function BeI32(n: int): (s: Bytes)
    requires -0x8000_0000 <= n <= I32_MAX
    ensures |s| == 4
  {
    var u := n % 0x1_0000_0000;
    [(u / 0x100_0000) as Byte, (u / 0x1_0000 % 0x100) as Byte, (u / 0x100 % 0x100) as Byte, (u % 0x100) as Byte]
  }

  function FromBeI32(a: Byte, b: Byte, c: Byte, d: Byte): int {
    var u := a as int * 0x100_0000 + b as int * 0x1_0000 + c as int * 0x100 + d as int;
    if u > I32_MAX then u - 0x1_0000_0000 else u
  }

  lemma BeI16RoundTrip(n: int)
    requires -0x8000 <= n <= I16_MAX
    ensures FromBeI16(BeI16(n)[0], BeI16(n)[1]) == n
  {
  }

  lemma BeI32RoundTrip(n: int)
    requires -0x8000_0000 <= n <= I32_MAX
    ensures var s := BeI32(n); FromBeI32(s[0], s[1], s[2], s[3]) == n
  {
    var u := n % 0x1_0000_0000;
    var a, b, c := u / 0x100_0000, u / 0x1_0000 % 0x100, u / 0x100 % 0x100;
    assert u == a * 0x100_0000 + b * 0x1_0000 + c * 0x100 + u % 0x100;
  }

  // ---------- Encoding ----------

  /** `i16::try_from(n).unwrap_or(0)` and `i32::try_from(n).unwrap_or(0)`. */
  function I16OrZero(n: nat): int { if n <= I16_MAX then n else 0 }

  function I32OrZero(n: nat): int { if n <= I32_MAX then n else 0 }

  function EncodeField(f: Field): Bytes {
    match f
    case None => BeI32(-1)
    case Some(text) => BeI32(I32OrZero(|text|)) + text
  }

  function EncodeFields(row: Row): Bytes {
    if row == [] then [] else EncodeField(row[0]) + EncodeFields(row[1..])
  }

  function EncodeRow(row: Row): Bytes { BeI16(I16OrZero(|row|)) + EncodeFields(row) }

  function EncodeAll(rows: seq<Row>): Bytes {
    if rows == [] then [] else EncodeRow(rows[0]) + EncodeAll(rows[1..])
  }

  function EncodeRows(rows: seq<Row>): Bytes { EncodeAll(rows) + BeI16(-1) }

  lemma {:induction false} EncodeFieldsPush(row: Row, f: Field)
    ensures EncodeFields(row + [f]) == EncodeFields(row) + EncodeField(f)
  {
    if row == [] {
      assert row + [f] == [f] && [f][1..] == [];
    } else {
      assert (row + [f])[1..] == row[1..] + [f];
      EncodeFieldsPush(row[1..], f);
    }
  }

  lemma {:induction false} EncodeAllPush(rows: seq<Row>, row: Row)
    ensures EncodeAll(rows + [row]) == EncodeAll(rows) + EncodeRow(row)
  {
    if rows == [] {
      assert rows + [row] == [row] && [row][1..] == [];
    } else {
      assert (rows + [row])[1..] == rows[1..] + [row];
      EncodeAllPush(rows[1..], row);
    }
  }

  method AppendField(start: Bytes, f: Field) returns (out: Bytes)
    ensures out == start + EncodeField(f)
  {
    match f
    case None => out := start + BeI32(-1);
    case Some(text) =>
      out := start + BeI32(I32OrZero(|text|));
      out := out + text;
  }

  method AppendRow(start: Bytes, row: Row) returns (out: Bytes)
    ensures out == start + EncodeRow(row)
  {
    hide BeI16, EncodeField;
    out := start + BeI16(I16OrZero(|row|));
    for i := 0 to |row|
      invariant out == start + (BeI16(I16OrZero(|row|)) + EncodeFields(row[..i]))
    {
      EncodeFieldsPush(row[..i], row[i]);
      assert row[..i + 1] == row[..i] + [row[i]];
      out := AppendField(out, row[i]);
    }
    assert row[..|row|] == row;
  }

  method EncodeCopyBinaryRows(rows: seq<Row>) returns (out: Bytes)
    ensures out == EncodeRows(rows)
  {
    out := [];
    for i := 0 to |rows|
      invariant out == EncodeAll(rows[..i])
    {
      EncodeAllPush(rows[..i], rows[i]);
      assert rows[..i + 1] == rows[..i] + [rows[i]];
      out := AppendRow(out, rows[i]);
    }
    assert rows[..|rows|] == rows;
    out := out + BeI16(-1);
  }

  method EncodeCopyBinaryFile(rows: seq<Row>) returns (out: Bytes)
    ensures out == HEADER + EncodeRows(rows)
  {
    var body := EncodeCopyBinaryRows(rows);
    out := HEADER + body;
  }

  // ---------- Parsing ----------

  function ParseField(bytes: Bytes): (r: Result<(Field, Bytes), ParseError>)
    ensures r.Ok? ==> |r.value.1| < |bytes|
  {
    if |bytes| < 4 then Err(UnexpectedEof)
    else
      var len := FromBeI32(bytes[0], bytes[1], bytes[2], bytes[3]);
      if len < 0 then Ok((None, bytes[4..]))
      else if 4 + len > |bytes| then Err(TruncatedField)
      else if !IsUtf8(bytes[4..4 + len]) then Err(InvalidUtf8)
      else Ok((Some(bytes[4..4 + len]), bytes[4 + len..]))
  }

  function ParseFields(bytes: Bytes, count: nat): (r: Result<(Row, Bytes), ParseError>)
    ensures r.Ok? ==> |r.value.0| == count && |r.value.1| <= |bytes|
  {
    if count == 0 then Ok(([], bytes))
    else
      var (f, rest) :- ParseField(bytes);
      var (fs, end) :- ParseFields(rest, count - 1);
      Ok(([f] + fs, end))
  }

  function ParseRows(bytes: Bytes, columns: nat): (r: Result<seq<Row>, ParseError>)
    ensures r.Ok? ==> forall i :: 0 <= i < |r.value| ==> |r.value[i]| == columns
    decreases |bytes|
  {
    if |bytes| < 2 then Err(UnexpectedEof)
    else
      var count := FromBeI16(bytes[0], bytes[1]);
      if count == -1 then Ok([])
      else if (if count < 0 then 0 else count) != columns then Err(WrongColumns(count))
      else
        var (row, rest) :- ParseFields(bytes[2..], columns);
        var rows :- ParseRows(rest, columns);
        Ok([row] + rows)
  }

  function Parse(data: Bytes, columns: nat): Result<seq<Row>, ParseError> {
    ParseRows(if HEADER <= data then data[|HEADER|..] else data, columns)
  }

  function Prepend<T>(done: seq<T>, r: Result<seq<T>, ParseError>): Result<seq<T>, ParseError> {
    if r.Ok? then Ok(done + r.value) else r
  }

  function ThenRows(first: Result<(Row, Bytes), ParseError>, columns: nat): Result<seq<Row>, ParseError> {
    if first.Err? then Err(first.error) else Prepend([first.value.0], ParseRows(first.value.1, columns))
  }

  function PrependFields(done: Row, r: Result<(Row, Bytes), ParseError>): Result<(Row, Bytes), ParseError> {
    if r.Ok? then Ok((done + r.value.0, r.value.1)) else r
  }

  method ReadI16Be(data: Bytes, start: nat) returns (r: Result<int, ParseError>, pos: nat)
    requires start <= |data|
    ensures r.Ok? <==> start + 2 <= |data|
    ensures r.Ok? ==> pos == start + 2 && r.value == FromBeI16(data[start], data[start + 1])
    ensures r.Err? ==> r.error == UnexpectedEof
  {
    pos := start;
    if pos + 2 > |data| {
      return Err(UnexpectedEof), pos;
    }
    r := Ok(FromBeI16(data[pos], data[pos + 1]));
    pos := pos + 2;
  }

  method ReadI32Be(data: Bytes, start: nat) returns (r: Result<int, ParseError>, pos: nat)
    requires start <= |data|
    ensures r.Ok? <==> start + 4 <= |data|
    ensures r.Ok? ==>
      pos == start + 4 && r.value == FromBeI32(data[start], data[start + 1], data[start + 2], data[start + 3])
    ensures r.Err? ==> r.error == UnexpectedEof
  {
    pos := start;
    if pos + 4 > |data| {
      return Err(UnexpectedEof), pos;
    }
    r := Ok(FromBeI32(data[pos], data[pos + 1], data[pos + 2], data[pos + 3]));
    pos := pos + 4;
  }

  method ReadField(data: Bytes, start: nat) returns (r: Result<Field, ParseError>, pos: nat)
    requires start <= |data|
    ensures match ParseField(data[start..])
            case Ok((f, rest)) => r == Ok(f) && start < pos <= |data| && data[pos..] == rest
            case Err(e) => r == Err(e)
  {
    var len;
    len, pos := ReadI32Be(data, start);
    if len.Err? {
      return Err(len.error), pos;
    }
    if len.value < 0 {
      assert data[start..][4..] == data[pos..];
      return Ok(None), pos;
    }
    if pos + len.value > |data| {
      return Err(TruncatedField), pos;
    }
    var bytes := data[pos..pos + len.value];
    assert bytes == data[start..][4..4 + len.value];
    pos := pos + len.value;
    assert data[start..][4 + len.value..] == data[pos..];
    if !IsUtf8(bytes) {
      return Err(InvalidUtf8), pos;
    }
    r := Ok(Some(bytes));
  }

  method ReadRow(data: Bytes, start: nat, columns: nat) returns (r: Result<Row, ParseError>, pos: nat)
    requires start <= |data|
    ensures match ParseFields(data[start..], columns)
            case Ok((row, rest)) => r == Ok(row) && start <= pos <= |data| && data[pos..] == rest
            case Err(e) => r == Err(e)
  {
    var row: Row := [];
    pos := start;
    ghost var all := ParseFields(data[start..], columns);
    assert all.Ok? ==> [] + all.value.0 == all.value.0;
    for i := 0 to columns
      invariant start <= pos <= |data|
      invariant ParseFields(data[start..], columns) == PrependFields(row, ParseFields(data[pos..], columns - i))
    {
      var f, next := ReadField(data, pos);
      if f.Err? {
        return Err(f.error), next;
      }
      ghost var tail := ParseFields(data[next..], columns - i - 1);
      assert tail.Ok? ==> row + ([f.value] + tail.value.0) == row + [f.value] + tail.value.0;
      row := row + [f.value];
      pos := next;
    }
    assert row + [] == row;
    r := Ok(row);
  }

  lemma PrependRow(rows: seq<Row>, row: Row, r: Result<seq<Row>, ParseError>)
    ensures Prepend(rows, Prepend([row], r)) == Prepend(rows + [row], r)
  {
    if r.Ok? {
      assert rows + ([row] + r.value) == rows + [row] + r.value;
    }
  }

  lemma RowThenRows(bytes: Bytes, columns: nat)
    requires |bytes| >= 2
    requires var count := FromBeI16(bytes[0], bytes[1]); count != -1 && (if count < 0 then 0 else count) == columns
    ensures ParseRows(bytes, columns) == ThenRows(ParseFields(bytes[2..], columns), columns)
  {
  }

  method ParseBody(data: Bytes, start: nat, columns: nat) returns (r: Result<seq<Row>, ParseError>)
    requires start <= |data|
    ensures r == ParseRows(data[start..], columns)
  {
    var pos := start;
    var rows: seq<Row> := [];
    ghost var all := ParseRows(data[start..], columns);
    assert all.Ok? ==> [] + all.value == all.value;
    hide FromBeI16, ParseFields;
    while true
      invariant start <= pos <= |data|
      invariant all == Prepend(rows, ParseRows(data[pos..], columns))
      decreases |data| - pos
    {
      ghost var here := data[pos..];
      var count, next := ReadI16Be(data, pos);
      if count.Err? {
        return Err(count.error);
      }
      assert count.value == FromBeI16(here[0], here[1]);
      if count.value == -1 {
        assert rows + [] == rows;
        break;
      }
      if (if count.value < 0 then 0 else count.value) != columns {
        return Err(WrongColumns(count.value));
      }
      assert here[2..] == data[next..];
      RowThenRows(here, columns);
      var row, end := ReadRow(data, next, columns);
      if row.Err? {
        return Err(row.error);
      }
      PrependRow(rows, row.value, ParseRows(data[end..], columns));
      rows := rows + [row.value];
      pos := end;
    }
    r := Ok(rows);
  }

  method ParseCopyBinaryFormat(data: Bytes, columns: nat) returns (r: Result<seq<Row>, ParseError>)
    ensures r == Parse(data, columns)
  {
    var pos := 0;
    if |data| >= |HEADER| && data[..|HEADER|] == HEADER {
      pos := |HEADER|;
    }
    assert data[0..] == data;
    r := ParseBody(data, pos, columns);
  }

  // ---------- Round trip ----------

  ghost predicate Texts(rows: seq<Row>) {
    forall i, j :: 0 <= i < |rows| && 0 <= j < |rows[i]| && rows[i][j].Some? ==> IsUtf8(rows[i][j].value)
  }

  predicate FitsField(f: Field) { f.Some? ==> |f.value| <= I32_MAX }

  predicate FitsRow(row: Row) { forall j :: 0 <= j < |row| ==> FitsField(row[j]) }

  /** Rows of the requested width, at most 32767 columns, and no field longer
      than an i32 can say. */
  predicate Encodable(rows: seq<Row>, columns: nat) {
    forall i :: 0 <= i < |rows| ==> |rows[i]| == columns <= I16_MAX && FitsRow(rows[i])
  }

  lemma ParsePrefixed(len: int, body: Bytes)
    requires -1 <= len <= I32_MAX && len <= |body|
    ensures ParseField(BeI32(len) + body) ==
            if len < 0 then Ok((None, body))
            else if IsUtf8(body[..len]) then Ok((Some(body[..len]), body[len..]))
            else Err(InvalidUtf8)
  {
    BeI32RoundTrip(len);
    hide BeI32, FromBeI32, IsUtf8;
    var bytes := BeI32(len) + body;
    assert bytes[4..] == body;
    if len >= 0 {
      assert bytes[4..4 + len] == body[..len];
      assert bytes[4 + len..] == body[len..];
    }
  }

  lemma TextRoundTrip(text: Bytes, tail: Bytes)
    requires IsUtf8(text)
    ensures ParseField(EncodeField(Some(text)) + tail) ==
            if |text| <= I32_MAX then Ok((Some(text), tail)) else Ok((Some([]), text + tail))
  {
    assert IsUtf8([]);
    hide BeI32, IsUtf8, ParseField;
    var len, body := I32OrZero(|text|), text + tail;
    assert EncodeField(Some(text)) + tail == BeI32(len) + body;
    ParsePrefixed(len, body);
    if |text| <= I32_MAX {
      assert body[..len] == text && body[len..] == tail;
    } else {
      assert body[..len] == [] && body[len..] == body;
    }
  }

  /** What the parser makes of one encoded field: the field itself, or the empty
      text when its length did not fit. */
  lemma FieldRoundTrip(f: Field, tail: Bytes)
    requires f.Some? ==> IsUtf8(f.value)
    ensures FitsField(f) ==> ParseField(EncodeField(f) + tail) == Ok((f, tail))
    ensures !FitsField(f) ==> ParseField(EncodeField(f) + tail) == Ok((Some([]), f.value + tail))
  {
    hide BeI32, IsUtf8, ParseField;
    if f.Some? {
      hide EncodeField;
      TextRoundTrip(f.value, tail);
    } else {
      ParsePrefixed(-1, tail);
    }
  }

  lemma {:induction false} FieldsRoundTrip(row: Row, tail: Bytes)
    requires forall j :: 0 <= j < |row| && row[j].Some? ==> IsUtf8(row[j].value)
    ensures FitsRow(row) ==> ParseFields(EncodeFields(row) + tail, |row|) == Ok((row, tail))
    ensures !FitsRow(row) ==>
              var r := ParseFields(EncodeFields(row) + tail, |row|);
              r.Err? || r.value.0 != row
  {
    if row != [] {
      hide EncodeField, ParseField;
      var rest := EncodeFields(row[1..]) + tail;
      assert EncodeFields(row) + tail == EncodeField(row[0]) + rest;
      FieldRoundTrip(row[0], rest);
      assert row == [row[0]] + row[1..];
      if FitsField(row[0]) {
        FieldsRoundTrip(row[1..], tail);
        assert FitsRow(row) <==> FitsRow(row[1..]);
      }
    } else {
      assert EncodeFields(row) + tail == tail;
    }
  }

  lemma ParseCounted(count: int, body: Bytes, columns: nat)
    requires 0 <= count <= I16_MAX
    ensures count != columns ==> ParseRows(BeI16(count) + body, columns) == Err(WrongColumns(count))
    ensures count == columns ==>
              ParseRows(BeI16(count) + body, columns) == ThenRows(ParseFields(body, columns), columns)
  {
    BeI16RoundTrip(count);
    var bytes := BeI16(count) + body;
    assert |BeI16(count)| == 2 && bytes[2..] == body;
    hide BeI16, FromBeI16, ParseFields;
  }

  /** An encoded row is read back as the first row exactly when it fits. */
  lemma RowRoundTrip(row: Row, rest: Bytes, columns: nat)
    requires forall j :: 0 <= j < |row| && row[j].Some? ==> IsUtf8(row[j].value)
    ensures var r := ParseRows(EncodeRow(row) + rest, columns);
            if |row| == columns <= I16_MAX && FitsRow(row) then r == Prepend([row], ParseRows(rest, columns))
            else r.Err? || r.value == [] || r.value[0] != row
    ensures |row| == columns > I16_MAX ==> ParseRows(EncodeRow(row) + rest, columns) == Err(WrongColumns(0))
  {
    hide BeI16, ParseFields, ParseField, FitsRow, EncodeFields;
    var count, body := I16OrZero(|row|), EncodeFields(row) + rest;
    assert EncodeRow(row) + rest == BeI16(count) + body;
    ParseCounted(count, body, columns);
    if |row| == columns <= I16_MAX {
      FieldsRoundTrip(row, rest);
    }
  }

  lemma EncodeRowsFront(rows: seq<Row>, junk: Bytes)
    requires rows != []
    ensures EncodeRows(rows) + junk == EncodeRow(rows[0]) + (EncodeRows(rows[1..]) + junk)
  {
  }

  lemma {:induction false} RowsRoundTrip(rows: seq<Row>, columns: nat, junk: Bytes)
    requires Texts(rows)
    ensures ParseRows(EncodeRows(rows) + junk, columns) == Ok(rows) <==> Encodable(rows, columns)
  {
    if rows == [] {
      BeI16RoundTrip(-1);
    } else {
      hide EncodeRow, ParseRows, FitsRow, EncodeRows;
      var row, rest := rows[0], EncodeRows(rows[1..]) + junk;
      EncodeRowsFront(rows, junk);
      assert rows == [row] + rows[1..];
      RowRoundTrip(row, rest, columns);
      RowsRoundTrip(rows[1..], columns, junk);
    }
  }

  lemma SignatureNeedsFF(row: Row, rest: Bytes)
    requires forall j :: 0 <= j < |row| && row[j].Some? ==> IsUtf8(row[j].value)
    requires HEADER[..6] <= EncodeRow(row) + rest
    ensures var bytes := EncodeRow(row) + rest;
            |bytes| > 7 && bytes[7] != HEADER[7]
  {
    var bytes := EncodeRow(row) + rest;
    var count := I16OrZero(|row|);
    BeI16RoundTrip(count);
    assert BeI16(count)[0] == bytes[0] == 0x50 && BeI16(count)[1] == bytes[1] == 0x47;
    assert count == |row| == 20551;
    var f := row[0];
    var len := if f.None? then -1 else I32OrZero(|f.value|);
    BeI32RoundTrip(len);
    var s := BeI32(len);
    assert s[0] == bytes[2] == 0x43 && s[1] == bytes[3] == 0x4F && s[2] == bytes[4] == 0x50 && s[3] == bytes[5] == 0x59;
    assert len == 1129271385;
    assert f.value[1] == bytes[7];
    Utf8HasNoFF(f.value, 1);
  }

  /** The bytes of encoded rows never begin with the signature, whatever follows
      them: its eighth byte would have to be in a text, and is not UTF-8. */
  lemma NeverSignature(rows: seq<Row>, junk: Bytes)
    requires Texts(rows)
    ensures !(HEADER <= EncodeRows(rows) + junk)
  {
    var bytes := EncodeRows(rows) + junk;
    if rows == [] {
      assert bytes[0] == 0xFF;
    } else {
      hide EncodeRow, EncodeRows;
      EncodeRowsFront(rows, junk);
      if HEADER[..6] <= bytes {
        SignatureNeedsFF(rows[0], EncodeRows(rows[1..]) + junk);
      }
    }
  }

  /** Parsing gives back exactly the encoded rows, with or without the file header
      and whatever follows the trailer, if and only if the rows can be encoded. */
  lemma CopyRoundTrip(rows: seq<Row>, columns: nat, header: bool, junk: Bytes)
    requires Texts(rows)
    ensures Parse((if header then HEADER else []) + EncodeRows(rows) + junk, columns) == Ok(rows)
            <==> Encodable(rows, columns)
  {
    hide EncodeRows, ParseRows, Encodable;
    RowsRoundTrip(rows, columns, junk);
    var data := (if header then HEADER else []) + EncodeRows(rows) + junk;
    if header {
      assert data[|HEADER|..] == EncodeRows(rows) + junk;
    } else {
      assert data == EncodeRows(rows) + junk;
      NeverSignature(rows, junk);
    }
  }
}
