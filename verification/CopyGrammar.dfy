/** The grammar of the COPY binary format as a relation between bytes and rows, with each of the parser's errors,
    and that the parser accepts and refuses exactly by it. */
module CopyGrammar {
  import opened Common
  import opened CopyBinary

  // ---------- Network byte order ----------

  /** The number that bytes stand for, the most significant first. */
  function BigEndian(b: Bytes): nat {
    if b == [] then 0 else 256 * BigEndian(b[..|b| - 1]) + b[|b| - 1] as nat
  }

  /** Two's complement of that many values. */
  function SignedOf(u: nat, size: nat): int { if 2 * u < size then u else u - size }

  lemma BigEndianTwo(a: Byte, b: Byte)
    ensures BigEndian([a, b]) == 256 * a as nat + b as nat
  {
    assert [a, b][..1] == [a] && [a][..0] == [];
    assert BigEndian([a]) == a as nat;
  }

  lemma BigEndianFour(a: Byte, b: Byte, c: Byte, d: Byte)
    ensures BigEndian([a, b, c, d]) == 0x100_0000 * a as nat + 0x1_0000 * b as nat + 0x100 * c as nat + d as nat
  {
    assert [a, b, c, d][..3] == [a, b, c] && [a, b, c][..2] == [a, b];
    BigEndianTwo(a, b);
    assert BigEndian([a, b, c]) == 256 * BigEndian([a, b]) + c as nat;
  }

  /** Counts and lengths are read from the wire as signed numbers in network byte order. */
  lemma ReadInOrder(a: Byte, b: Byte, c: Byte, d: Byte)
    ensures FromBeI16(a, b) == SignedOf(BigEndian([a, b]), 0x1_0000)
    ensures FromBeI32(a, b, c, d) == SignedOf(BigEndian([a, b, c, d]), 0x1_0000_0000)
  {
    BigEndianTwo(a, b);
    BigEndianFour(a, b, c, d);
  }

  /** And written so. */
  lemma WrittenInOrder(n: int)
    ensures -0x8000 <= n <= I16_MAX ==> |BeI16(n)| == 2 && SignedOf(BigEndian(BeI16(n)), 0x1_0000) == n
    ensures -0x8000_0000 <= n <= I32_MAX ==> SignedOf(BigEndian(BeI32(n)), 0x1_0000_0000) == n
  {
    if -0x8000 <= n <= I16_MAX {
      var s := BeI16(n);
      BeI16RoundTrip(n);
      ReadInOrder(s[0], s[1], 0, 0);
      assert s == [s[0], s[1]];
    }
    if -0x8000_0000 <= n <= I32_MAX {
      var s := BeI32(n);
      BeI32RoundTrip(n);
      ReadInOrder(s[0], s[1], s[2], s[3]);
      assert s == [s[0], s[1], s[2], s[3]];
    }
  }

  // ---------- Fields ----------

  predicate InI16(n: int) { -0x8000 <= n <= I16_MAX }

  predicate InI32(n: int) { -0x8000_0000 <= n <= I32_MAX }

  /** The bytes begin with a count, or a length, and go on with the rest. */
  predicate CountThen(bytes: Bytes, n: int, rest: Bytes) { InI16(n) && bytes == BeI16(n) + rest }

  predicate LengthThen(bytes: Bytes, n: int, rest: Bytes) { InI32(n) && bytes == BeI32(n) + rest }

  lemma CountInFront(bytes: Bytes)
    requires |bytes| >= 2
    ensures CountThen(bytes, FromBeI16(bytes[0], bytes[1]), bytes[2..])
    ensures forall n, rest :: CountThen(bytes, n, rest) ==> n == FromBeI16(bytes[0], bytes[1]) && rest == bytes[2..]
  {
    var n := FromBeI16(bytes[0], bytes[1]);
    BytesBack16(bytes[0], bytes[1]);
    assert bytes == BeI16(n) + bytes[2..];
    forall m, rest | CountThen(bytes, m, rest) ensures m == n && rest == bytes[2..] {
      BeI16RoundTrip(m);
      assert |BeI16(m)| == 2 && bytes[2..] == rest;
    }
  }

  lemma BytesBack16(a: Byte, b: Byte)
    ensures InI16(FromBeI16(a, b)) && BeI16(FromBeI16(a, b)) == [a, b]
  {
    var u := a as int * 0x100 + b as int;
    assert u / 0x100 == a as int && u % 0x100 == b as int;
    assert FromBeI16(a, b) % 0x1_0000 == u;
  }

  lemma BytesBack32(a: Byte, b: Byte, c: Byte, d: Byte)
    ensures InI32(FromBeI32(a, b, c, d)) && BeI32(FromBeI32(a, b, c, d)) == [a, b, c, d]
  {
    var u := a as int * 0x100_0000 + b as int * 0x1_0000 + c as int * 0x100 + d as int;
    assert FromBeI32(a, b, c, d) % 0x1_0000_0000 == u;
    assert u / 0x100 == a as int * 0x1_0000 + b as int * 0x100 + c as int;
    assert u / 0x1_0000 == a as int * 0x100 + b as int;
    assert u / 0x100_0000 == a as int;
  }

  lemma LengthInFront(bytes: Bytes)
    requires |bytes| >= 4
    ensures LengthThen(bytes, FromBeI32(bytes[0], bytes[1], bytes[2], bytes[3]), bytes[4..])
    ensures forall n, rest :: LengthThen(bytes, n, rest) ==>
              n == FromBeI32(bytes[0], bytes[1], bytes[2], bytes[3]) && rest == bytes[4..]
  {
    var n := FromBeI32(bytes[0], bytes[1], bytes[2], bytes[3]);
    BytesBack32(bytes[0], bytes[1], bytes[2], bytes[3]);
    assert bytes == BeI32(n) + bytes[4..];
    hide FromBeI32;
    forall m, rest | LengthThen(bytes, m, rest) ensures m == n && rest == bytes[4..] {
      BeI32RoundTrip(m);
      assert bytes[4..] == rest;
    }
  }

  /** A null is any negative length; a text its length and its bytes. */
  ghost predicate IsField(bytes: Bytes, f: Field, rest: Bytes) {
    match f
    case None => exists n :: n < 0 && LengthThen(bytes, n, rest)
    case Some(text) => IsUtf8(text) && LengthThen(bytes, |text|, text + rest)
  }

  ghost predicate IsFieldError(bytes: Bytes, e: ParseError) {
    match e
    case UnexpectedEof => |bytes| < 4
    case TruncatedField => exists n, rest :: LengthThen(bytes, n, rest) && n > |rest|
    case InvalidUtf8 => exists text, rest :: LengthThen(bytes, |text|, text + rest) && !IsUtf8(text)
    case WrongColumns(_) => false
  }

  lemma FieldIff(bytes: Bytes, f: Field, rest: Bytes, e: ParseError)
    ensures ParseField(bytes) == Ok((f, rest)) <==> IsField(bytes, f, rest)
    ensures ParseField(bytes) == Err(e) <==> IsFieldError(bytes, e)
  {
    if |bytes| < 4 {
      ShortField(bytes, f, rest, e);
    } else {
      LengthInFront(bytes);
      FieldOf(bytes, FromBeI32(bytes[0], bytes[1], bytes[2], bytes[3]), f, rest, e);
    }
  }

  lemma ShortField(bytes: Bytes, f: Field, rest: Bytes, e: ParseError)
    requires |bytes| < 4
    ensures ParseField(bytes) == Err(UnexpectedEof) && !IsField(bytes, f, rest)
    ensures IsFieldError(bytes, e) <==> e == UnexpectedEof
  {
    hide BeI32, IsUtf8;
  }

  lemma FieldOf(bytes: Bytes, n: int, f: Field, rest: Bytes, e: ParseError)
    requires |bytes| >= 4 && n == FromBeI32(bytes[0], bytes[1], bytes[2], bytes[3])
    requires LengthThen(bytes, n, bytes[4..])
    requires forall m, tail :: LengthThen(bytes, m, tail) ==> m == n && tail == bytes[4..]
    ensures ParseField(bytes) == Ok((f, rest)) <==> IsField(bytes, f, rest)
    ensures ParseField(bytes) == Err(e) <==> IsFieldError(bytes, e)
  {
    hide BeI32, FromBeI32, IsUtf8, LengthThen;
    var body := bytes[4..];
    if 0 <= n <= |body| {
      var text, tail := body[..n], body[n..];
      assert bytes[4..4 + n] == text && bytes[4 + n..] == tail;
      assert body == text + tail;
      forall t, r | LengthThen(bytes, |t|, t + r) ensures t == text && r == tail {
        assert (t + r)[..|t|] == t && (t + r)[|t|..] == r;
      }
    }
  }

  // ---------- Tuples ----------

  ghost predicate AreFields(bytes: Bytes, row: Row, rest: Bytes)
    decreases |row|
  {
    if row == [] then bytes == rest else exists mid :: IsField(bytes, row[0], mid) && AreFields(mid, row[1..], rest)
  }

  /** One of that many fields is wrong, after others that are not. */
  ghost predicate IsFieldsError(bytes: Bytes, count: nat, e: ParseError)
    decreases count
  {
    count > 0 &&
    (IsFieldError(bytes, e) || exists f, mid :: IsField(bytes, f, mid) && IsFieldsError(mid, count - 1, e))
  }

  /** The fields after the first. */
  function ThenFields(f: Field, rest: Result<(Row, Bytes), ParseError>): Result<(Row, Bytes), ParseError> {
    if rest.Err? then rest else Ok(([f] + rest.value.0, rest.value.1))
  }

  lemma FirstOfFields(bytes: Bytes, count: nat)
    requires count > 0
    ensures var first := ParseField(bytes);
            ParseFields(bytes, count) ==
            if first.Err? then Err(first.error)
            else ThenFields(first.value.0, ParseFields(first.value.1, count - 1))
  {
    hide ParseField;
  }

  lemma {:induction false} FieldsAccepted(bytes: Bytes, row: Row, rest: Bytes)
    ensures ParseFields(bytes, |row|) == Ok((row, rest)) <==> AreFields(bytes, row, rest)
    decreases |row|
  {
    if row != [] {
      hide ParseField, IsField, ParseFields;
      FirstOfFields(bytes, |row|);
      assert row == [row[0]] + row[1..];
      var first := ParseField(bytes);
      if first.Ok? {
        var (f, mid) := first.value;
        FieldsAccepted(mid, row[1..], rest);
        FieldIff(bytes, f, mid, UnexpectedEof);
        var later := ParseFields(mid, |row| - 1);
        assert later.Ok? ==> ([f] + later.value.0)[1..] == later.value.0 && ([f] + later.value.0)[0] == f;
      }
      forall mid | IsField(bytes, row[0], mid) ensures first == Ok((row[0], mid)) {
        FieldIff(bytes, row[0], mid, UnexpectedEof);
      }
    }
  }

  lemma {:induction false} FieldsRefused(bytes: Bytes, count: nat, e: ParseError)
    ensures ParseFields(bytes, count) == Err(e) <==> IsFieldsError(bytes, count, e)
    decreases count
  {
    if count > 0 {
      hide ParseField, IsField, IsFieldError, ParseFields;
      FirstOfFields(bytes, count);
      FieldIff(bytes, None, [], e);
      var first := ParseField(bytes);
      if first.Ok? {
        var (f, mid) := first.value;
        FieldIff(bytes, f, mid, e);
        FieldsRefused(mid, count - 1, e);
      }
      forall f, mid | IsField(bytes, f, mid) ensures first == Ok((f, mid)) { FieldIff(bytes, f, mid, e); }
    }
  }

  /** Every negative count but that of the trailer stands for no columns. */
  function WidthOf(n: int): nat { if n < 0 then 0 else n }

  ghost predicate TupleHead(bytes: Bytes, n: int, columns: nat, body: Bytes) {
    CountThen(bytes, n, body) && n != -1 && WidthOf(n) == columns
  }

  /** Rows, the trailer, and anything. */
  ghost predicate AreRows(bytes: Bytes, rows: seq<Row>, columns: nat)
    decreases |rows|
  {
    if rows == [] then exists junk :: CountThen(bytes, -1, junk)
    else
      exists n, body, rest ::
        && TupleHead(bytes, n, columns, body) && |rows[0]| == columns && AreFields(body, rows[0], rest)
        && AreRows(rest, rows[1..], columns)
  }

  lemma TupleFirst(bytes: Bytes, n: int, columns: nat, body: Bytes)
    requires TupleHead(bytes, n, columns, body)
    ensures ParseRows(bytes, columns) == ThenRows(ParseFields(body, columns), columns)
  {
    hide ParseFields;
    CountInFront(bytes);
    RowThenRows(bytes, columns);
  }

  lemma HeadOf(bytes: Bytes, columns: nat)
    requires |bytes| >= 2
    ensures var n := FromBeI16(bytes[0], bytes[1]);
            && (n != -1 && WidthOf(n) == columns <==> TupleHead(bytes, n, columns, bytes[2..]))
            && (forall m, body :: TupleHead(bytes, m, columns, body) ==> m == n && body == bytes[2..])
            && (n == -1 <==> exists junk :: CountThen(bytes, -1, junk))
  {
    CountInFront(bytes);
    hide FromBeI16, CountThen;
  }

  lemma TrailerIs(bytes: Bytes, columns: nat)
    ensures ParseRows(bytes, columns) == Ok([]) <==> exists junk :: CountThen(bytes, -1, junk)
  {
    hide ParseFields, BeI16;
    if |bytes| >= 2 { HeadOf(bytes, columns); } else { ShortCount(bytes); }
    hide FromBeI16, CountThen;
  }

  lemma ShortCount(bytes: Bytes)
    requires |bytes| < 2
    ensures forall n, rest :: !CountThen(bytes, n, rest)
  {
    forall n, rest ensures !CountThen(bytes, n, rest) {
      if InI16(n) { assert |BeI16(n)| == 2; }
    }
  }

  /** The parser accepts the bytes as these rows exactly when the grammar does. */
  lemma {:induction false} RowsAccepted(bytes: Bytes, rows: seq<Row>, columns: nat)
    ensures ParseRows(bytes, columns) == Ok(rows) <==> AreRows(bytes, rows, columns)
    decreases |rows|
  {
    if rows == [] {
      TrailerIs(bytes, columns);
    } else if |bytes| < 2 {
      ShortCount(bytes);
    } else {
      var n, body := FromBeI16(bytes[0], bytes[1]), bytes[2..];
      HeadOf(bytes, columns);
      TrailerIs(bytes, columns);
      hide ParseFields, TupleHead, CountThen;
      if n == -1 {
        assert ParseRows(bytes, columns) == Ok([]);
      } else if WidthOf(n) != columns {
        assert ParseRows(bytes, columns) == Err(WrongColumns(n));
      } else {
        TupleFirst(bytes, n, columns, body);
        hide ParseRows;
        TupleAccepted(bytes, rows, columns, n, body);
      }
    }
  }

  lemma TupleAccepted(bytes: Bytes, rows: seq<Row>, columns: nat, n: int, body: Bytes)
    requires rows != [] && TupleHead(bytes, n, columns, body)
    requires forall m, other :: TupleHead(bytes, m, columns, other) ==> m == n && other == body
    requires ParseRows(bytes, columns) == ThenRows(ParseFields(body, columns), columns)
    ensures ParseRows(bytes, columns) == Ok(rows) <==> AreRows(bytes, rows, columns)
    decreases |rows|, 0
  {
    hide ParseRows, TupleHead, AreFields;
    var row := rows[0];
    assert rows == [row] + rows[1..];
    var first := ParseFields(body, columns);
    if first.Ok? {
      var (fields, rest) := first.value;
      RowsAccepted(rest, rows[1..], columns);
      FieldsAccepted(body, fields, rest);
      var later := ParseRows(rest, columns);
      assert later.Ok? ==> ([fields] + later.value)[1..] == later.value && ([fields] + later.value)[0] == fields;
    }
    forall rest | |row| == columns && AreFields(body, row, rest) ensures first == Ok((row, rest)) {
      FieldsAccepted(body, row, rest);
    }
  }

  /** Too short for a count, a tuple of another width, or a wrong field, after tuples that are right. */
  ghost predicate IsRowsError(bytes: Bytes, columns: nat, e: ParseError)
    decreases |bytes|
  {
    || (|bytes| < 2 && e == UnexpectedEof)
    || (exists n, body :: CountThen(bytes, n, body) && n != -1 && WidthOf(n) != columns && e == WrongColumns(n))
    || (exists n, body :: TupleHead(bytes, n, columns, body) && IsFieldsError(body, columns, e))
    || (exists n, body, row, rest ::
          && TupleHead(bytes, n, columns, body) && |row| == columns && AreFields(body, row, rest)
          && |rest| < |bytes| && IsRowsError(rest, columns, e))
  }

  lemma HeadRefused(bytes: Bytes, columns: nat, e: ParseError)
    requires |bytes| >= 2
    ensures var n := FromBeI16(bytes[0], bytes[1]);
            (exists m, body :: CountThen(bytes, m, body) && m != -1 && WidthOf(m) != columns && e == WrongColumns(m))
            <==> n != -1 && WidthOf(n) != columns && e == WrongColumns(n)
  {
    CountInFront(bytes);
    hide FromBeI16, CountThen;
    assert CountThen(bytes, FromBeI16(bytes[0], bytes[1]), bytes[2..]);
  }

  lemma NoTuple(bytes: Bytes, columns: nat, e: ParseError)
    requires |bytes| >= 2
    requires var n := FromBeI16(bytes[0], bytes[1]); n == -1 || WidthOf(n) != columns
    ensures ParseRows(bytes, columns) == Err(e) <==> IsRowsError(bytes, columns, e)
  {
    hide ParseFields, CountThen, IsFieldsError, AreFields;
    HeadOf(bytes, columns);
    HeadRefused(bytes, columns, e);
    hide TupleHead;
  }

  /** And refuses them with this error exactly when the grammar does. */
  lemma {:induction false} RowsRefused(bytes: Bytes, columns: nat, e: ParseError)
    ensures ParseRows(bytes, columns) == Err(e) <==> IsRowsError(bytes, columns, e)
    decreases |bytes|
  {
    if |bytes| < 2 {
      ShortCount(bytes);
      hide CountThen;
    } else {
      hide IsRowsError, ParseRows;
      var n, body := FromBeI16(bytes[0], bytes[1]), bytes[2..];
      if n == -1 || WidthOf(n) != columns {
        NoTuple(bytes, columns, e);
      } else {
        HeadOf(bytes, columns);
        CountInFront(bytes);
        hide TupleHead, CountThen, FromBeI16;
        TupleFirst(bytes, n, columns, body);
        TupleRefused(bytes, columns, e, n, body);
      }
    }
  }

  lemma TupleRefused(bytes: Bytes, columns: nat, e: ParseError, n: int, body: Bytes)
    requires TupleHead(bytes, n, columns, body) && |bytes| >= 2 && |body| < |bytes|
    requires forall m, other :: TupleHead(bytes, m, columns, other) ==> m == n && other == body
    requires forall m, other :: CountThen(bytes, m, other) ==> m == -1 || WidthOf(m) == columns
    requires ParseRows(bytes, columns) == ThenRows(ParseFields(body, columns), columns)
    ensures ParseRows(bytes, columns) == Err(e) <==> IsRowsError(bytes, columns, e)
    decreases |bytes|, 0
  {
    hide ParseRows, TupleHead, AreFields, CountThen, IsFieldsError;
    FieldsRefused(body, columns, e);
    var first := ParseFields(body, columns);
    if first.Ok? {
      var (fields, rest) := first.value;
      FieldsAccepted(body, fields, rest);
      RowsRefused(rest, columns, e);
    }
    forall row, rest | |row| == columns && AreFields(body, row, rest) ensures first == Ok((row, rest)) {
      FieldsAccepted(body, row, rest);
    }
  }

  /** The signature of the format. */
  lemma SignatureIs()
    ensures |HEADER| == 11 && (forall i :: 0 <= i < 7 ==> HEADER[i] as int == "PGCOPY\n"[i] as int)
    ensures HEADER[7..] == [0xFF, 0x0D, 0x0A, 0x00]
  {
  }

  /** Whole files, with the signature or without. */
  lemma FileIff(data: Bytes, rows: seq<Row>, columns: nat, e: ParseError)
    ensures var body := if HEADER <= data then data[|HEADER|..] else data;
            && (Parse(data, columns) == Ok(rows) <==> AreRows(body, rows, columns))
            && (Parse(data, columns) == Err(e) <==> IsRowsError(body, columns, e))
  {
    hide ParseRows, AreRows, IsRowsError;
    var body := if HEADER <= data then data[|HEADER|..] else data;
    RowsAccepted(body, rows, columns);
    RowsRefused(body, columns, e);
  }
}
