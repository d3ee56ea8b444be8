/** A dump's INSERT lines, as the bytes that the shell writes and the writer behind `.clone` reads: what
    in a table's name or in a row makes a line fall apart on its way. */
module DumpText {
  import opened Common
  import opened Decimal
  import opened ApplyWriter
  import opened Literals

  // ---------- UTF-8 ----------

  /** A character in UTF-8 (table 3-6 of The Unicode Standard). */
  function EncodeChar(c: char): (b: Bytes)
    ensures |b| >= 1
    ensures c as int < 0x80 ==> b == [c as int as Byte]
    ensures c as int >= 0x80 ==> forall k :: 0 <= k < |b| ==> b[k] >= 0x80
  {
    var n := c as int;
    if n < 0x80 then [n as Byte]
    else if n < 0x800 then [(0xC0 + n / 64) as Byte, (0x80 + n % 64) as Byte]
    else if n < 0x10000 then [(0xE0 + n / 4096) as Byte, (0x80 + n / 64 % 64) as Byte, (0x80 + n % 64) as Byte]
    else [(0xF0 + n / 262144) as Byte, (0x80 + n / 4096 % 64) as Byte, (0x80 + n / 64 % 64) as Byte,
          (0x80 + n % 64) as Byte]
  }

  function Encode(s: string): Bytes {
    if s == [] then [] else EncodeChar(s[0]) + Encode(s[1..])
  }

  lemma {:induction false} EncodeConcat(a: string, b: string)
    ensures Encode(a + b) == Encode(a) + Encode(b)
  {
    hide EncodeChar;
    if a == [] {
      assert a + b == b;
    } else {
      assert (a + b)[1..] == a[1..] + b;
      EncodeConcat(a[1..], b);
      assert EncodeChar(a[0]) + (Encode(a[1..]) + Encode(b)) == EncodeChar(a[0]) + Encode(a[1..]) + Encode(b);
    }
  }

  lemma LeadOfChar(c: char, rest: Bytes)
    ensures LeadLength(EncodeChar(c) + rest) == |EncodeChar(c)|
  {
  }

  /** What is written is never refused as no UTF-8. */
  lemma {:induction false} EncodeIsUtf8(s: string)
    ensures IsUtf8(Encode(s))
  {
    hide EncodeChar, LeadLength;
    if s != [] {
      var first, rest := EncodeChar(s[0]), Encode(s[1..]);
      EncodeIsUtf8(s[1..]);
      LeadOfChar(s[0], rest);
      assert (first + rest)[|first|..] == rest;
    }
  }

  lemma Digits64(hi: int, mid: int, low: int)
    requires hi >= 0 && 0 <= mid < 64 && 0 <= low < 64
    ensures var n := hi * 4096 + mid * 64 + low; n / 4096 == hi && n / 64 % 64 == mid && n % 64 == low
  {
    var n := hi * 4096 + mid * 64 + low;
    assert n / 64 == hi * 64 + mid;
  }

  /** The character that a well-formed sequence of two, three or four bytes stands for. */
  lemma DecodeTwo(b: Bytes) returns (c: char)
    requires |b| == 2 && LeadLength(b) == 2
    ensures EncodeChar(c) == b
  {
    var hi, low := b[0] as int - 0xC0, b[1] as int - 0x80;
    c := (hi * 64 + low) as char;
    assert (hi * 64 + low) / 64 == hi && (hi * 64 + low) % 64 == low;
  }

  lemma DecodeThree(b: Bytes) returns (c: char)
    requires |b| == 3 && LeadLength(b) == 3
    ensures EncodeChar(c) == b
  {
    var hi, mid, low := b[0] as int - 0xE0, b[1] as int - 0x80, b[2] as int - 0x80;
    Digits64(hi, mid, low);
    c := (hi * 4096 + mid * 64 + low) as char;
  }

  lemma DecodeFour(b: Bytes) returns (c: char)
    requires |b| == 4 && LeadLength(b) == 4
    ensures EncodeChar(c) == b
  {
    var top, hi, mid, low := b[0] as int - 0xF0, b[1] as int - 0x80, b[2] as int - 0x80, b[3] as int - 0x80;
    Digits64(top * 64 + hi, mid, low);
    var n := (top * 64 + hi) * 4096 + mid * 64 + low;
    assert n / 262144 == top && n / 4096 % 64 == hi;
    c := n as char;
  }

  lemma DecodeChar(b: Bytes) returns (c: char)
    requires b != [] && LeadLength(b) == |b|
    ensures EncodeChar(c) == b
  {
    if |b| == 1 {
      c := b[0] as int as char;
    } else if |b| == 2 {
      c := DecodeTwo(b);
    } else if |b| == 3 {
      c := DecodeThree(b);
    } else {
      c := DecodeFour(b);
    }
  }

  lemma LeadPrefix(b: Bytes)
    requires LeadLength(b) > 0
    ensures LeadLength(b[..LeadLength(b)]) == LeadLength(b)
  {
  }

  lemma {:induction false} DecodeUtf8(b: Bytes) returns (s: string)
    requires IsUtf8(b)
    ensures Encode(s) == b
    decreases |b|
  {
    hide EncodeChar, LeadLength;
    if b == [] {
      s := [];
    } else {
      var n := LeadLength(b);
      LeadPrefix(b);
      var rest := DecodeUtf8(b[n..]);
      var c := DecodeChar(b[..n]);
      s := [c] + rest;
      assert s[1..] == rest && b == b[..n] + b[n..];
    }
  }

  /** Bytes pass for UTF-8 exactly when they are the encoding of some text. */
  lemma Utf8Iff(b: Bytes)
    ensures IsUtf8(b) <==> exists s :: Encode(s) == b
  {
    hide IsUtf8, Encode;
    if IsUtf8(b) { var s := DecodeUtf8(b); }
    forall s | Encode(s) == b ensures IsUtf8(b) { EncodeIsUtf8(s); }
  }

  /** An ASCII character is in front of the text exactly when its byte is in front of the bytes. */
  lemma FirstByte(s: string, c: char)
    requires c as int < 0x80
    ensures s != [] && s[0] == c <==> Encode(s) != [] && Encode(s)[0] == c as int as Byte
  {
  }

  // ---------- Terminators in text and in bytes ----------

  /** The text begins with a semicolon before a line end. */
  predicate StartsEnd(s: string) {
    |s| >= 2 && s[0] == ';' && (s[1] == '\n' || (|s| >= 3 && s[1] == '\r' && s[2] == '\n'))
  }

  /** Somewhere in the text a semicolon stands before a line end. */
  predicate HasEnd(s: string) { s != [] && (StartsEnd(s) || HasEnd(s[1..])) }

  predicate BytesHaveEnd(b: Bytes) { b != [] && (TerminatorAt(b, 0) > 0 || BytesHaveEnd(b[1..])) }

  lemma {:induction false} FoundIffThere(b: Bytes)
    ensures FirstEnd(b).Some? <==> BytesHaveEnd(b)
  {
    hide FirstEnd;
    if b == [] {
      assert TerminatorAt(b, 0) == 0 && forall j: nat :: TerminatorAt(b, j) == 0;
    } else {
      FoundIffThere(b[1..]);
      assert forall j: nat :: TerminatorAt(b, j + 1) == TerminatorAt(b[1..], j);
      if FirstEnd(b).Some? && FirstEnd(b).value > 0 {
        assert TerminatorAt(b[1..], FirstEnd(b).value - 1) > 0;
      }
      if FirstEnd(b[1..]).Some? { assert TerminatorAt(b, FirstEnd(b[1..]).value + 1) > 0; }
    }
  }

  lemma StartsAlike(s: string)
    requires s != [] && s[0] as int < 0x80
    ensures TerminatorAt(Encode(s), 0) > 0 <==> StartsEnd(s)
    ensures Encode(s)[1..] == Encode(s[1..])
  {
    hide EncodeChar;
    var b := Encode(s);
    assert b == EncodeChar(s[0]) + Encode(s[1..]);
    assert b[0] == SEMICOLON <==> s[0] == ';';
    FirstByte(s[1..], '\n');
    FirstByte(s[1..], '\r');
    if |s| >= 2 && s[1] == '\r' {
      assert Encode(s[1..]) == EncodeChar(s[1]) + Encode(s[1..][1..]);
      assert s[1..][1..] == s[2..];
      FirstByte(s[2..], '\n');
    }
  }

  lemma {:induction false} SkipHigh(high: Bytes, b: Bytes)
    requires forall k :: 0 <= k < |high| ==> high[k] >= 0x80
    ensures BytesHaveEnd(high + b) <==> BytesHaveEnd(b)
  {
    if high == [] {
      assert high + b == b;
    } else {
      assert (high + b)[1..] == high[1..] + b;
      SkipHigh(high[1..], b);
    }
  }

  /** UTF-8 hides and makes no terminator. */
  lemma {:induction false} EndsAlike(s: string)
    ensures BytesHaveEnd(Encode(s)) <==> HasEnd(s)
  {
    if s != [] {
      hide EncodeChar, TerminatorAt, StartsEnd;
      EndsAlike(s[1..]);
      if s[0] as int < 0x80 {
        StartsAlike(s);
      } else {
        SkipHigh(EncodeChar(s[0]), Encode(s[1..]));
        NoEndAtHigh(s);
      }
    }
  }

  lemma NoEndAtHigh(s: string)
    requires s != [] && s[0] as int >= 0x80
    ensures !StartsEnd(s)
  {
  }

  // ---------- Terminators in printed text ----------

  lemma {:induction false} NoSemicolon(s: string)
    requires ';' !in s
    ensures !HasEnd(s)
  {
    if s != [] { NoSemicolon(s[1..]); }
  }

  /** Two texts meet without making a terminator. */
  predicate Meet(a: string, b: string) {
    || (b != [] && b[0] != '\n' && b[0] != '\r')
    || (a != [] && a[|a| - 1] != ';' && a[|a| - 1] != '\r')
  }

  lemma {:induction false} EndOfConcat(a: string, b: string)
    requires Meet(a, b)
    ensures HasEnd(a + b) <==> HasEnd(a) || HasEnd(b)
  {
    if a == [] {
      assert a + b == b;
    } else {
      assert (a + b)[1..] == a[1..] + b;
      if |a| > 1 {
        EndOfConcat(a[1..], b);
      } else {
        assert a[1..] == [] && a[1..] + b == b;
      }
    }
  }

  lemma {:induction false} EndOfDoubled(q: char, s: string)
    requires q == '\'' || q == '"'
    ensures HasEnd(Doubled(q, s)) <==> HasEnd(s)
  {
    if s != [] {
      EndOfDoubled(q, s[1..]);
      var rest := Doubled(q, s[1..]);
      if s[0] == q {
        assert Doubled(q, s) == [q] + ([q] + rest);
        assert ([q] + ([q] + rest))[1..] == [q] + rest && ([q] + rest)[1..] == rest;
      } else {
        assert Doubled(q, s) == [s[0]] + rest && ([s[0]] + rest)[1..] == rest;
        assert StartsEnd([s[0]] + rest) <==> StartsEnd(s) by { DoubledStarts(q, s); }
      }
    }
  }

  lemma DoubledStarts(q: char, s: string)
    requires (q == '\'' || q == '"') && s != [] && s[0] != q
    ensures StartsEnd([s[0]] + Doubled(q, s[1..])) <==> StartsEnd(s)
  {
    var rest := Doubled(q, s[1..]);
    if |s| >= 2 {
      assert rest[0] == s[1];
      assert s[1] != q ==> rest == [s[1]] + Doubled(q, s[1..][1..]);
      assert s[1..][1..] == s[2..];
    }
  }

  lemma EndOfQuoted(q: char, s: string)
    requires q == '\'' || q == '"'
    ensures HasEnd(Quoted(q, s)) <==> HasEnd(s)
  {
    hide Doubled;
    EndOfDoubled(q, s);
    EndOfConcat(Doubled(q, s), [q]);
    EndOfConcat([q], Doubled(q, s) + [q]);
    NoSemicolon([q]);
    assert [q] + (Doubled(q, s) + [q]) == Quoted(q, s);
  }

  /** Only a text can bring one. */
  predicate TextHasEnd(v: Value) { v.Text? && HasEnd(v.s) }

  lemma HexPlain(b: Bytes)
    ensures ';' !in Hex(b)
  {
  }

  lemma FloatPlain(s: string)
    requires IsFloatText(s)
    ensures s != [] && ';' !in s && s[0] != '\n' && s[0] != '\r'
  {
    var t := if s[0] == '-' then s[1..] else s;
    assert s == if s[0] == '-' then "-" + t else t;
  }

  lemma EndOfValue(v: Value)
    requires Printable(v)
    ensures HasEnd(Print(v)) <==> TextHasEnd(v)
    ensures Print(v) != [] && Print(v)[0] != '\n' && Print(v)[0] != '\r'
  {
    match v
    case Null => NoSemicolon("NULL");
    case Integer(i) =>
      hide Format;
      FormatParts(i, 1);
      FormatCharacters(i, 1);
      NoSemicolon(Format(i, 1));
    case Float(literal) =>
      FloatPlain(literal);
      NoSemicolon(literal);
    case Text(s) => EndOfQuoted('\'', s);
    case Blob(b) =>
      HexPlain(b);
      NoSemicolon(Print(v));
  }

  lemma {:induction false} EndOfValues(vs: seq<Value>)
    requires forall i :: 0 <= i < |vs| ==> Printable(vs[i])
    ensures HasEnd(PrintValues(vs)) <==> exists i :: 0 <= i < |vs| && TextHasEnd(vs[i])
    ensures vs != [] ==> PrintValues(vs) != [] && PrintValues(vs)[0] != '\n' && PrintValues(vs)[0] != '\r'
  {
    hide Print, HasEnd, Printable, TextHasEnd;
    if vs == [] {
      NoSemicolon([]);
    } else {
      var first, rest := Print(vs[0]), PrintValues(vs[1..]);
      EndOfValue(vs[0]);
      EndOfValues(vs[1..]);
      if |vs| == 1 {
        assert PrintValues(vs) == first;
      } else {
        NoSemicolon(",");
        EndOfConcat(",", rest);
        EndOfConcat(first, "," + rest);
        assert PrintValues(vs) == first + ("," + rest);
        assert forall i :: 1 <= i < |vs| ==> vs[i] == vs[1..][i - 1];
        assert forall i :: 0 <= i < |vs| - 1 ==> vs[1..][i] == vs[i + 1];
      }
    }
  }

  // ---------- The INSERT lines of a dump ----------

  /** A row as the dump gets it. */
  datatype Row = Row(table: string, values: seq<Value>)

  predicate CanDump(row: Row) { forall i :: 0 <= i < |row.values| ==> Printable(row.values[i]) }

  /** Neither the name nor a text has a semicolon before a line end in it. */
  predicate Whole(row: Row) {
    !HasEnd(row.table) && forall i :: 0 <= i < |row.values| ==> !TextHasEnd(row.values[i])
  }

  /** The INSERT without its semicolon. */
  function InsertBody(row: Row): string {
    "INSERT INTO " + (Quoted('"', row.table) + (" VALUES(" + (PrintValues(row.values) + ")")))
  }

  lemma InsertIsBody(row: Row)
    ensures InsertText(row.table, row.values) == InsertBody(row) + ";"
  {
  }

  lemma EndOfInsert(row: Row)
    requires CanDump(row)
    ensures HasEnd(InsertBody(row)) <==> !Whole(row)
  {
    hide HasEnd, PrintValues, Quoted, TextHasEnd;
    var vals := PrintValues(row.values);
    EndOfValues(row.values);
    EndOfConcat(vals, ")");
    NoSemicolon(")");
    var inner := vals + ")";
    EndOfConcat(" VALUES(", inner);
    NoSemicolon(" VALUES(");
    EndOfQuoted('"', row.table);
    EndOfConcat(Quoted('"', row.table), " VALUES(" + inner);
    NoSemicolon("INSERT INTO ");
    EndOfConcat("INSERT INTO ", Quoted('"', row.table) + (" VALUES(" + inner));
  }

  function Bodies(rows: seq<Row>): (stmts: seq<Bytes>)
    ensures |stmts| == |rows| && forall k :: 0 <= k < |rows| ==> stmts[k] == Encode(InsertBody(rows[k]))
  {
    seq(|rows|, k requires 0 <= k < |rows| => Encode(InsertBody(rows[k])))
  }

  /** The bytes of the lines. */
  function DumpOf(rows: seq<Row>): Bytes {
    if rows == [] then []
    else Encode(InsertText(rows[0].table, rows[0].values) + "\n") + DumpOf(rows[1..])
  }

  lemma LineBytes(row: Row)
    ensures Encode(InsertText(row.table, row.values) + "\n") == Encode(InsertBody(row)) + [SEMICOLON, LF]
  {
    hide InsertBody, InsertText;
    InsertIsBody(row);
    EncodeConcat(InsertBody(row), ";\n");
    assert InsertBody(row) + ";" + "\n" == InsertBody(row) + ";\n";
    assert Encode(";\n") == [SEMICOLON, LF] by {
      assert ";\n"[1..] == "\n" && "\n"[1..] == "";
      assert Encode("\n") == [LF] + [];
    }
  }

  lemma {:induction false} DumpIsDump(rows: seq<Row>)
    ensures DumpOf(rows) == Dump(Bodies(rows))
  {
    hide InsertBody, InsertText, Encode;
    if rows != [] {
      DumpIsDump(rows[1..]);
      LineBytes(rows[0]);
      assert Bodies(rows)[1..] == Bodies(rows[1..]);
    }
  }

  /** The INSERT lines of a dump are run one for one, with nothing left over, exactly when no table name
      and no text among the rows has a semicolon before a line end in it. */
  lemma RowsReplayIff(rows: seq<Row>)
    requires forall k :: 0 <= k < |rows| ==> CanDump(rows[k])
    ensures Statements(DumpOf(rows)) == Terminated(Bodies(rows)) && Remainder(DumpOf(rows)) == []
            <==> forall k :: 0 <= k < |rows| ==> Whole(rows[k])
  {
    hide Statements, Remainder, DumpOf, Terminated, Whole, InsertBody, Encode, FirstEnd, HasEnd, CanDump;
    DumpIsDump(rows);
    DumpReplays(Bodies(rows));
    forall k | 0 <= k < |rows| ensures FirstEnd(Bodies(rows)[k]).None? <==> Whole(rows[k]) {
      EndOfInsert(rows[k]);
      EndsAlike(InsertBody(rows[k]));
      FoundIffThere(Bodies(rows)[k]);
    }
  }

  // ---------- A line that falls apart ----------

  lemma {:induction false} NothingDoubled(q: char, s: string)
    requires q !in s
    ensures Doubled(q, s) == s
  {
    if s != [] { NothingDoubled(q, s[1..]); }
  }

  /** For every table and every two texts that have neither quotes nor terminators: the INSERT of the one
      text, a semicolon, a line feed and the other is run as two statements, cut between them. */
  lemma CutInTwo(table: string, a: string, b: string)
    requires '\'' !in a && '\'' !in b && !HasEnd(table) && !HasEnd(a) && !HasEnd(b)
    ensures var head := "INSERT INTO " + (Quoted('"', table) + (" VALUES('" + a));
            var tail := b + "')";
            Statements(DumpOf([Row(table, [Text(a + ";\n" + b)])])) == [Encode(head + ";"), Encode(tail + ";")]
  {
    hide HasEnd, Quoted, Encode, Statements, Doubled;
    var head := "INSERT INTO " + (Quoted('"', table) + (" VALUES('" + a));
    var tail := b + "')";
    var row := Row(table, [Text(a + ";\n" + b)]);
    CutBody(table, a, b);
    DumpIsDump([row]);
    var whole, parts := Encode(head + ";\n" + tail), [Encode(head), Encode(tail)];
    assert Bodies([row]) == [whole];
    assert Dump([whole]) == whole + [SEMICOLON, LF] + [];
    EncodeConcat(head + ";\n", tail);
    EncodeConcat(head, ";\n");
    EndBytes();
    assert Dump(parts) == Encode(head) + [SEMICOLON, LF] + (Encode(tail) + [SEMICOLON, LF] + []) by {
      assert parts[1..] == [Encode(tail)] && parts[1..][1..] == [];
    }
    assert Dump([whole]) == Dump(parts);
    PartsWhole(table, a, b);
    FoundIffThere(Encode(head));
    FoundIffThere(Encode(tail));
    EndsAlike(head);
    EndsAlike(tail);
    DumpReplays(parts);
    EncodeConcat(head, ";");
    EncodeConcat(tail, ";");
    assert Terminated(parts) == [Encode(head) + [SEMICOLON], Encode(tail) + [SEMICOLON]];
  }

  lemma EndBytes()
    ensures Encode(";\n") == [SEMICOLON, LF] && Encode(";") == [SEMICOLON]
  {
    assert ";\n"[1..] == "\n" && "\n"[1..] == "" && ";"[1..] == "";
    assert Encode("\n") == [LF] + [];
    assert Encode(";") == [SEMICOLON] + [];
  }

  lemma OneText(text: string)
    requires '\'' !in text
    ensures PrintValues([Text(text)]) == ['\''] + text + ['\'']
  {
    hide Doubled;
    NothingDoubled('\'', text);
    assert PrintValues([Text(text)][1..]) == [];
  }

  lemma Regroup(front: string, a: string, b: string)
    ensures front + (" VALUES(" + (['\''] + (a + ";\n" + b) + ['\''] + ")"))
         == front + (" VALUES('" + a) + ";\n" + (b + "')")
  {
    assert " VALUES('" == " VALUES(" + ['\''] && "')" == ['\''] + ")";
  }

  lemma CutBody(table: string, a: string, b: string)
    requires '\'' !in a && '\'' !in b
    ensures InsertBody(Row(table, [Text(a + ";\n" + b)]))
         == "INSERT INTO " + (Quoted('"', table) + (" VALUES('" + a)) + ";\n" + (b + "')")
  {
    hide Quoted, PrintValues;
    OneText(a + ";\n" + b);
    Regroup(Quoted('"', table), a, b);
    var rest := ";\n" + (b + "')");
    assert "INSERT INTO " + (Quoted('"', table) + (" VALUES('" + a) + ";\n" + (b + "')"))
        == "INSERT INTO " + (Quoted('"', table) + (" VALUES('" + a)) + ";\n" + (b + "')");
  }

  lemma PartsWhole(table: string, a: string, b: string)
    requires !HasEnd(table) && !HasEnd(a) && !HasEnd(b)
    ensures !HasEnd("INSERT INTO " + (Quoted('"', table) + (" VALUES('" + a))) && !HasEnd(b + "')")
  {
    hide HasEnd, Quoted;
    NoSemicolon("')");
    EndOfConcat(b, "')");
    NoSemicolon(" VALUES('");
    EndOfConcat(" VALUES('", a);
    EndOfQuoted('"', table);
    EndOfConcat(Quoted('"', table), " VALUES('" + a);
    NoSemicolon("INSERT INTO ");
    EndOfConcat("INSERT INTO ", Quoted('"', table) + (" VALUES('" + a));
  }

  /** One row of a table t that holds the text a, semicolon, line feed, b: two statements are run, and
      neither is SQL. */
  lemma DumpThatDoesNotReplay()
    ensures Statements(DumpOf([Row("t", [Text("a;\nb")])]))
         == [Encode("INSERT INTO \"t\" VALUES('a;"), Encode("b');")]
  {
    hide Statements, DumpOf, Encode;
    assert !HasEnd("t") && !HasEnd("a") && !HasEnd("b") by { NoSemicolon("t"); NoSemicolon("a"); NoSemicolon("b"); }
    CutInTwo("t", "a", "b");
    NothingDoubled('"', "t");
    assert Quoted('"', "t") == "\"t\"";
    assert "a" + ";\n" + "b" == "a;\nb";
    assert "INSERT INTO " + ("\"t\"" + (" VALUES('" + "a")) + ";" == "INSERT INTO \"t\" VALUES('a;";
    assert "b" + "')" + ";" == "b');";
  }
}
