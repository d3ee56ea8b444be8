/** The COPY text format reader, against a writer that follows "Text Format" in section "File Formats"
    of PostgreSQL's COPY reference page. */
module CopyText {
  import opened Common

  type Row = seq<Option<string>>

  const NULL_STRING: string := "\\N"

  const BACKSPACE: char := 8 as char
  const FORM_FEED: char := 12 as char
  const VERTICAL_TAB: char := 11 as char

  datatype CopyError = ColumnCount(line: nat, got: nat)

  // ---------- Lines and fields ----------

  function StripCr(line: string): string {
    if line != "" && line[|line| - 1] == '\r' then line[..|line| - 1] else line
  }

  /** `str::lines`: a line feed ends a line, together with a carriage return before it. */
  function Lines(data: string): seq<string>
    decreases |data|
  {
    var p := Find(data, '\n');
    if data == "" then [] else if p == |data| then [data] else [StripCr(data[..p])] + Lines(data[p + 1..])
  }

  /** `str::split` at a character. */
  function Split(s: string, c: char): (parts: seq<string>)
    ensures parts != []
    decreases |s|
  {
    var p := Find(s, c);
    if p == |s| then [s] else [s[..p]] + Split(s[p + 1..], c)
  }

  function JoinFields(parts: seq<string>, c: char): string {
    if parts == [] then "" else if |parts| == 1 then parts[0] else parts[0] + [c] + JoinFields(parts[1..], c)
  }

  /** The parts have no delimiter in them, and joined by delimiters they are the text. */
  lemma {:induction false} SplitJoined(s: string, c: char)
    ensures JoinFields(Split(s, c), c) == s
    ensures forall k :: 0 <= k < |Split(s, c)| ==> c !in Split(s, c)[k]
    decreases |s|
  {
    var p := Find(s, c);
    if p == |s| {
      assert s == s[..p];
    } else {
      SplitJoined(s[p + 1..], c);
      assert s == s[..p] + [c] + s[p + 1..];
    }
  }

  // ---------- What the lines of a text are ----------

  /** How a line ends; only the last may be unended. */
  datatype Ending = Lf | CrLf | Unended

  function EndText(e: Ending): string {
    match e
    case Lf => "\n"
    case CrLf => "\r\n"
    case Unended => ""
  }

  predicate EndsInCr(line: string) { line != "" && line[|line| - 1] == '\r' }

  /** A line that its ending does not change: a carriage return before a bare line feed belongs to the ending,
      and there is no empty line without an ending. */
  predicate IsLine(line: string, e: Ending) {
    '\n' !in line && (e.Lf? ==> !EndsInCr(line)) && (e.Unended? ==> line != "")
  }

  predicate AreLines(lines: seq<string>, ends: seq<Ending>) {
    && |lines| == |ends|
    && (forall k :: 0 <= k < |lines| ==> IsLine(lines[k], ends[k]))
    && forall k :: 0 <= k < |ends| - 1 ==> !ends[k].Unended?
  }

  function JoinLines(lines: seq<string>, ends: seq<Ending>): string
    requires |lines| == |ends|
  {
    if lines == [] then "" else lines[0] + EndText(ends[0]) + JoinLines(lines[1..], ends[1..])
  }

  lemma LinesStep(line: string, e: Ending, rest: string)
    requires IsLine(line, e) && !e.Unended?
    ensures Lines(line + EndText(e) + rest) == [line] + Lines(rest)
  {
    var before := if e.CrLf? then line + "\r" else line;
    var data := line + EndText(e) + rest;
    assert data == before + "\n" + rest;
    FindFirst(before, '\n', rest);
    assert data[..|before|] == before && data[|before| + 1..] == rest;
    assert StripCr(before) == line;
  }

  lemma LastLine(line: string)
    requires IsLine(line, Unended)
    ensures Lines(line) == [line]
  {
    FindNone(line, '\n');
  }

  /** Whatever lines are joined by line feeds, alone or after carriage returns, with or without one at the end,
      are the lines of the text. */
  lemma {:induction false} JoinedLines(lines: seq<string>, ends: seq<Ending>)
    requires AreLines(lines, ends)
    ensures Lines(JoinLines(lines, ends)) == lines
  {
    hide Lines, IsLine, EndText;
    if lines == [] {
      NoLines();
    } else {
      var rest := JoinLines(lines[1..], ends[1..]);
      JoinedLines(lines[1..], ends[1..]);
      if ends[0].Unended? {
        OnlyUnended(ends);
        LastLine(lines[0]);
        assert JoinLines(lines, ends) == lines[0];
      } else {
        LinesStep(lines[0], ends[0], rest);
      }
    }
  }

  lemma NoLines()
    ensures Lines("") == []
  {
  }

  lemma OnlyUnended(ends: seq<Ending>)
    requires ends != [] && ends[0].Unended? && forall k :: 0 <= k < |ends| - 1 ==> !ends[k].Unended?
    ensures |ends| == 1 && EndText(ends[0]) == "" && ends[1..] == []
  {
  }

  lemma FirstLine(data: string) returns (line: string, e: Ending, rest: string)
    requires '\n' in data
    ensures IsLine(line, e) && !e.Unended? && data == line + EndText(e) + rest && Lines(data) == [line] + Lines(rest)
  {
    var p := Find(data, '\n');
    assert data[..|data|] == data;
    e := if EndsInCr(data[..p]) then CrLf else Lf;
    line, rest := StripCr(data[..p]), data[p + 1..];
    assert data == data[..p] + "\n" + rest;
    assert data[..p] + "\n" == line + EndText(e);
    assert EndsInCr(data[..p]) ==> line + "\r" == data[..p];
  }

  lemma AreLinesFirst(line: string, e: Ending, lines: seq<string>, ends: seq<Ending>)
    requires IsLine(line, e) && !e.Unended? && AreLines(lines, ends)
    ensures AreLines([line] + lines, [e] + ends)
    ensures JoinLines([line] + lines, [e] + ends) == line + EndText(e) + JoinLines(lines, ends)
  {
    hide IsLine, EndText;
    assert ([line] + lines)[1..] == lines && ([e] + ends)[1..] == ends;
  }

  /** And every text is its lines, so joined. */
  lemma {:induction false} LinesJoined(data: string) returns (ends: seq<Ending>)
    ensures AreLines(Lines(data), ends) && JoinLines(Lines(data), ends) == data
    decreases |data|
  {
    if '\n' in data {
      hide Lines, IsLine, AreLines;
      var line, e, rest := FirstLine(data);
      var later := LinesJoined(rest);
      ends := [e] + later;
      AreLinesFirst(line, e, Lines(rest), later);
    } else if data == "" {
      ends := [];
    } else {
      ends := [Unended];
      LastLine(data);
      assert [data][1..] == [] && [Unended][1..] == [] && data + "" + "" == data;
    }
  }

  // ---------- Escapes ----------

  function UnescapedChar(c: char): char {
    match c
    case 't' => '\t'
    case 'n' => '\n'
    case 'r' => '\r'
    case 'b' => BACKSPACE
    case 'f' => FORM_FEED
    case 'v' => VERTICAL_TAB
    case other => other
  }

  function Unescape(field: string): string
    decreases |field|
  {
    if field == "" then ""
    else if field[0] != '\\' then [field[0]] + Unescape(field[1..])
    else if |field| == 1 then "\\"
    else [UnescapedChar(field[1])] + Unescape(field[2..])
  }

  /** What has been pushed so far is the result's beginning. */
  predicate Progress(field: string, i: nat, result: string)
    requires i <= |field|
  {
    result + Unescape(field[i..]) == Unescape(field)
  }

  lemma ProgressPush(field: string, i: nat, j: nat, result: string, c: char)
    requires i <= j <= |field| && Progress(field, i, result) && Unescape(field[i..]) == [c] + Unescape(field[j..])
    ensures Progress(field, j, result + [c])
  {
    assert result + [c] + Unescape(field[j..]) == result + ([c] + Unescape(field[j..]));
  }

  /** The field from i on begins with one step of the iterator. */
  lemma UnescapeAt(field: string, i: nat)
    requires i < |field|
    ensures field[i] != '\\' ==> Unescape(field[i..]) == [field[i]] + Unescape(field[i + 1..])
    ensures field[i] == '\\' && i + 1 == |field| ==> Unescape(field[i..]) == ['\\'] + Unescape(field[i + 1..])
    ensures field[i] == '\\' && i + 1 < |field| ==>
      Unescape(field[i..]) == [UnescapedChar(field[i + 1])] + Unescape(field[i + 2..])
  {
    assert field[i..][1..] == field[i + 1..];
    assert i + 1 < |field| ==> field[i..][2..] == field[i + 2..];
  }

  method UnescapeCopyField(field: string) returns (result: string)
    ensures result == Unescape(field)
  {
    hide UnescapedChar, Unescape, Progress;
    result := "";
    var i := 0;
    ProgressStart(field);
    while i < |field|
      invariant 0 <= i <= |field| && Progress(field, i, result)
    {
      UnescapeAt(field, i);
      var c := field[i];
      if c == '\\' {
        if i + 1 == |field| {
          ProgressPush(field, i, i + 1, result, '\\');
          result := result + ['\\'];
          i := i + 1;
        } else {
          ProgressPush(field, i, i + 2, result, UnescapedChar(field[i + 1]));
          result := result + [UnescapedChar(field[i + 1])];
          i := i + 2;
        }
      } else {
        ProgressPush(field, i, i + 1, result, c);
        result := result + [c];
        i := i + 1;
      }
    }
    ProgressEnd(field, result);
  }

  lemma ProgressStart(field: string)
    ensures Progress(field, 0, "")
  {
    assert field[0..] == field && "" + Unescape(field) == Unescape(field);
  }

  lemma ProgressEnd(field: string, result: string)
    requires Progress(field, |field|, result)
    ensures result == Unescape(field)
  {
    assert field[|field|..] == "" && result + "" == result;
  }

  // ---------- The reader ----------

  function ParseField(field: string, nullString: string): Option<string> {
    if field == nullString then None else Some(Unescape(field))
  }

  function ParseFields(fields: seq<string>, nullString: string): (row: Row)
    ensures |row| == |fields|
    ensures forall k :: 0 <= k < |row| ==> row[k] == ParseField(fields[k], nullString)
  {
    if fields == [] then [] else [ParseField(fields[0], nullString)] + ParseFields(fields[1..], nullString)
  }

  /** The rows of the lines; at is the number of the first of them. */
  function ParseLines(lines: seq<string>, delimiter: char, nullString: string, numColumns: nat, at: nat)
    : Result<seq<Row>, CopyError>
  {
    if lines == [] || lines[0] == "\\." then Ok([])
    else if lines[0] == "" then ParseLines(lines[1..], delimiter, nullString, numColumns, at + 1)
    else
      var fields := Split(lines[0], delimiter);
      if |fields| != numColumns then Err(ColumnCount(at, |fields|))
      else
        var rest :- ParseLines(lines[1..], delimiter, nullString, numColumns, at + 1);
        Ok([ParseFields(fields, nullString)] + rest)
  }

  /** Rows already read, put before what the remaining lines give. */
  function Prepend(rows: seq<Row>, rest: Result<seq<Row>, CopyError>): Result<seq<Row>, CopyError> {
    if rest.Err? then rest else Ok(rows + rest.value)
  }

  lemma PrependPush(rows: seq<Row>, row: Row, rest: Result<seq<Row>, CopyError>)
    ensures Prepend(rows + [row], rest) == Prepend(rows, Prepend([row], rest))
  {
    if rest.Ok? { assert rows + [row] + rest.value == rows + ([row] + rest.value); }
  }

  lemma PrependNothing(rest: Result<seq<Row>, CopyError>)
    ensures Prepend([], rest) == rest
  {
    if rest.Ok? { assert [] + rest.value == rest.value; }
  }

  method ParseCopyTextFormat(data: string, delimiter: char, nullString: string, numColumns: nat)
    returns (r: Result<seq<Row>, CopyError>)
    ensures r == ParseLines(Lines(data), delimiter, nullString, numColumns, 1)
  {
    hide Lines, Split, ParseField;
    var lines := Lines(data);
    var rows: seq<Row> := [];
    var lineNum := 0;
    assert lines[0..] == lines;
    PrependNothing(ParseLines(lines, delimiter, nullString, numColumns, 1));
    while lineNum < |lines|
      invariant 0 <= lineNum <= |lines|
      invariant Prepend(rows, ParseLines(lines[lineNum..], delimiter, nullString, numColumns, lineNum + 1))
             == ParseLines(lines, delimiter, nullString, numColumns, 1)
    {
      var line := lines[lineNum];
      assert lines[lineNum..][1..] == lines[lineNum + 1..];
      if line == "\\." {
        assert rows + [] == rows;
        return Ok(rows);
      }
      if line != "" {
        var fields := Split(line, delimiter);
        if |fields| != numColumns {
          return Err(ColumnCount(lineNum + 1, |fields|));
        }
        var row := UnescapeFields(fields, nullString);
        PrependPush(rows, row, ParseLines(lines[lineNum + 1..], delimiter, nullString, numColumns, lineNum + 2));
        rows := rows + [row];
      }
      lineNum := lineNum + 1;
    }
    assert rows + [] == rows;
    return Ok(rows);
  }

  method UnescapeFields(fields: seq<string>, nullString: string) returns (row: Row)
    ensures row == ParseFields(fields, nullString)
  {
    row := [];
    for i := 0 to |fields|
      invariant |row| == i
      invariant forall k :: 0 <= k < i ==> row[k] == ParseField(fields[k], nullString)
    {
      if fields[i] == nullString {
        row := row + [None];
      } else {
        var text := UnescapeCopyField(fields[i]);
        row := row + [Some(text)];
      }
    }
  }

  // ---------- The writer of the format ----------

  /** The options of a COPY that matter to its lines. */
  datatype Options = Options(delimiter: char, nullString: string)

  predicate Plain(line: string) { '\n' !in line && '\r' !in line }

  /** The format has no room for line ends in either. */
  predicate Allowed(o: Options) { Plain([o.delimiter]) && Plain(o.nullString) }

  function EscapedChar(c: char, delimiter: char): string {
    if c == '\t' then "\\t"
    else if c == '\n' then "\\n"
    else if c == '\r' then "\\r"
    else if c == BACKSPACE then "\\b"
    else if c == FORM_FEED then "\\f"
    else if c == VERTICAL_TAB then "\\v"
    else if c == '\\' || c == delimiter then ['\\', c]
    else [c]
  }

  function Escape(s: string, delimiter: char): string {
    if s == "" then "" else EscapedChar(s[0], delimiter) + Escape(s[1..], delimiter)
  }

  function Written(field: Option<string>, o: Options): string {
    if field.None? then o.nullString else Escape(field.value, o.delimiter)
  }

  function WrittenRow(row: Row, o: Options): string {
    if row == [] then ""
    else if |row| == 1 then Written(row[0], o)
    else Written(row[0], o) + [o.delimiter] + WrittenRow(row[1..], o)
  }

  /** The file: each row on a line, with its ending. */
  function WrittenRows(rows: seq<Row>, ends: seq<Ending>, o: Options): string
    requires |ends| == |rows|
  {
    if rows == [] then "" else WrittenRow(rows[0], o) + EndText(ends[0]) + WrittenRows(rows[1..], ends[1..], o)
  }

  /** All rows but the last have line ends. */
  predicate Ended(rows: seq<Row>, ends: seq<Ending>) {
    |ends| == |rows| && forall k :: 0 <= k < |ends| - 1 ==> !ends[k].Unended?
  }

  // ---------- A field comes back ----------

  /** No escape of the delimiter is in the way: it is no escape letter, or does not occur. */
  predicate Undoable(e: string, delimiter: char) { delimiter !in "tnrbfv" || delimiter !in e }

  lemma UnescapeFront(c: char, delimiter: char, tail: string)
    requires Undoable(EscapedChar(c, delimiter), delimiter)
    ensures Unescape(EscapedChar(c, delimiter) + tail) == [c] + Unescape(tail)
  {
    var e := EscapedChar(c, delimiter);
    assert (e + tail)[|e|..] == tail;
    assert |e| == 2 ==> UnescapedChar(e[1]) == c;
  }

  lemma {:induction false} UnescapeThen(s: string, delimiter: char, tail: string)
    requires Undoable(Escape(s, delimiter), delimiter)
    ensures Unescape(Escape(s, delimiter) + tail) == s + Unescape(tail)
  {
    hide EscapedChar, Unescape;
    if s == "" {
      assert Escape(s, delimiter) + tail == tail;
    } else {
      var first, rest := EscapedChar(s[0], delimiter), Escape(s[1..], delimiter);
      UnescapeThen(s[1..], delimiter, tail);
      UnescapeFront(s[0], delimiter, rest + tail);
      assert first + rest + tail == first + (rest + tail);
      assert [s[0]] + (s[1..] + Unescape(tail)) == s + Unescape(tail);
    }
  }

  /** Reading undoes writing for every text, whatever the delimiter, as long as that is not one of the
      escape letters or does not show in what is written; a backslash left over at the end stays. */
  lemma UnescapeEscape(s: string, delimiter: char)
    requires Undoable(Escape(s, delimiter), delimiter)
    ensures Unescape(Escape(s, delimiter)) == s
    ensures Unescape(Escape(s, delimiter) + "\\") == s + "\\"
  {
    UnescapeThen(s, delimiter, "");
    UnescapeThen(s, delimiter, "\\");
    assert Escape(s, delimiter) + "" == Escape(s, delimiter) && s + "" == s;
  }

  lemma {:induction false} EscapePlain(s: string, delimiter: char)
    requires Plain([delimiter])
    ensures Plain(Escape(s, delimiter))
  {
    if s != "" { EscapePlain(s[1..], delimiter); }
  }

  /** The reader sees a field of its own, and not the null string. */
  predicate FieldComesBack(field: Option<string>, o: Options) {
    o.delimiter !in Written(field, o) && (field.Some? ==> Written(field, o) != o.nullString)
  }

  lemma FieldReadBack(field: Option<string>, o: Options)
    requires o.delimiter !in Written(field, o)
    ensures ParseField(Written(field, o), o.nullString) == field <==> FieldComesBack(field, o)
  {
    if field.Some? { UnescapeEscape(field.value, o.delimiter); }
  }

  // ---------- A row comes back ----------

  predicate Delimited(row: Row, o: Options) {
    forall k :: 0 <= k < |row| ==> o.delimiter !in Written(row[k], o)
  }

  predicate FieldsComeBack(row: Row, o: Options) {
    forall k :: 0 <= k < |row| ==> FieldComesBack(row[k], o)
  }

  lemma {:induction false} RowFields(row: Row, o: Options)
    requires row != [] && Delimited(row, o)
    ensures var fields := Split(WrittenRow(row, o), o.delimiter);
            |fields| == |row| && forall k :: 0 <= k < |row| ==> fields[k] == Written(row[k], o)
  {
    hide Written;
    var first := Written(row[0], o);
    if |row| == 1 {
      FindNone(first, o.delimiter);
    } else {
      var rest := WrittenRow(row[1..], o);
      RowFields(row[1..], o);
      FindFirst(first, o.delimiter, rest);
      var line := first + [o.delimiter] + rest;
      assert line[..|first|] == first && line[|first| + 1..] == rest;
      assert Split(line, o.delimiter) == [first] + Split(rest, o.delimiter);
    }
  }

  /** The fields of a written row are read as the row exactly when each comes back. */
  lemma RowReadBack(row: Row, o: Options)
    requires row != [] && Delimited(row, o)
    ensures ParseFields(Split(WrittenRow(row, o), o.delimiter), o.nullString) == row <==> FieldsComeBack(row, o)
  {
    hide Written, ParseField, WrittenRow, Split, FieldComesBack;
    RowFields(row, o);
    var parsed := ParseFields(Split(WrittenRow(row, o), o.delimiter), o.nullString);
    forall k | 0 <= k < |row| ensures parsed[k] == row[k] <==> FieldComesBack(row[k], o) {
      FieldReadBack(row[k], o);
    }
  }

  // ---------- How many fields a line has ----------

  function Count(s: string, c: char): nat {
    if s == "" then 0 else (if s[0] == c then 1 else 0) + Count(s[1..], c)
  }

  lemma {:induction false} CountConcat(a: string, b: string, c: char)
    ensures Count(a + b, c) == Count(a, c) + Count(b, c)
  {
    if a == "" {
      assert a + b == b;
    } else {
      assert (a + b)[1..] == a[1..] + b;
      CountConcat(a[1..], b, c);
    }
  }

  lemma {:induction false} CountZero(s: string, c: char)
    ensures Count(s, c) == 0 <==> c !in s
  {
    if s != "" {
      assert s == [s[0]] + s[1..];
      CountZero(s[1..], c);
    }
  }

  lemma {:induction false} SplitCount(s: string, c: char)
    ensures |Split(s, c)| == Count(s, c) + 1
    decreases |s|
  {
    var p := Find(s, c);
    if p == |s| {
      assert s == s[..p];
      CountZero(s, c);
    } else {
      assert s == s[..p] + ([c] + s[p + 1..]);
      CountConcat(s[..p], [c] + s[p + 1..], c);
      CountZero(s[..p], c);
      SplitCount(s[p + 1..], c);
    }
  }

  lemma {:induction false} RowCount(row: Row, o: Options)
    requires row != []
    ensures Count(WrittenRow(row, o), o.delimiter) >= |row| - 1
    ensures Count(WrittenRow(row, o), o.delimiter) == |row| - 1 <==> Delimited(row, o)
  {
    hide Written;
    var first, d := Written(row[0], o), o.delimiter;
    CountZero(first, d);
    if |row| > 1 {
      var rest := WrittenRow(row[1..], o);
      RowCount(row[1..], o);
      assert first + [d] + rest == first + ([d] + rest);
      CountConcat(first, [d] + rest, d);
      CountConcat([d], rest, d);
      assert row == [row[0]] + row[1..];
    }
  }

  /** A written row splits into its own number of fields exactly when no field shows the delimiter. */
  lemma RowWidth(row: Row, o: Options)
    requires row != []
    ensures |Split(WrittenRow(row, o), o.delimiter)| == |row| <==> Delimited(row, o)
  {
    hide Split, Count, WrittenRow, Delimited;
    SplitCount(WrittenRow(row, o), o.delimiter);
    RowCount(row, o);
  }

  // ---------- A line comes back ----------

  lemma {:induction false} RowPlain(row: Row, o: Options)
    requires Allowed(o)
    ensures Plain(WrittenRow(row, o))
  {
    if row != [] {
      if row[0].Some? { EscapePlain(row[0].value, o.delimiter); }
      if |row| > 1 { RowPlain(row[1..], o); }
    }
  }

  // ---------- Whole files ----------

  predicate Width(rows: seq<Row>, n: nat) { forall k :: 0 <= k < |rows| ==> |rows[k]| == n }

  /** The line of the row is neither skipped as empty nor taken for the end of the data, and its fields
      come back. */
  predicate ComesBack(row: Row, o: Options) {
    WrittenRow(row, o) != "" && WrittenRow(row, o) != "\\." && FieldsComeBack(row, o)
  }

  function Parsed(data: string, o: Options, n: nat, at: nat): Result<seq<Row>, CopyError> {
    ParseLines(Lines(data), o.delimiter, o.nullString, n, at)
  }

  /** What the reader makes of the line of one written row. */
  lemma ReadLine(row: Row, o: Options, lines: seq<string>, at: nat)
    requires row != []
    ensures var line := WrittenRow(row, o);
            var rest := ParseLines(lines, o.delimiter, o.nullString, |row|, at + 1);
            ParseLines([line] + lines, o.delimiter, o.nullString, |row|, at) ==
            if line == "\\." then Ok([])
            else if line == "" then rest
            else if !Delimited(row, o) then Err(ColumnCount(at, |Split(line, o.delimiter)|))
            else Prepend([ParseFields(Split(line, o.delimiter), o.nullString)], rest)
  {
    hide Split, WrittenRow, Delimited;
    var line := WrittenRow(row, o);
    RowWidth(row, o);
    assert ([line] + lines)[1..] == lines;
  }

  lemma FieldsAreDelimited(row: Row, o: Options)
    ensures FieldsComeBack(row, o) ==> Delimited(row, o)
  {
  }

  /** A written line in front of others is a line of its own; an empty one without an ending is none, which the
      reader would skip anyway. */
  lemma LineThen(line: string, e: Ending, others: string, o: Options, n: nat, at: nat)
    requires Plain(line) && (e.Unended? ==> others == "")
    ensures Parsed(line + EndText(e) + others, o, n, at)
         == ParseLines([line] + Lines(others), o.delimiter, o.nullString, n, at)
  {
    if e.Unended? {
      assert line + EndText(e) + others == line;
      NoLines();
      assert [line] + [] == [line] && [line][1..] == [];
      if line != "" { LastLine(line); }
    } else {
      assert line != "" ==> line[|line| - 1] in line;
      LinesStep(line, e, others);
    }
  }

  /** One row in front of others. */
  lemma ReadRow(row: Row, rest: seq<Row>, ends: seq<Ending>, o: Options, at: nat)
    requires Allowed(o) && row != [] && Ended([row] + rest, ends)
    ensures var r := Parsed(WrittenRows([row] + rest, ends, o), o, |row|, at);
            var tail := Parsed(WrittenRows(rest, ends[1..], o), o, |row|, at + 1);
            && (ComesBack(row, o) ==> r == Prepend([row], tail))
            && (!ComesBack(row, o) ==>
                  || r.Err? || r == Ok([]) || r == tail
                  || exists other :: other != row && r == Prepend([other], tail))
            && (WrittenRow(row, o) !in ["", "\\."] && !Delimited(row, o) ==> r.Err? && r.error.line == at)
  {
    hide Split, WrittenRow, Delimited, FieldsComeBack, Lines, ParseLines;
    var line := WrittenRow(row, o);
    var others := WrittenRows(rest, ends[1..], o);
    assert WrittenRows([row] + rest, ends, o) == line + EndText(ends[0]) + others by {
      assert ([row] + rest)[1..] == rest;
    }
    RowPlain(row, o);
    LineThen(line, ends[0], others, o, |row|, at);
    ReadLine(row, o, Lines(others), at);
    FieldsAreDelimited(row, o);
    if Delimited(row, o) { RowReadBack(row, o); }
  }

  lemma {:induction false} ReadRows(rows: seq<Row>, ends: seq<Ending>, o: Options, n: nat, at: nat)
    requires Allowed(o) && n >= 1 && Width(rows, n) && Ended(rows, ends)
    ensures var r := Parsed(WrittenRows(rows, ends, o), o, n, at);
            && (r.Ok? ==> |r.value| <= |rows|)
            && (r == Ok(rows) <==> forall k :: 0 <= k < |rows| ==> ComesBack(rows[k], o))
    decreases |rows|
  {
    hide WrittenRows, ComesBack, Parsed;
    if rows == [] {
      NoRows(ends, o, n, at);
    } else {
      var row, rest := rows[0], rows[1..];
      assert rows == [row] + rest;
      ReadRow(row, rest, ends, o, at);
      ReadRows(rest, ends[1..], o, n, at + 1);
      assert forall k :: 0 < k < |rows| ==> rows[k] == rest[k - 1];
      assert forall k :: 0 <= k < |rest| ==> rest[k] == rows[k + 1];
      var r := Parsed(WrittenRows(rows, ends, o), o, n, at);
      var tail := Parsed(WrittenRows(rest, ends[1..], o), o, n, at + 1);
      if ComesBack(row, o) {
        assert tail.Ok? && r == Ok(rows) ==> r.value[1..] == tail.value;
      } else if r.Ok? && tail.Ok? && r != Ok([]) && r != tail {
        var other :| other != row && r == Prepend([other], tail);
        assert r.value[0] != rows[0];
      }
    }
  }

  lemma NoRows(ends: seq<Ending>, o: Options, n: nat, at: nat)
    requires ends == []
    ensures Parsed(WrittenRows([], ends, o), o, n, at) == Ok([])
  {
  }

  /** For every delimiter and null string without line ends, and for lines ended by line feeds, alone or after
      carriage returns, the last perhaps not at all: rows written in the text format are read back as they were
      exactly when each of them comes back, that is, no field shows the delimiter, no text looks like a null,
      and no line is empty or the end mark. */
  lemma TextRoundTripIff(rows: seq<Row>, ends: seq<Ending>, o: Options, n: nat)
    requires Allowed(o) && n >= 1 && Width(rows, n) && Ended(rows, ends)
    ensures Parsed(WrittenRows(rows, ends, o), o, n, 1) == Ok(rows)
            <==> forall k :: 0 <= k < |rows| ==> ComesBack(rows[k], o)
  {
    hide WrittenRows, ComesBack, Parsed;
    ReadRows(rows, ends, o, n, 1);
  }

  // ---------- Any text ----------

  /** The data ends before the first end mark. */
  predicate DataEnds(lines: seq<string>, end: nat) {
    end <= |lines| && "\\." !in lines[..end] && (end < |lines| ==> lines[end] == "\\.")
  }

  predicate WrongWidth(line: string, delimiter: char, n: nat) { line != "" && |Split(line, delimiter)| != n }

  predicate FirstWrong(lines: seq<string>, delimiter: char, n: nat, end: nat, k: nat) {
    && k < end <= |lines| && WrongWidth(lines[k], delimiter, n)
    && forall j :: 0 <= j < k ==> !WrongWidth(lines[j], delimiter, n)
  }

  /** A row for each line that is not empty. */
  function RowsOf(lines: seq<string>, o: Options): seq<Row> {
    if lines == [] then []
    else
      var line := lines[|lines| - 1];
      RowsOf(lines[..|lines| - 1], o)
      + (if line == "" then [] else [ParseFields(Split(line, o.delimiter), o.nullString)])
  }

  lemma {:induction false} RowsOfFirst(line: string, lines: seq<string>, o: Options)
    ensures RowsOf([line] + lines, o)
         == (if line == "" then [] else [ParseFields(Split(line, o.delimiter), o.nullString)]) + RowsOf(lines, o)
  {
    hide Split, ParseFields;
    var all := [line] + lines;
    if lines == [] {
      assert all == [line] && all[..0] == [];
    } else {
      RowsOfFirst(line, lines[..|lines| - 1], o);
      assert all[..|all| - 1] == [line] + lines[..|lines| - 1];
    }
  }

  /** On every text: the rows are those of the lines before the end mark, empty lines skipped, unless one of
      them has another number of fields; then the error names the first such line, counted from one. */
  lemma {:induction false} LinesRead(lines: seq<string>, o: Options, n: nat, at: nat, end: nat)
    requires DataEnds(lines, end)
    ensures var r := ParseLines(lines, o.delimiter, o.nullString, n, at);
            && (r.Ok? <==> forall k :: 0 <= k < end ==> !WrongWidth(lines[k], o.delimiter, n))
            && (r.Ok? ==> r.value == RowsOf(lines[..end], o))
            && (r.Err? ==> exists k: nat :: FirstWrong(lines, o.delimiter, n, end, k)
                                            && r.error == ColumnCount(at + k, |Split(lines[k], o.delimiter)|))
  {
    hide Split, ParseFields;
    var r := ParseLines(lines, o.delimiter, o.nullString, n, at);
    if end == 0 {
      assert lines[..end] == [];
    } else {
      var line, rest := lines[0], lines[1..];
      assert line == lines[..end][0] && rest[..end - 1] == lines[..end][1..];
      var later := ParseLines(rest, o.delimiter, o.nullString, n, at + 1);
      LinesRead(rest, o, n, at + 1, end - 1);
      assert lines[..end] == [line] + rest[..end - 1];
      RowsOfFirst(line, rest[..end - 1], o);
      assert forall k :: 0 < k < end ==> lines[k] == rest[k - 1];
      assert forall k :: 0 <= k < end - 1 ==> rest[k] == lines[k + 1];
      if WrongWidth(line, o.delimiter, n) {
        assert FirstWrong(lines, o.delimiter, n, end, 0);
      } else if later.Err? {
        var k: nat :| FirstWrong(rest, o.delimiter, n, end - 1, k)
                      && later.error == ColumnCount(at + 1 + k, |Split(rest[k], o.delimiter)|);
        assert FirstWrong(lines, o.delimiter, n, end, k + 1);
      }
    }
  }

  // ---------- In terms of the data ----------

  /** A character whose escape is a letter. */
  predicate HasLetter(c: char) { c == '\t' || c == BACKSPACE || c == FORM_FEED || c == VERTICAL_TAB }

  /** A delimiter that has no other role in the format, and the default null string. */
  predicate Ordinary(o: Options) { o.delimiter !in "\n\r\\.tnrbfvN" && o.nullString == NULL_STRING }

  /** What an escaped text, and the null string, look like then. */
  predicate Tidy(e: string) { e != "" && e[0] == '\\' ==> |e| >= 2 && e[1] != '.' }

  lemma EscapedCharTidy(c: char, o: Options)
    requires Ordinary(o)
    ensures var e := EscapedChar(c, o.delimiter);
            && Tidy(e) && 1 <= |e| <= 2
            && (|e| == 1 ==> e[0] != '\\') && (|e| == 2 ==> e[0] == '\\' && e[1] != 'N')
            && (o.delimiter in e <==> c == o.delimiter && !HasLetter(o.delimiter))
  {
  }

  lemma {:induction false} EscapeTidy(s: string, o: Options)
    requires Ordinary(o)
    ensures var e := Escape(s, o.delimiter);
            && Tidy(e) && e != NULL_STRING && (e == "" <==> s == "")
            && (o.delimiter in e <==> o.delimiter in s && !HasLetter(o.delimiter))
  {
    hide EscapedChar, HasLetter, Ordinary;
    if s != "" {
      EscapedCharTidy(s[0], o);
      EscapeTidy(s[1..], o);
    }
  }

  /** The reader splits such a field, because it does not see that the delimiter is escaped. */
  predicate Splits(field: Option<string>, o: Options) {
    field.Some? && o.delimiter in field.value && !HasLetter(o.delimiter)
  }

  lemma FieldComesBackIff(field: Option<string>, o: Options)
    requires Ordinary(o)
    ensures FieldComesBack(field, o) <==> !Splits(field, o)
    ensures Tidy(Written(field, o)) && (Written(field, o) == "" <==> field == Some(""))
  {
    if field.Some? { EscapeTidy(field.value, o); }
  }

  lemma RowNotEnd(row: Row, o: Options)
    requires Ordinary(o)
    ensures WrittenRow(row, o) != "\\."
  {
    hide Written, Splits, FieldComesBack;
    if row != [] {
      FieldComesBackIff(row[0], o);
      var first, line := Written(row[0], o), WrittenRow(row, o);
      assert first == "" && |row| > 1 ==> line[0] == o.delimiter;
      assert first != "" ==> line[0] == first[0];
      assert first != "" && first[0] == '\\' ==> line[1] == first[1];
    }
  }

  lemma RowEmptyIff(row: Row, o: Options)
    requires Ordinary(o) && row != []
    ensures WrittenRow(row, o) == "" <==> row == [Some("")]
  {
    hide Written, Splits, FieldComesBack;
    FieldComesBackIff(row[0], o);
  }

  /** With an ordinary delimiter and the default null string a row comes back exactly when no text has the
      delimiter in it, tab and other letter-escaped ones apart, and it is not one empty text. */
  lemma ComesBackIff(row: Row, o: Options)
    requires Ordinary(o) && row != []
    ensures ComesBack(row, o) <==> (forall k :: 0 <= k < |row| ==> !Splits(row[k], o)) && row != [Some("")]
  {
    hide WrittenRow, FieldComesBack, Splits;
    RowNotEnd(row, o);
    RowEmptyIff(row, o);
    forall k | 0 <= k < |row| ensures FieldComesBack(row[k], o) <==> !Splits(row[k], o) {
      FieldComesBackIff(row[k], o);
    }
  }

  const DEFAULT := Options('\t', NULL_STRING)

  /** With the defaults every table of two or more columns is read back as written. */
  lemma DefaultRoundTrip(rows: seq<Row>, ends: seq<Ending>, n: nat)
    requires n >= 2 && Width(rows, n) && Ended(rows, ends)
    ensures Parsed(WrittenRows(rows, ends, DEFAULT), DEFAULT, n, 1) == Ok(rows)
  {
    hide Parsed, WrittenRows, ComesBack;
    TextRoundTripIff(rows, ends, DEFAULT, n);
    forall k | 0 <= k < |rows| ensures ComesBack(rows[k], DEFAULT) {
      ComesBackIff(rows[k], DEFAULT);
    }
  }

  /** A delimiter in a text, escaped as the format has it, is still taken for a delimiter, and the row
      refused as too wide. */
  lemma EscapedDelimiterSplits(row: Row, rest: seq<Row>, ends: seq<Ending>, o: Options, k: nat)
    requires Ordinary(o) && k < |row| && Splits(row[k], o) && Ended([row] + rest, ends)
    ensures var r := Parsed(WrittenRows([row] + rest, ends, o), o, |row|, 1);
            r.Err? && r.error.line == 1
  {
    hide Parsed, WrittenRows, WrittenRow;
    ReadRow(row, rest, ends, o, 1);
    RowNotEnd(row, o);
    RowEmptyIff(row, o);
    EscapeTidy(row[k].value, o);
    assert row[k] != Some("");
  }

  lemma CommaSplits()
    ensures var o := Options(',', NULL_STRING);
            Parsed(WrittenRows([[Some("a,b")]], [Lf], o), o, 1, 1).Err?
  {
    hide Parsed, WrittenRows;
    var row: Row := [Some("a,b")];
    assert "a,b"[1] == ',';
    EscapedDelimiterSplits(row, [], [Lf], Options(',', NULL_STRING), 0);
    assert [row] + [] == [row];
  }
}
