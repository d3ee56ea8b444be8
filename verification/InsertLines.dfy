/** A reader of the dump's INSERT statements that knows only SQL's quoting: the table's name between double
    quotes, and literals between commas that are not inside single quotes. */
module InsertLines {
  import opened Common
  import opened Decimal
  import opened Literals

  // ---------- The reader ----------

  /** A name in double quotes, where two of them stand for one, and what follows it. */
  function ReadName(s: string, name: string): Option<(string, string)> {
    if s == [] then None
    else if s[0] != '"' then ReadName(s[1..], name + [s[0]])
    else if |s| >= 2 && s[1] == '"' then ReadName(s[2..], name + ['"'])
    else Some((name, s[1..]))
  }

  function SplitValues(s: string, quoted: bool, piece: string): seq<string> {
    if s == [] then [piece]
    else if s[0] == ',' && !quoted then [piece] + SplitValues(s[1..], false, "")
    else SplitValues(s[1..], quoted != (s[0] == '\''), piece + [s[0]])
  }

  /** The table's name and the literals of an INSERT. */
  function ReadInsert(t: string): Option<(string, seq<string>)> {
    if !("INSERT INTO \"" <= t) then None
    else
      match ReadName(t[13..], "")
      case None => None
      case Some((name, rest)) =>
        if |rest| < 10 || !(" VALUES(" <= rest) || rest[|rest| - 2..] != ");" then None
        else Some((name, SplitValues(rest[8..|rest| - 2], false, "")))
  }

  // ---------- Names ----------

  lemma {:induction false} NameReadBack(s: string, name: string, rest: string)
    requires rest == [] || rest[0] != '"'
    ensures ReadName(Doubled('"', s) + "\"" + rest, name) == Some((name + s, rest))
  {
    var text := Doubled('"', s) + "\"" + rest;
    if s == [] {
      assert text == "\"" + rest && text[1..] == rest && name + s == name;
    } else {
      var later := Doubled('"', s[1..]) + "\"" + rest;
      NameReadBack(s[1..], name + [s[0]], rest);
      assert name + [s[0]] + s[1..] == name + s;
      if s[0] == '"' {
        assert text == "\"\"" + later && text[2..] == later;
      } else {
        assert text == [s[0]] + later && text[1..] == later;
      }
    }
  }

  // ---------- Values ----------

  /** Where a quotation is open after the text. */
  function QuotedAfter(s: string, quoted: bool): bool {
    if s == [] then quoted else QuotedAfter(s[1..], quoted != (s[0] == '\''))
  }

  predicate NoBareComma(s: string, quoted: bool) {
    s == [] || (!(s[0] == ',' && !quoted) && NoBareComma(s[1..], quoted != (s[0] == '\'')))
  }

  /** The text is one value: it closes what it opens, and its commas are quoted. */
  predicate IsWhole(s: string) { NoBareComma(s, false) && !QuotedAfter(s, false) }

  lemma {:induction false} SplitPast(s: string, rest: string, quoted: bool, piece: string)
    requires NoBareComma(s, quoted)
    ensures SplitValues(s + rest, quoted, piece) == SplitValues(rest, QuotedAfter(s, quoted), piece + s)
  {
    if s == [] {
      assert s + rest == rest && piece + s == piece;
    } else {
      assert (s + rest)[1..] == s[1..] + rest;
      SplitPast(s[1..], rest, quoted != (s[0] == '\''), piece + [s[0]]);
      assert piece + [s[0]] + s[1..] == piece + s;
    }
  }

  lemma {:induction false} PlainIsWhole(s: string)
    requires ',' !in s && '\'' !in s
    ensures IsWhole(s)
  {
    if s != [] { PlainIsWhole(s[1..]); }
  }

  /** Doubled quotes and whatever they enclose, up to the closing quote. */
  lemma {:induction false} DoubledIsQuoted(s: string)
    ensures NoBareComma(Doubled('\'', s) + "'", true) && !QuotedAfter(Doubled('\'', s) + "'", true)
  {
    var text := Doubled('\'', s) + "'";
    if s == [] {
      assert text == "'" && text[1..] == [];
    } else {
      var later := Doubled('\'', s[1..]) + "'";
      DoubledIsQuoted(s[1..]);
      if s[0] == '\'' {
        assert text == "''" + later && text[1..] == "'" + later && text[1..][1..] == later;
      } else {
        assert text == [s[0]] + later && text[1..] == later;
      }
    }
  }

  lemma QuotedIsWhole(s: string)
    ensures IsWhole(Quoted('\'', s))
  {
    DoubledIsQuoted(s);
    hide Doubled;
    assert Quoted('\'', s)[1..] == Doubled('\'', s) + "'";
  }

  lemma LetterThen(c: char, s: string)
    requires c != ',' && c != '\'' && IsWhole(s)
    ensures IsWhole([c] + s)
  {
    assert ([c] + s)[1..] == s;
  }

  lemma ValueIsWhole(v: Value)
    requires Printable(v)
    ensures IsWhole(Print(v))
  {
    match v
    case Null => PlainIsWhole("NULL");
    case Integer(i) =>
      FormatCharacters(i, 1);
      PlainIsWhole(Format(i, 1));
    case Float(literal) =>
      FloatIsPlain(literal);
      PlainIsWhole(literal);
    case Text(s) => QuotedIsWhole(s);
    case Blob(b) =>
      HexHasNoQuote(b);
      QuotedIsWhole(Hex(b));
      LetterThen('X', Quoted('\'', Hex(b)));
      assert ['X'] + Quoted('\'', Hex(b)) == Print(v);
  }

  lemma FloatIsPlain(s: string)
    requires IsFloatText(s)
    ensures ',' !in s && '\'' !in s
  {
    var t := if s[0] == '-' then s[1..] else s;
    assert s == if s[0] == '-' then "-" + t else t;
  }

  function LiteralsOf(vs: seq<Value>): (texts: seq<string>)
    ensures |texts| == |vs| && forall k :: 0 <= k < |vs| ==> texts[k] == Print(vs[k])
  {
    seq(|vs|, k requires 0 <= k < |vs| => Print(vs[k]))
  }

  /** The values are found again, in their order. */
  lemma {:induction false} ValuesReadBack(vs: seq<Value>)
    requires vs != [] && forall k :: 0 <= k < |vs| ==> Printable(vs[k])
    ensures SplitValues(PrintValues(vs), false, "") == LiteralsOf(vs)
  {
    hide Print, Printable, IsWhole, SplitValues, PrintValues, LiteralsOf;
    var v, rest := vs[0], vs[1..];
    assert vs == [v] + rest;
    ValueIsWhole(v);
    FirstLiteral(v, rest);
    if rest == [] {
      OnePrinted(v);
      LastValue(Print(v));
      assert vs == [v] && LiteralsOf(rest) == [];
    } else {
      ValuesReadBack(rest);
      MorePrinted(v, rest);
      NextValue(Print(v), PrintValues(rest));
    }
  }

  lemma OnePrinted(v: Value)
    ensures PrintValues([v]) == Print(v)
  {
    hide Print;
    assert PrintValues([v][1..]) == [];
    assert Print(v) + "" + [] == Print(v);
  }

  lemma MorePrinted(v: Value, vs: seq<Value>)
    requires vs != []
    ensures PrintValues([v] + vs) == Print(v) + ("," + PrintValues(vs))
  {
    hide Print;
    assert ([v] + vs)[1..] == vs;
    assert PrintValues([v] + vs) == Print(v) + "," + PrintValues(vs);
    hide PrintValues;
    Regroup(Print(v), ",", PrintValues(vs));
  }

  lemma FirstLiteral(v: Value, vs: seq<Value>)
    ensures LiteralsOf([v] + vs) == [Print(v)] + LiteralsOf(vs)
  {
    hide Print;
  }

  lemma Regroup(a: string, b: string, c: string)
    ensures a + b + c == a + (b + c)
  {
  }

  lemma LastValue(first: string)
    requires IsWhole(first)
    ensures SplitValues(first, false, "") == [first]
  {
    WholeThen(first, "", "");
    assert first + "" == first && "" + first == first;
  }

  lemma NextValue(first: string, later: string)
    requires IsWhole(first)
    ensures SplitValues(first + ("," + later), false, "") == [first] + SplitValues(later, false, "")
  {
    WholeThen(first, "," + later, "");
    assert ("," + later)[1..] == later && "" + first == first;
  }

  lemma WholeThen(s: string, rest: string, piece: string)
    requires IsWhole(s)
    ensures SplitValues(s + rest, false, piece) == SplitValues(rest, false, piece + s)
  {
    SplitPast(s, rest, false, piece);
  }

  /** Every INSERT of a dump reads as its table and the literals of its values in their order, whatever the name
      and the values contain; each literal but a float's is read back as its value. */
  lemma InsertReadBack(table: string, vs: seq<Value>)
    requires vs != [] && forall k :: 0 <= k < |vs| ==> Printable(vs[k])
    ensures ReadInsert(InsertText(table, vs)) == Some((table, LiteralsOf(vs)))
    ensures forall k :: 0 <= k < |vs| && !vs[k].Float? && (vs[k].Integer? ==> InI64(vs[k].i)) ==>
              ParseParameterValue(LiteralsOf(vs)[k]) == Ok(vs[k])
  {
    hide PrintValues, Doubled, ReadName, SplitValues, ParseParameterValue, Print;
    var vals := PrintValues(vs);
    var rest := " VALUES(" + vals + ");";
    ValuesReadBack(vs);
    NameReadBack(table, "", rest);
    var text := InsertText(table, vs);
    assert text == "INSERT INTO \"" + (Doubled('"', table) + "\"" + rest);
    assert text[13..] == Doubled('"', table) + "\"" + rest;
    assert rest[8..|rest| - 2] == vals && rest[|rest| - 2..] == ");" && "" + table == table;
    forall k | 0 <= k < |vs| && !vs[k].Float? && (vs[k].Integer? ==> InI64(vs[k].i))
      ensures ParseParameterValue(LiteralsOf(vs)[k]) == Ok(vs[k])
    {
      PrintedValueReadBack(vs[k]);
    }
  }
}
