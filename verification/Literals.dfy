/** SQL literals of the shell: how values and names are printed into SQL text,
    how a value typed for a parameter is read, and what printed text looks like
    to the statement recogniser. Text is a sequence of characters; the quote
    characters are ASCII, so quoting bytes of UTF-8 is quoting characters. */
module Literals {
  import opened Common
  import opened Decimal
  import opened Lexemes
  import opened Recogniser
  import opened Tokenizing

  /** A float is the text that it is printed as; its rounding is not modelled. */
  datatype Value = Null | Integer(i: int) | Float(literal: string) | Text(s: string) | Blob(b: Bytes)

  /** The shapes that Rust prints a 64-bit float in: without exponent, or one of three names. */
  predicate IsFloatText(s: string) {
    var t := if s != [] && s[0] == '-' then s[1..] else s;
    t == "inf" || s == "NaN" || (t != [] && Decimal.IsDigit(t[0]) && AllDigitsOrDots(t))
  }

  predicate AllDigitsOrDots(s: string) { forall i :: 0 <= i < |s| ==> Decimal.IsDigit(s[i]) || s[i] == '.' }

  predicate Printable(v: Value) { v.Float? ==> IsFloatText(v.literal) }

  predicate InI64(n: int) { -0x8000_0000_0000_0000 <= n <= 0x7fff_ffff_ffff_ffff }

  // ---------- Printing ----------

  function Doubled(q: char, s: string): string {
    if s == [] then [] else (if s[0] == q then [q, q] else [s[0]]) + Doubled(q, s[1..])
  }

  function Quoted(q: char, s: string): string { [q] + Doubled(q, s) + [q] }

  lemma {:induction false} DoubledPush(q: char, s: string, c: char)
    ensures Doubled(q, s + [c]) == Doubled(q, s) + (if c == q then [q, q] else [c])
  {
    if s == [] {
      assert s + [c] == [c] && [c][1..] == [];
    } else {
      assert (s + [c])[1..] == s[1..] + [c];
      DoubledPush(q, s[1..], c);
    }
  }

  /** `quote_ident` and `sql_quote_string`, which differ in the quote. */
  method QuoteWith(q: char, s: string) returns (out: string)
    ensures out == Quoted(q, s)
  {
    out := [q];
    for i := 0 to |s|
      invariant out == [q] + Doubled(q, s[..i])
    {
      DoubledPush(q, s[..i], s[i]);
      assert s[..i + 1] == s[..i] + [s[i]];
      if s[i] == q {
        out := out + [q];
      }
      out := out + [s[i]];
    }
    assert s[..|s|] == s;
    out := out + [q];
  }

  function HexDigit(n: int): char
    requires 0 <= n < 16
  {
    "0123456789abcdef"[n]
  }

  function Hex(b: Bytes): string {
    if b == [] then [] else [HexDigit(b[0] as int / 16), HexDigit(b[0] as int % 16)] + Hex(b[1..])
  }

  lemma {:induction false} HexPush(b: Bytes, x: Byte)
    ensures Hex(b + [x]) == Hex(b) + [HexDigit(x as int / 16), HexDigit(x as int % 16)]
  {
    if b == [] {
      assert b + [x] == [x] && [x][1..] == [];
    } else {
      assert (b + [x])[1..] == b[1..] + [x];
      HexPush(b[1..], x);
    }
  }

  function Print(v: Value): string {
    match v
    case Null => "NULL"
    case Integer(i) => Format(i, 1)
    case Float(literal) => literal
    case Text(s) => Quoted('\'', s)
    case Blob(b) => "X'" + Hex(b) + "'"
  }

  method WriteText(start: string, s: string) returns (out: string)
    ensures out == start + Quoted('\'', s)
  {
    out := start + "'";
    var i := 0;
    while i < |s|
      invariant 0 <= i <= |s| && out == start + ("'" + Doubled('\'', s[..i]))
    {
      DoubledPush('\'', s[..i], s[i]);
      assert s[..i + 1] == s[..i] + [s[i]];
      if s[i] == '\'' {
        out := out + "''";
      } else {
        out := out + [s[i]];
      }
      i := i + 1;
    }
    assert s[..|s|] == s;
    out := out + "'";
  }

  method AppendHex(start: string, b: Bytes) returns (out: string)
    ensures out == start + Hex(b)
  {
    hide HexDigit;
    out := start;
    for i := 0 to |b|
      invariant out == start + Hex(b[..i])
    {
      HexPush(b[..i], b[i]);
      assert b[..i + 1] == b[..i] + [b[i]];
      out := out + [HexDigit(b[i] as int / 16), HexDigit(b[i] as int % 16)];
    }
    assert b[..|b|] == b;
  }

  method WriteBlob(start: string, b: Bytes) returns (out: string)
    ensures out == start + Print(Blob(b))
  {
    hide Hex;
    out := AppendHex(start + "X'", b);
    out := out + "'";
    Enclose(start, Hex(b));
  }

  lemma Enclose(start: string, body: string)
    ensures start + "X'" + body + "'" == start + ("X'" + body + "'")
  {
  }

  method WriteSqlValue(start: string, v: Value) returns (out: string)
    ensures out == start + Print(v)
  {
    match v
    case Null => out := start + "NULL";
    case Integer(i) => out := start + Format(i, 1);
    case Float(literal) => out := start + literal;
    case Text(s) => out := WriteText(start, s);
    case Blob(b) => out := WriteBlob(start, b);
  }

  // ---------- Reading a parameter value ----------

  /** Unicode White_Space, which `str::trim` removes. */
  predicate IsWhitespace(c: char) {
    || '\t' <= c <= '\r'
    || c in {' ', '\U{85}', '\U{A0}', '\U{1680}', '\U{2028}', '\U{2029}', '\U{202F}', '\U{205F}', '\U{3000}'}
    || '\U{2000}' <= c <= '\U{200A}'
  }

  function Trim(s: string): string {
    if s == [] then []
    else if IsWhitespace(s[0]) then Trim(s[1..])
    else if IsWhitespace(s[|s| - 1]) then Trim(s[..|s| - 1])
    else s
  }

  function ParseI64(s: string): Option<int> {
    var negative := s != [] && s[0] == '-';
    var digits := if s != [] && s[0] in {'+', '-'} then s[1..] else s;
    if digits == [] || !AllDigits(digits) then None
    else
      var n := if negative then 0 - ReadDigits(digits) as int else ReadDigits(digits);
      if InI64(n) then Some(n) else None
  }

  function DigitRun(s: string): (n: nat)
    ensures n <= |s|
  {
    if s != [] && Decimal.IsDigit(s[0]) then 1 + DigitRun(s[1..]) else 0
  }

  predicate IsExponent(s: string) {
    s == [] || (s[0] in {'e', 'E'} &&
                var d := if |s| > 1 && s[1] in {'+', '-'} then s[2..] else s[1..];
                d != [] && DigitRun(d) == |d|)
  }

  predicate IsUnsignedNumber(u: string) {
    var whole := DigitRun(u);
    var afterWhole := u[whole..];
    if afterWhole != [] && afterWhole[0] == '.' then
      var fraction := DigitRun(afterWhole[1..]);
      whole + fraction > 0 && IsExponent(afterWhole[1 + fraction..])
    else whole > 0 && IsExponent(afterWhole)
  }

  /** What `str::parse::<f64>` accepts. */
  predicate IsFloat(s: string) {
    var u := if s != [] && s[0] in {'+', '-'} then s[1..] else s;
    Upper(u) in {"INF", "INFINITY", "NAN"} || IsUnsignedNumber(u)
  }

  function HexValue(c: char): Option<int> {
    if '0' <= c <= '9' then Some(c as int - '0' as int)
    else if 'a' <= c <= 'f' then Some(10 + c as int - 'a' as int)
    else if 'A' <= c <= 'F' then Some(10 + c as int - 'A' as int)
    else None
  }

  function ParseHex(s: string): Option<Bytes> {
    if s == [] then Some([])
    else if |s| == 1 || HexValue(s[0]).None? || HexValue(s[1]).None? then None
    else PrependBytes([(16 * HexValue(s[0]).value + HexValue(s[1]).value) as Byte], ParseHex(s[2..]))
  }

  function PrependBytes(done: Bytes, r: Option<Bytes>): (all: Option<Bytes>)
    ensures done == [] ==> all == r
    ensures r == Some([]) ==> all == Some(done)
  {
    if r.None? then None
    else
      assert [] + r.value == r.value && done + [] == done;
      Some(done + r.value)
  }

  lemma PrependByte(done: Bytes, x: Byte, r: Option<Bytes>)
    ensures PrependBytes(done, PrependBytes([x], r)) == PrependBytes(done + [x], r)
  {
    if r.Some? {
      assert done + ([x] + r.value) == done + [x] + r.value;
    }
  }

  method ParseHexBlob(hex: string) returns (blob: Option<Bytes>)
    ensures blob == ParseHex(hex)
  {
    if |hex| % 2 != 0 {
      OddHex(hex);
      return None;
    }
    var out: Bytes := [];
    var i := 0;
    assert hex[0..] == hex;
    while i < |hex|
      invariant 0 <= i <= |hex| && i % 2 == 0
      invariant ParseHex(hex) == PrependBytes(out, ParseHex(hex[i..]))
    {
      var h, l := HexValue(hex[i]), HexValue(hex[i + 1]);
      assert hex[i..][2..] == hex[i + 2..];
      if h.None? || l.None? {
        return None;
      }
      var x := (16 * h.value + l.value) as Byte;
      PrependByte(out, x, ParseHex(hex[i + 2..]));
      out := out + [x];
      i := i + 2;
    }
    assert hex[|hex|..] == [];
    blob := Some(out);
  }

  lemma {:induction false} OddHex(s: string)
    requires |s| % 2 != 0
    ensures ParseHex(s).None?
  {
    if |s| > 1 { OddHex(s[2..]); }
  }

  /** `replace("''", "'")`: leftmost pairs, without overlap. */
  function Undouble(s: string): string {
    if |s| >= 2 && s[0] == '\'' && s[1] == '\'' then ['\''] + Undouble(s[2..])
    else if s == [] then []
    else [s[0]] + Undouble(s[1..])
  }

  predicate Enclosed(s: string, prefix: string) {
    |s| > |prefix| && prefix <= s && s[|s| - 1] == '\''
  }

  function Inner(s: string, prefix: string): string
    requires Enclosed(s, prefix)
  {
    s[|prefix|..|s| - 1]
  }

  datatype ParseError = BadHex

  function ParseParameterValue(text: string): Result<Value, ParseError> { ParseTrimmed(Trim(text)) }

  function ParseTrimmed(v: string): Result<Value, ParseError> {
    if Upper(v) == "NULL" then Ok(Null)
    else if ParseI64(v).Some? then Ok(Integer(ParseI64(v).value))
    else if ('.' in v || 'e' in v || 'E' in v) && IsFloat(v) then Ok(Float(v))
    else if Enclosed(v, "x'") || Enclosed(v, "X'") then
      (match ParseHex(Inner(v, if "x'" <= v then "x'" else "X'"))
       case None => Err(BadHex)
       case Some(b) => Ok(Blob(b)))
    else if Enclosed(v, "'") then Ok(Text(Undouble(Inner(v, "'"))))
    else Ok(Text(v))
  }

  // ---------- What is printed is read back ----------

  lemma {:induction false} UndoubleDoubled(s: string)
    ensures Undouble(Doubled('\'', s)) == s
  {
    if s != [] {
      UndoubleDoubled(s[1..]);
      var d, rest := Doubled('\'', s), Doubled('\'', s[1..]);
      if s[0] == '\'' {
        assert d[2..] == rest;
      } else {
        assert d[1..] == rest;
      }
      assert s == [s[0]] + s[1..];
    }
  }

  lemma HexDigitValue(n: int)
    requires 0 <= n < 16
    ensures HexDigit(n) == if n < 10 then '0' + n as char else 'a' + (n - 10) as char
    ensures HexValue(HexDigit(n)) == Some(n)
  {
  }

  lemma ParseHexPair(x: Byte, rest: string)
    ensures ParseHex([HexDigit(x as int / 16), HexDigit(x as int % 16)] + rest) == PrependBytes([x], ParseHex(rest))
  {
    var hi, lo := x as int / 16, x as int % 16;
    assert 0 <= hi < 16 && 16 * hi + lo == x as int;
    HexDigitValue(hi);
    HexDigitValue(lo);
    hide HexDigit, HexValue;
    var s := [HexDigit(hi), HexDigit(lo)] + rest;
    assert s[2..] == rest;
  }

  lemma {:induction false} ParseHexInverts(b: Bytes)
    ensures ParseHex(Hex(b)) == Some(b)
  {
    if b != [] {
      hide HexDigit, HexValue, ParseHex;
      ParseHexInverts(b[1..]);
      ParseHexPair(b[0], Hex(b[1..]));
      assert b == [b[0]] + b[1..];
    }
  }

  lemma ParseI64Inverts(i: int)
    requires InI64(i)
    ensures ParseI64(Format(i, 1)) == Some(i)
    ensures var s := Format(i, 1); s != [] && IsNumberChar(s[0]) && IsNumberChar(s[|s| - 1])
  {
    hide Format;
    FormatParts(i, 1);
    var s := Format(i, 1);
    var t := if i < 0 then s[1..] else s;
    FormatNonempty(i);
    assert s[|s| - 1] == t[|t| - 1];
  }

  predicate IsNumberChar(c: char) { Decimal.IsDigit(c) || c == '-' }

  lemma FormatNonempty(i: int)
    ensures i < 0 ==> |Format(i, 1)| > 1
  {
    if i < 0 { DigitsValue(-i); }
  }

  lemma TrimNothing(s: string)
    requires s != [] && !IsWhitespace(s[0]) && !IsWhitespace(s[|s| - 1])
    ensures Trim(s) == s
  {
  }

  lemma UpperFirst(s: string, t: string)
    requires s != [] && t != [] && (s[0] in {'\'', 'x', 'X'} || IsNumberChar(s[0])) && t[0] in {'N', 'I'}
    ensures Upper(s) != t
  {
    assert Upper(s)[0] != t[0];
  }

  lemma NotNumeric(s: string)
    requires s != [] && s[0] in {'\'', 'x', 'X'}
    ensures ParseI64(s).None? && !IsFloat(s)
  {
    UpperFirst(s, "INF");
    UpperFirst(s, "INFINITY");
    UpperFirst(s, "NAN");
    assert !Decimal.IsDigit(s[0]);
  }

  lemma TextReadBack(t: string)
    ensures ParseParameterValue(Quoted('\'', t)) == Ok(Text(t))
  {
    var s := Quoted('\'', t);
    TrimNothing(s);
    UpperFirst(s, "NULL");
    NotNumeric(s);
    hide Trim, Upper, ParseI64, IsFloat, Undouble, Doubled;
    UndoubleDoubled(t);
    assert Inner(s, "'") == Doubled('\'', t);
  }

  lemma BlobReadBack(b: Bytes)
    ensures ParseParameterValue("X'" + Hex(b) + "'") == Ok(Blob(b))
  {
    var s := "X'" + Hex(b) + "'";
    TrimNothing(s);
    UpperFirst(s, "NULL");
    NotNumeric(s);
    hide Trim, Upper, ParseI64, IsFloat, ParseHex, Hex;
    ParseHexInverts(b);
    assert Inner(s, "X'") == Hex(b);
  }

  /** Every NULL, 64-bit integer, text and blob that is printed into SQL is read
      back by the parameter parser as the same value. */
  lemma PrintedValueReadBack(v: Value)
    requires !v.Float? && (v.Integer? ==> InI64(v.i))
    ensures ParseParameterValue(Print(v)) == Ok(v)
  {
    match v
    case Null => TrimNothing("NULL");
    case Integer(i) =>
      var s := Format(i, 1);
      ParseI64Inverts(i);
      TrimNothing(s);
      UpperFirst(s, "NULL");
    case Text(t) => TextReadBack(t);
    case Blob(b) => BlobReadBack(b);
  }

  // ---------- What printed text looks like to the recogniser ----------

  predicate IsQuote(q: char) { q in {'\'', '"', '`'} }

  lemma QuoteSkips(q: char, rest: string)
    requires IsQuote(q)
    ensures Tokens([q] + rest) == Tokens(SkipPast(rest, q))
  {
    assert ([q] + rest)[1..] == rest;
  }

  lemma SkipStep(c: char, rest: string, q: char)
    ensures SkipPast([c] + rest, q) == if c == q then rest else SkipPast(rest, q)
  {
    assert ([c] + rest)[1..] == rest;
  }

  lemma {:induction false} DoubledSkipped(q: char, s: string, t: string)
    requires IsQuote(q)
    ensures Tokens(SkipPast(Doubled(q, s) + [q] + t, q)) == Tokens(t)
  {
    hide Tokens, SkipPast;
    var text := Doubled(q, s) + [q] + t;
    if s == [] {
      assert text == [q] + t;
      SkipStep(q, t, q);
    } else {
      var rest := Doubled(q, s[1..]) + [q] + t;
      DoubledSkipped(q, s[1..], t);
      if s[0] == q {
        assert text == [q] + ([q] + rest);
        SkipStep(q, [q] + rest, q);
        QuoteSkips(q, rest);
      } else {
        assert text == [s[0]] + rest;
        SkipStep(s[0], rest, q);
      }
    }
  }

  /** A quoted string or name in front of any text adds no token: nothing inside
      it, semicolon, keyword or quote, reaches the state machine. */
  lemma QuotedIsInvisible(q: char, s: string, t: string)
    requires IsQuote(q)
    ensures Tokens(Quoted(q, s) + t) == Tokens(t)
  {
    hide Tokens, SkipPast, Doubled;
    DoubledSkipped(q, s, t);
    var rest := Doubled(q, s) + [q] + t;
    QuoteSkips(q, rest);
    assert Quoted(q, s) + t == [q] + rest;
  }

  lemma QuotedLeavesState(q: char, s: string, state: ReadState)
    requires IsQuote(q)
    ensures Process(state, Quoted(q, s)) == state
  {
    QuotedIsInvisible(q, s, []);
    assert Quoted(q, s) + [] == Quoted(q, s);
  }

  // ---------- The INSERT statements of a dump ----------

  function PrintValues(vs: seq<Value>): string {
    if vs == [] then [] else Print(vs[0]) + (if |vs| > 1 then "," else "") + PrintValues(vs[1..])
  }

  function InsertText(table: string, vs: seq<Value>): string {
    "INSERT INTO " + Quoted('"', table) + " VALUES(" + PrintValues(vs) + ");"
  }

  /** Tokens that neither end nor head a statement. */
  predicate Plain(ts: seq<Token>) { forall i :: 0 <= i < |ts| ==> ts[i] == Other || ts[i] == Token.Whitespace }

  /** What follows text: only plain tokens are added in front of those of t. */
  ghost predicate AddsPlain(text: string, t: string) {
    exists ts :: Plain(ts) && Tokens(text + t) == ts + Tokens(t)
  }

  lemma PlainThen(a: string, b: string, t: string)
    requires AddsPlain(a, b + t) && AddsPlain(b, t)
    ensures AddsPlain(a + b, t)
  {
    hide Tokens;
    var x :| Plain(x) && Tokens(a + (b + t)) == x + Tokens(b + t);
    var y :| Plain(y) && Tokens(b + t) == y + Tokens(t);
    assert a + b + t == a + (b + t);
    assert x + (y + Tokens(t)) == (x + y) + Tokens(t);
    assert Plain(x + y);
  }

  /** A word that is no keyword, and a single character, in front of t. */
  lemma LexemeAddsPlain(x: Lexeme, t: string)
    requires Fits(x, t) && Plain(TokenOf(x))
    ensures AddsPlain(TextOf(x), t)
  {
    hide Fits, Tokens;
    LexemeTokens(x, t);
  }

  lemma WordAddsPlain(w: string, t: string)
    requires w != [] && w[0] in {'I', 'i', 'N', 'V', 'X'} && StopsWord(t) && AllWordChars(w)
    ensures AddsPlain(w, t)
  {
    assert KeywordOf(w) == Other;
    LexemeAddsPlain(Word(w), t);
  }

  lemma CharAddsPlain(c: char, t: string)
    requires c in {' ', '(', ')', ',', '.'} || Decimal.IsDigit(c) || (c == '-' && (t == [] || t[0] != '-'))
    ensures AddsPlain([c], t)
  {
    LexemeAddsPlain(if c == ' ' then Space(c) else Symbol(c), t);
  }

  lemma {:induction false} DigitsAddPlain(s: string, t: string)
    requires AllDigitsOrDots(s)
    ensures AddsPlain(s, t)
  {
    if s == [] {
      assert s + t == t && Plain([]) && [] + Tokens(t) == Tokens(t);
    } else {
      CharAddsPlain(s[0], s[1..] + t);
      DigitsAddPlain(s[1..], t);
      PlainThen([s[0]], s[1..], t);
      assert [s[0]] + s[1..] == s;
    }
  }

  lemma QuotedAddsPlain(q: char, s: string, t: string)
    requires IsQuote(q)
    ensures AddsPlain(Quoted(q, s), t)
  {
    QuotedIsInvisible(q, s, t);
    assert Plain([]) && [] + Tokens(t) == Tokens(t);
  }

  lemma IntegerAddsPlain(i: int, t: string)
    ensures AddsPlain(Format(i, 1), t)
  {
    hide Format;
    FormatParts(i, 1);
    var s := Format(i, 1);
    if i >= 0 {
      DigitsAddPlain(s, t);
    } else {
      FormatNonempty(i);
      assert Decimal.IsDigit(s[1..][0]);
      CharAddsPlain('-', s[1..] + t);
      DigitsAddPlain(s[1..], t);
      PlainThen(['-'], s[1..], t);
      assert ['-'] + s[1..] == s;
    }
  }

  lemma DoubledCons(q: char, c: char, rest: string)
    requires c != q
    ensures Doubled(q, [c] + rest) == [c] + Doubled(q, rest)
  {
    assert ([c] + rest)[1..] == rest;
  }

  lemma {:induction false} HexHasNoQuote(b: Bytes)
    ensures Doubled('\'', Hex(b)) == Hex(b)
  {
    if b != [] {
      HexHasNoQuote(b[1..]);
      var h, l, rest := HexDigit(b[0] as int / 16), HexDigit(b[0] as int % 16), Hex(b[1..]);
      assert h != '\'' && l != '\'';
      hide HexDigit, Doubled;
      DoubledCons('\'', l, rest);
      DoubledCons('\'', h, [l] + rest);
      assert Hex(b) == [h] + ([l] + rest);
    }
  }

  lemma BlobAddsPlain(b: Bytes, t: string)
    ensures AddsPlain(Print(Blob(b)), t)
  {
    hide AddsPlain, Hex, Doubled;
    HexHasNoQuote(b);
    var quoted := Quoted('\'', Hex(b));
    WordAddsPlain("X", quoted + t);
    QuotedAddsPlain('\'', Hex(b), t);
    PlainThen("X", quoted, t);
    assert "X" + quoted == Print(Blob(b));
  }

  lemma UnsignedAddsPlain(s: string, t: string)
    requires (s == "inf" || s == "NaN" || AllDigitsOrDots(s)) && StopsWord(t)
    ensures AddsPlain(s, t)
  {
    hide AddsPlain;
    if s == "inf" || s == "NaN" { WordAddsPlain(s, t); } else { DigitsAddPlain(s, t); }
  }

  lemma FloatAddsPlain(s: string, t: string)
    requires IsFloatText(s) && StopsWord(t)
    ensures AddsPlain(s, t)
  {
    hide AddsPlain;
    if s[0] == '-' {
      CharAddsPlain('-', s[1..] + t);
      UnsignedAddsPlain(s[1..], t);
      PlainThen("-", s[1..], t);
      assert "-" + s[1..] == s;
    } else {
      UnsignedAddsPlain(s, t);
    }
  }

  lemma ValueAddsPlain(v: Value, t: string)
    requires Printable(v) && StopsWord(t)
    ensures AddsPlain(Print(v), t)
  {
    hide AddsPlain;
    match v
    case Null => WordAddsPlain("NULL", t);
    case Integer(i) => IntegerAddsPlain(i, t);
    case Float(literal) => FloatAddsPlain(literal, t);
    case Text(s) => QuotedAddsPlain('\'', s, t);
    case Blob(b) => BlobAddsPlain(b, t);
  }

  lemma CommaAddsPlain(v: Value, rest: string, t: string)
    requires Printable(v) && AddsPlain(rest, t)
    ensures AddsPlain(Print(v) + ("," + rest), t)
  {
    hide AddsPlain, Print;
    CharAddsPlain(',', rest + t);
    PlainThen(",", rest, t);
    ValueAddsPlain(v, "," + rest + t);
    PlainThen(Print(v), "," + rest, t);
  }

  lemma NothingAddsPlain(t: string)
    ensures AddsPlain([], t)
  {
    assert [] + t == t && Plain([]) && [] + Tokens(t) == Tokens(t);
  }

  lemma {:induction false} ValuesAddPlain(vs: seq<Value>, t: string)
    requires (forall i :: 0 <= i < |vs| ==> Printable(vs[i])) && StopsWord(t)
    ensures AddsPlain(PrintValues(vs), t)
  {
    hide AddsPlain, Print, Printable;
    if vs == [] {
      NothingAddsPlain(t);
    } else {
      var rest := PrintValues(vs[1..]);
      if |vs| == 1 {
        assert PrintValues(vs) == Print(vs[0]);
        ValueAddsPlain(vs[0], t);
      } else {
        ValuesAddPlain(vs[1..], t);
        CommaAddsPlain(vs[0], rest, t);
        assert PrintValues(vs) == Print(vs[0]) + ("," + rest);
      }
    }
  }

  lemma KeywordsAddPlain(rest: string, t: string)
    requires AddsPlain(rest, t)
    ensures AddsPlain(" VALUES(" + rest, t)
  {
    hide AddsPlain;
    CharAddsPlain('(', rest + t);
    PlainThen("(", rest, t);
    WordAddsPlain("VALUES", "(" + rest + t);
    PlainThen("VALUES", "(" + rest, t);
    CharAddsPlain(' ', "VALUES" + ("(" + rest) + t);
    PlainThen(" ", "VALUES" + ("(" + rest), t);
    assert " " + ("VALUES" + ("(" + rest)) == " VALUES(" + rest;
  }

  lemma InsertIntoAddsPlain(rest: string, t: string)
    requires AddsPlain(rest, t)
    ensures AddsPlain("INSERT INTO " + rest, t)
  {
    hide AddsPlain;
    CharAddsPlain(' ', rest + t);
    PlainThen(" ", rest, t);
    WordAddsPlain("INTO", " " + rest + t);
    PlainThen("INTO", " " + rest, t);
    var into := "INTO" + (" " + rest);
    CharAddsPlain(' ', into + t);
    PlainThen(" ", into, t);
    WordAddsPlain("INSERT", " " + into + t);
    PlainThen("INSERT", " " + into, t);
    assert "INSERT" + (" " + into) == "INSERT INTO " + rest;
  }

  lemma InsertAddsPlain(table: string, vs: seq<Value>, t: string)
    requires forall i :: 0 <= i < |vs| ==> Printable(vs[i])
    requires StopsWord(t)
    ensures AddsPlain("INSERT INTO " + (Quoted('"', table) + (" VALUES(" + (PrintValues(vs) + ")"))), t)
  {
    hide AddsPlain, PrintValues, Quoted;
    var vals := PrintValues(vs);
    CharAddsPlain(')', t);
    ValuesAddPlain(vs, ")" + t);
    PlainThen(vals, ")", t);
    KeywordsAddPlain(vals + ")", t);
    var tail := " VALUES(" + (vals + ")");
    QuotedAddsPlain('"', table, tail + t);
    PlainThen(Quoted('"', table), tail, t);
    InsertIntoAddsPlain(Quoted('"', table) + tail, t);
  }

  lemma {:induction false} ErasePlain(ts: seq<Token>)
    requires Plain(ts)
    ensures forall i :: 0 <= i < |Erase(ts)| ==> Erase(ts)[i] == Other
  {
    if ts != [] {
      ErasePlain(Recogniser.Init(ts));
    }
  }

  lemma PlainThenSemi(ts: seq<Token>)
    requires Plain(ts)
    ensures var es := Erase(ts + [Semi]); es != [] && StatementEnd(es, |es|)
  {
    ErasePlain(ts);
    var es := Erase(ts + [Semi]);
    assert Recogniser.Init(ts + [Semi]) == ts;
    assert es == Erase(ts) + [Semi];
    assert forall k: nat :: HeadAt(es, k) ==> es[k - 1] == Trigger;
    assert SemiAt(es, |es|);
  }

  /** Every INSERT that a dump writes is to the recogniser one statement that ends at its last character,
      whatever the table's name and the values contain. */
  lemma InsertIsOneStatement(table: string, vs: seq<Value>)
    requires forall i :: 0 <= i < |vs| ==> Printable(vs[i])
    ensures var es := Erase(Tokens(InsertText(table, vs)));
            es != [] && StatementEnd(es, |es|) && IsComplete(InsertText(table, vs))
  {
    hide PrintValues, Quoted, IsScript, Tokens, Erase, StatementEnd;
    InsertAddsPlain(table, vs, ";");
    var text := "INSERT INTO " + (Quoted('"', table) + (" VALUES(" + (PrintValues(vs) + ")")));
    assert InsertText(table, vs) == text + ";";
    var ts :| Plain(ts) && Tokens(text + ";") == ts + Tokens(";");
    SemiToken();
    PlainThenSemi(ts);
    EndIsScript(Erase(ts + [Semi]));
    CompleteText(InsertText(table, vs));
  }

  lemma SemiToken()
    ensures Tokens(";") == [Semi]
  {
    assert LexOne(";") == Got(Semi, []);
    assert Tokens([]) == [];
  }

  lemma EndIsScript(es: seq<Token>)
    requires es != [] && StatementEnd(es, |es|)
    ensures IsScript(es)
  {
  }
}
