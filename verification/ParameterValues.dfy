/** What a value typed for a parameter is read as, for every text: by the shapes of literals rather than by
    the order of the parser's attempts. */
module ParameterValues {
  import opened Common
  import opened Decimal
  import opened Lexemes
  import opened Literals
  import opened Tokenizing

  // ---------- Hex digits ----------

  /** A to F as small letters. */
  function LowerHex(s: string): string {
    seq(|s|, i requires 0 <= i < |s| => if 'A' <= s[i] <= 'F' then 'a' + (s[i] - 'A') else s[i])
  }

  lemma HexValueIs(c: char, n: int)
    requires 0 <= n < 16
    ensures HexValue(c) == Some(n) <==> HexDigit(n) == LowerHex([c])[0]
    ensures HexValue(c).Some? ==> 0 <= HexValue(c).value < 16
  {
  }

  /** Two characters are read as a byte exactly when they are its digits, in either case. */
  lemma HexPairIs(h: char, l: char, x: Byte)
    ensures HexValue(h).Some? && HexValue(l).Some? && 16 * HexValue(h).value + HexValue(l).value == x as int
            <==> LowerHex([h])[0] == HexDigit(x as int / 16) && LowerHex([l])[0] == HexDigit(x as int % 16)
  {
    HexValueIs(h, x as int / 16);
    HexValueIs(l, x as int % 16);
    hide HexValue, HexDigit;
  }

  lemma {:induction false} HexLength(b: Bytes)
    ensures |Hex(b)| == 2 * |b|
  {
    hide HexDigit;
    if b != [] { HexLength(b[1..]); }
  }

  lemma LowerHexSplit(s: string)
    requires |s| >= 2
    ensures LowerHex(s) == [LowerHex([s[0]])[0], LowerHex([s[1]])[0]] + LowerHex(s[2..])
  {
  }

  lemma PairEqual(a: char, b: char, rest: string, c: char, d: char, other: string)
    ensures [a, b] + rest == [c, d] + other <==> a == c && b == d && rest == other
  {
    if [a, b] + rest == [c, d] + other {
      assert ([a, b] + rest)[0] == ([c, d] + other)[0] && ([a, b] + rest)[1] == ([c, d] + other)[1];
      assert ([a, b] + rest)[2..] == rest && ([c, d] + other)[2..] == other;
    }
  }

  lemma PrependIs(x: Byte, r: Option<Bytes>, b: Bytes)
    requires b != []
    ensures PrependBytes([x], r) == Some(b) <==> x == b[0] && r == Some(b[1..])
  {
    assert b == [b[0]] + b[1..];
    if r.Some? { assert ([x] + r.value)[1..] == r.value && ([x] + r.value)[0] == x; }
  }

  /** Text is read as bytes exactly when it is what is written for them, in either case. */
  lemma {:induction false} ParseHexIff(s: string, b: Bytes)
    ensures ParseHex(s) == Some(b) <==> Hex(b) == LowerHex(s)
    decreases |s|
  {
    hide HexValue, HexDigit, PrependBytes;
    HexLength(b);
    if |s| >= 2 && b != [] {
      ParseHexIff(s[2..], b[1..]);
      HexPairIs(s[0], s[1], b[0]);
      LowerHexSplit(s);
      PairEqual(HexDigit(b[0] as int / 16), HexDigit(b[0] as int % 16), Hex(b[1..]),
                LowerHex([s[0]])[0], LowerHex([s[1]])[0], LowerHex(s[2..]));
      if HexValue(s[0]).Some? && HexValue(s[1]).Some? {
        HexValueIs(s[0], 0);
        HexValueIs(s[1], 0);
        PrependIs((16 * HexValue(s[0]).value + HexValue(s[1]).value) as Byte, ParseHex(s[2..]), b);
      }
    } else if |s| >= 2 {
      ParseHexNonempty(s);
    }
  }

  lemma ParseHexNonempty(s: string)
    requires s != []
    ensures ParseHex(s) != Some([])
  {
  }

  // ---------- White space ----------

  predicate AllSpace(s: string) { forall i :: 0 <= i < |s| ==> IsWhitespace(s[i]) }

  /** There is no white space at either end. */
  predicate Trimmed(v: string) { v != [] ==> !IsWhitespace(v[0]) && !IsWhitespace(v[|v| - 1]) }

  lemma {:induction false} TrimRight(v: string, b: string)
    requires Trimmed(v) && AllSpace(b)
    ensures Trim(v + b) == v
  {
    hide IsWhitespace;
    if b == [] {
      assert v + b == v;
    } else if v == [] {
      assert v + b == b && b[1..] == v + b[1..];
      TrimRight(v, b[1..]);
    } else {
      var last := b[|b| - 1];
      assert IsWhitespace(last);
      assert (v + b)[..|v + b| - 1] == v + b[..|b| - 1];
      TrimRight(v, b[..|b| - 1]);
    }
  }

  /** What is left between white space. */
  lemma {:induction false} TrimIs(a: string, v: string, b: string)
    requires AllSpace(a) && Trimmed(v) && AllSpace(b)
    ensures Trim(a + v + b) == v
  {
    hide IsWhitespace;
    if a == [] {
      TrimRight(v, b);
      assert a + v + b == v + b;
    } else {
      assert (a + v + b)[0] == a[0] && (a + v + b)[1..] == a[1..] + v + b;
      TrimIs(a[1..], v, b);
    }
  }

  lemma {:induction false} TrimEnds(s: string) returns (a: string, b: string)
    ensures AllSpace(a) && AllSpace(b) && Trimmed(Trim(s)) && s == a + Trim(s) + b
  {
    hide IsWhitespace;
    a, b := [], [];
    if s != [] && IsWhitespace(s[0]) {
      a, b := TrimEnds(s[1..]);
      a := [s[0]] + a;
    } else if s != [] && IsWhitespace(s[|s| - 1]) {
      a, b := TrimEnds(s[..|s| - 1]);
      assert s == s[..|s| - 1] + [s[|s| - 1]];
      b := b + [s[|s| - 1]];
    }
  }

  /** White space around a value changes nothing. */
  lemma SpaceAround(a: string, t: string, b: string)
    requires AllSpace(a) && AllSpace(b)
    ensures Trim(a + t + b) == Trim(t) && ParseParameterValue(a + t + b) == ParseParameterValue(t)
  {
    hide Trim, IsWhitespace;
    var c, d := TrimEnds(t);
    TrimIs(a + c, Trim(t), d + b);
    assert a + t + b == (a + c) + Trim(t) + (d + b);
  }

  // ---------- Integers ----------

  predicate IsSign(s: string) { s == "" || s == "+" || s == "-" }

  predicate IsDigits(d: string) { d != [] && AllDigits(d) }

  /** A sign, perhaps, and digits. */
  predicate Signed(s: string, sign: string, d: string) { IsSign(sign) && IsDigits(d) && s == sign + d }

  function ValueOf(sign: string, d: string): int
    requires AllDigits(d)
  {
    if sign == "-" then 0 - ReadDigits(d) else ReadDigits(d)
  }

  lemma SignedReads(sign: string, d: string)
    requires IsSign(sign) && IsDigits(d)
    ensures ParseI64(sign + d) == if InI64(ValueOf(sign, d)) then Some(ValueOf(sign, d)) else None
  {
    hide ReadDigits;
    assert Decimal.IsDigit(d[0]);
    var s := sign + d;
    assert sign != "" ==> s[1..] == d;
    assert sign == "" ==> s == d;
  }

  lemma ReadsSigned(s: string) returns (sign: string, d: string)
    requires ParseI64(s).Some?
    ensures Signed(s, sign, d)
  {
    if s[0] in {'+', '-'} {
      sign, d := [s[0]], s[1..];
    } else {
      sign, d := "", s;
    }
  }

  /** A text is read as a 64-bit integer exactly when it is a sign, perhaps, and digits, and has that value. */
  lemma ParseI64Iff(s: string, n: int)
    ensures ParseI64(s) == Some(n) <==> exists sign, d :: Signed(s, sign, d) && n == ValueOf(sign, d) && InI64(n)
  {
    hide ParseI64, ValueOf;
    if ParseI64(s).Some? {
      var sign, d := ReadsSigned(s);
      SignedReads(sign, d);
    }
    forall sign, d | Signed(s, sign, d) && n == ValueOf(sign, d) && InI64(n) ensures ParseI64(s) == Some(n) {
      SignedReads(sign, d);
    }
  }

  // ---------- Floats ----------

  lemma {:induction false} DigitRunIs(w: string, rest: string)
    requires AllDigits(w) && (rest != [] ==> !Decimal.IsDigit(rest[0]))
    ensures DigitRun(w + rest) == |w|
  {
    if w == [] {
      assert w + rest == rest;
    } else {
      assert Decimal.IsDigit(w[0]) && (w + rest)[1..] == w[1..] + rest;
      DigitRunIs(w[1..], rest);
    }
  }

  lemma {:induction false} DigitRunEnds(s: string)
    ensures AllDigits(s[..DigitRun(s)]) && (DigitRun(s) < |s| ==> !Decimal.IsDigit(s[DigitRun(s)]))
  {
    if s != [] && Decimal.IsDigit(s[0]) {
      DigitRunEnds(s[1..]);
      var n := DigitRun(s[1..]);
      assert s[..1 + n] == [s[0]] + s[1..][..n];
    }
  }

  lemma WholeRun(d: string)
    ensures DigitRun(d) == |d| <==> AllDigits(d)
  {
    DigitRunEnds(d);
    assert d[..|d|] == d;
    if AllDigits(d) {
      DigitRunIs(d, []);
      assert d + [] == d;
    }
  }

  /** e, a sign, perhaps, and digits. */
  predicate Exponent(s: string, e: char, sign: string, d: string) {
    e in {'e', 'E'} && IsSign(sign) && IsDigits(d) && s == [e] + sign + d
  }

  ghost predicate MaybeExponent(s: string) { s == "" || exists e, sign, d :: Exponent(s, e, sign, d) }

  lemma ExponentIff(s: string)
    ensures IsExponent(s) <==> MaybeExponent(s)
  {
    hide DigitRun;
    if s != "" && IsExponent(s) {
      var sign := if |s| > 1 && s[1] in {'+', '-'} then [s[1]] else "";
      var d := s[1 + |sign|..];
      WholeRun(d);
      assert Exponent(s, s[0], sign, d);
    }
    if e, sign, d :| Exponent(s, e, sign, d) {
      WholeRun(d);
      assert s[1 + |sign|..] == d && Decimal.IsDigit(d[0]);
      assert sign == "" ==> s[1] == d[0];
    }
  }

  /** Digits, perhaps a point and more of them, at least one in all, and perhaps an exponent. */
  predicate Number(t: string, whole: string, point: string, fraction: string, e: string) {
    && AllDigits(whole) && AllDigits(fraction) && whole + fraction != ""
    && (point == "." || (point == "" && fraction == ""))
    && t == whole + point + fraction + e
  }

  ghost predicate IsNumber(t: string) {
    exists whole, point, fraction, e :: Number(t, whole, point, fraction, e) && MaybeExponent(e)
  }

  lemma ExponentStart(e: string)
    requires MaybeExponent(e) && e != ""
    ensures e[0] in {'e', 'E'}
  {
  }

  /** With a point and without one. */
  lemma PointAccepted(whole: string, fraction: string, e: string)
    requires AllDigits(whole) && AllDigits(fraction) && whole + fraction != "" && IsExponent(e)
    requires e != "" ==> !Decimal.IsDigit(e[0])
    ensures IsUnsignedNumber(whole + ("." + (fraction + e)))
  {
    hide DigitRun, IsExponent;
    var rest := "." + (fraction + e);
    DigitRunIs(whole, rest);
    assert (whole + rest)[|whole|..] == rest;
    DigitRunIs(fraction, e);
    assert rest[1..] == fraction + e;
    assert rest[1 + |fraction|..] == e;
  }

  lemma PlainAccepted(whole: string, e: string)
    requires AllDigits(whole) && whole != "" && IsExponent(e) && (e != "" ==> e[0] in {'e', 'E'})
    ensures IsUnsignedNumber(whole + e)
  {
    hide DigitRun, IsExponent;
    DigitRunIs(whole, e);
    assert (whole + e)[|whole|..] == e;
  }

  lemma NumberAccepted(t: string, whole: string, point: string, fraction: string, e: string)
    requires Number(t, whole, point, fraction, e) && MaybeExponent(e)
    ensures IsUnsignedNumber(t)
  {
    hide DigitRun, IsExponent, MaybeExponent, IsUnsignedNumber;
    ExponentIff(e);
    if e != "" { ExponentStart(e); }
    if point == "." {
      PointAccepted(whole, fraction, e);
      assert t == whole + ("." + (fraction + e));
    } else {
      PlainAccepted(whole, e);
      assert t == whole + e;
    }
  }

  lemma PointSplit(rest: string) returns (fraction: string, e: string)
    requires rest != [] && rest[0] == '.'
    ensures rest == "." + fraction + e && AllDigits(fraction) && |fraction| == DigitRun(rest[1..])
    ensures rest[1 + |fraction|..] == e
  {
    hide DigitRun;
    DigitRunEnds(rest[1..]);
    var n := DigitRun(rest[1..]);
    fraction, e := rest[1..][..n], rest[1 + n..];
  }

  lemma AcceptedNumber(t: string)
    requires IsUnsignedNumber(t)
    ensures IsNumber(t)
  {
    hide DigitRun, IsExponent, MaybeExponent, Number;
    DigitRunEnds(t);
    var whole, rest := t[..DigitRun(t)], t[DigitRun(t)..];
    assert t == whole + rest;
    if rest != [] && rest[0] == '.' {
      var fraction, e := PointSplit(rest);
      ExponentIff(e);
      NumberOf(whole, ".", fraction, e);
    } else {
      ExponentIff(rest);
      assert rest == "" + "" + rest;
      NumberOf(whole, "", "", rest);
    }
  }

  lemma NumberOf(whole: string, point: string, fraction: string, e: string)
    requires AllDigits(whole) && AllDigits(fraction) && whole + fraction != ""
    requires point == "." || (point == "" && fraction == "")
    ensures Number(whole + (point + fraction + e), whole, point, fraction, e)
  {
    assert whole + (point + fraction + e) == whole + point + fraction + e;
  }

  predicate IsNamed(t: string) { Spells(t, "INF") || Spells(t, "INFINITY") || Spells(t, "NAN") }

  lemma NamedIff(t: string)
    ensures Upper(t) in {"INF", "INFINITY", "NAN"} <==> IsNamed(t)
  {
    hide Upper, Spells;
    UpperSpells(t, "INF");
    UpperSpells(t, "INFINITY");
    UpperSpells(t, "NAN");
  }

  predicate SignThen(s: string, sign: string, t: string) { IsSign(sign) && s == sign + t }

  /** What Rust documents for parsing a float. */
  ghost predicate IsFloatLiteral(s: string) {
    exists sign, t :: SignThen(s, sign, t) && (IsNamed(t) || IsNumber(t))
  }

  lemma UnsignedStart(t: string)
    requires IsNamed(t) || IsNumber(t)
    ensures t != [] && t[0] !in {'+', '-'}
  {
    if IsNumber(t) {
      var whole, point, fraction, e :| Number(t, whole, point, fraction, e) && MaybeExponent(e);
      assert whole != [] ==> t[0] == whole[0] && Decimal.IsDigit(whole[0]);
      assert whole == [] ==> t[0] == '.';
    }
  }

  lemma FloatIff(s: string)
    ensures IsFloat(s) <==> IsFloatLiteral(s)
  {
    hide IsUnsignedNumber, IsNamed, IsNumber, Upper;
    var sign := if s != [] && s[0] in {'+', '-'} then [s[0]] else "";
    var u := s[|sign|..];
    NamedIff(u);
    assert SignThen(s, sign, u);
    if IsUnsignedNumber(u) { AcceptedNumber(u); }
    forall sg, t | SignThen(s, sg, t) && (IsNamed(t) || IsNumber(t)) ensures IsFloat(s) {
      UnsignedStart(t);
      assert t == u;
      if IsNumber(t) { NumberIsAccepted(t); }
    }
  }

  lemma NumberIsAccepted(t: string)
    requires IsNumber(t)
    ensures IsUnsignedNumber(t)
  {
    var whole, point, fraction, e :| Number(t, whole, point, fraction, e) && MaybeExponent(e);
    NumberAccepted(t, whole, point, fraction, e);
  }

  // ---------- Quotes ----------

  predicate PairAt(s: string, i: int) { 0 <= i < |s| - 1 && s[i] == '\'' && s[i + 1] == '\'' }

  ghost predicate NoPair(s: string) { forall i :: !PairAt(s, i) }

  lemma {:induction false} UndoubleKeeps(s: string)
    requires NoPair(s)
    ensures Undouble(s) == s
  {
    if s != [] {
      assert !PairAt(s, 0);
      assert forall i :: PairAt(s[1..], i) ==> PairAt(s, i + 1);
      UndoubleKeeps(s[1..]);
    }
  }

  /** Up to its first pair of quotes a text stays as it is, the pair becomes one quote, and so on behind it. */
  lemma {:induction false} UndoubleFirst(front: string, rest: string)
    requires NoPair(front + "'")
    ensures Undouble(front + "''" + rest) == front + "'" + Undouble(rest)
  {
    var s := front + "''" + rest;
    if front == [] {
      assert s[2..] == rest;
    } else {
      assert !PairAt(front + "'", 0);
      assert s[1..] == front[1..] + "''" + rest;
      assert forall i :: PairAt(front[1..] + "'", i) ==> PairAt(front + "'", i + 1);
      UndoubleFirst(front[1..], rest);
      assert s[0] == front[0] && s[1] == (front + "'")[1];
      assert [front[0]] + (front[1..] + "'" + Undouble(rest)) == front + "'" + Undouble(rest);
    }
  }

  // ---------- Every text ----------

  /** The body of an enclosed literal. */
  predicate Literal(v: string, prefix: string, body: string) { v == prefix + body + "'" }

  lemma EnclosedIff(v: string, prefix: string)
    ensures Literals.Enclosed(v, prefix) ==> Literal(v, prefix, Inner(v, prefix))
    ensures forall body :: Literal(v, prefix, body) ==> Literals.Enclosed(v, prefix) && body == Inner(v, prefix)
  {
    if Literals.Enclosed(v, prefix) {
      assert v == prefix + Inner(v, prefix) + "'";
    }
    forall body | Literal(v, prefix, body)
      ensures Literals.Enclosed(v, prefix) && body == Inner(v, prefix)
    {
      assert prefix <= v;
    }
  }

  ghost predicate IsInteger(v: string, n: int) {
    InI64(n) && exists sign, d :: Signed(v, sign, d) && n == ValueOf(sign, d)
  }

  predicate LooksLikeFloat(v: string) { '.' in v || 'e' in v || 'E' in v }

  predicate BlobLiteral(v: string, body: string) { Literal(v, "x'", body) || Literal(v, "X'", body) }

  /** A text of digits looks like no float, and neither is a null. */
  lemma ShapesApart(v: string, n: int)
    ensures IsInteger(v, n) ==> !LooksLikeFloat(v) && !Spells(v, "NULL")
    ensures LooksLikeFloat(v) ==> !Spells(v, "NULL")
  {
    if IsInteger(v, n) {
      var sign, d :| Signed(v, sign, d) && n == ValueOf(sign, d);
      assert forall i :: 0 <= i < |v| ==> v[i] in {'+', '-'} || Decimal.IsDigit(v[i]);
      assert v[|v| - 1] == d[|d| - 1];
    }
  }

  lemma QuotedApart(v: string)
    requires Literals.Enclosed(v, "x'") || Literals.Enclosed(v, "X'") || Literals.Enclosed(v, "'")
    ensures Upper(v) != "NULL" && ParseI64(v).None? && !IsFloat(v)
    ensures Literals.Enclosed(v, "'") ==> !Literals.Enclosed(v, "x'") && !Literals.Enclosed(v, "X'")
  {
    UpperFirst(v, "NULL");
    NotNumeric(v);
  }

  /** NULL, integers and floats. */
  lemma NumericIff(text: string, n: int, f: string)
    ensures var r, v := ParseParameterValue(text), Trim(text);
            && (r == Ok(Null) <==> Spells(v, "NULL"))
            && (r == Ok(Integer(n)) <==> IsInteger(v, n))
            && (r == Ok(Float(f)) <==> f == v && LooksLikeFloat(v) && IsFloatLiteral(v))
  {
    hide Trim, Upper, Spells, ParseI64, IsFloat, IsFloatLiteral, ParseHex, Undouble, IsInteger;
    var v := Trim(text);
    UpperSpells(v, "NULL");
    IntegerIff(v, n);
    FloatIff(v);
    ShapesApart(v, n);
    if ParseI64(v).Some? {
      IntegerIff(v, ParseI64(v).value);
      ShapesApart(v, ParseI64(v).value);
    }
  }

  lemma IntegerIff(v: string, n: int)
    ensures ParseI64(v) == Some(n) <==> IsInteger(v, n)
  {
    ParseI64Iff(v, n);
  }

  lemma BlobBody(v: string, body: string)
    requires BlobLiteral(v, body)
    ensures ParseTrimmed(v) == if ParseHex(body).Some? then Ok(Blob(ParseHex(body).value)) else Err(BadHex)
  {
    hide Upper, ParseI64, IsFloat, ParseHex, Undouble;
    EnclosedIff(v, "x'");
    EnclosedIff(v, "X'");
    QuotedApart(v);
  }

  lemma BlobEnclosedIff(v: string)
    ensures Literals.Enclosed(v, "x'") || Literals.Enclosed(v, "X'") <==> exists body :: BlobLiteral(v, body)
  {
    EnclosedIff(v, "x'");
    EnclosedIff(v, "X'");
    assert Literals.Enclosed(v, "x'") ==> BlobLiteral(v, Inner(v, "x'"));
    assert Literals.Enclosed(v, "X'") ==> BlobLiteral(v, Inner(v, "X'"));
  }

  lemma NoBlobBody(v: string)
    requires forall body :: !BlobLiteral(v, body)
    ensures ParseTrimmed(v).Ok? && !ParseTrimmed(v).value.Blob?
  {
    hide Upper, ParseI64, IsFloat, ParseHex, Undouble;
    BlobEnclosedIff(v);
  }

  lemma OneBody(v: string, a: string, b: string)
    requires BlobLiteral(v, a) && BlobLiteral(v, b)
    ensures a == b
  {
    assert a == v[2..|v| - 1] && b == v[2..|v| - 1];
  }

  ghost predicate IsHex(s: string) { exists b :: Hex(b) == LowerHex(s) }

  lemma HexIff(s: string)
    ensures ParseHex(s).Some? <==> IsHex(s)
  {
    forall b ensures ParseHex(s) == Some(b) <==> Hex(b) == LowerHex(s) { ParseHexIff(s, b); }
    hide ParseHex, Hex, LowerHex;
    if ParseHex(s).Some? { assert Hex(ParseHex(s).value) == LowerHex(s); }
  }

  /** Blobs, in either case of the prefix and of the digits, and what is refused. */
  lemma BlobIff(text: string, b: Bytes)
    ensures var r, v := ParseParameterValue(text), Trim(text);
            && (r == Ok(Blob(b)) <==> exists body :: BlobLiteral(v, body) && Hex(b) == LowerHex(body))
            && (r.Err? <==> exists body :: BlobLiteral(v, body) && !IsHex(body))
  {
    hide Trim, ParseTrimmed, ParseHex, Hex, LowerHex, BlobLiteral, IsHex;
    var v := Trim(text);
    if body :| BlobLiteral(v, body) {
      BlobBody(v, body);
      ParseHexIff(body, b);
      HexIff(body);
      forall other | BlobLiteral(v, other) ensures other == body { OneBody(v, other, body); }
    } else {
      NoBlobBody(v);
    }
  }

  /** The text has no other shape. */
  ghost predicate Bare(v: string) {
    && !Spells(v, "NULL") && (forall n :: !IsInteger(v, n)) && !(LooksLikeFloat(v) && IsFloatLiteral(v))
    && forall body :: !BlobLiteral(v, body) && !Literal(v, "'", body)
  }

  lemma QuotedBody(v: string, body: string)
    requires Literal(v, "'", body)
    ensures ParseTrimmed(v) == Ok(Text(Undouble(body)))
  {
    hide Upper, ParseI64, IsFloat, ParseHex, Undouble;
    EnclosedIff(v, "'");
    QuotedApart(v);
  }

  lemma BareIs(v: string)
    requires forall body :: !Literal(v, "'", body)
    ensures ParseTrimmed(v).Ok? && ParseTrimmed(v).value.Text? <==> Bare(v)
    ensures Bare(v) ==> ParseTrimmed(v) == Ok(Text(v))
  {
    hide Upper, Spells, ParseI64, IsFloat, IsFloatLiteral, ParseHex, Undouble, IsInteger, BlobLiteral, Literal;
    BlobEnclosedIff(v);
    EnclosedIff(v, "'");
    UpperSpells(v, "NULL");
    FloatIff(v);
    forall n ensures ParseI64(v) == Some(n) <==> IsInteger(v, n) { IntegerIff(v, n); }
    assert ParseI64(v).Some? ==> IsInteger(v, ParseI64(v).value);
  }

  /** Whatever is nothing else is text: without its quotes if it has both, with pairs of quotes made one, and
      otherwise as it is. */
  lemma TextIff(text: string, s: string)
    ensures var r, v := ParseParameterValue(text), Trim(text);
            r == Ok(Text(s)) <==> (exists body :: Literal(v, "'", body) && s == Undouble(body)) || (s == v && Bare(v))
  {
    hide Trim, ParseTrimmed, Undouble, Literal;
    var v := Trim(text);
    if body :| Literal(v, "'", body) {
      QuotedBody(v, body);
      forall other | Literal(v, "'", other) ensures other == body { OneQuotedBody(v, other, body); }
    } else {
      BareIs(v);
    }
  }

  lemma OneQuotedBody(v: string, a: string, b: string)
    requires Literal(v, "'", a) && Literal(v, "'", b)
    ensures a == b
  {
    assert a == v[1..|v| - 1] && b == v[1..|v| - 1];
  }
}
