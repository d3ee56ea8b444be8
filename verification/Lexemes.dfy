/** What the tokens of a text are, by the lexical grammar of SQL rather than by the tokenizer: every text is
    comments, quoted text, words, spaces and single characters, one after the other, perhaps with something
    unclosed at its end, and the tokens of the text are theirs. */
module Lexemes {
  import opened Common
  import opened Recogniser
  import opened Tokenizing

  /** A block comment is what stands between two slashes, its first and last star included. What closes a
      dollar quote has the tag's low bytes, which need not be the tag. */
  datatype Lexeme =
    | LineComment(body: string)
    | BlockComment(stars: string)
    | Enclosed(open: char, body: string)
    | DollarQuoted(name: string, body: string, close: string)
    | Word(letters: string)
    | Semicolon
    | Space(c: char)
    | Parameter(name: string)
    | Symbol(c: char)

  const OPENERS: set<char> := {'\'', '"', '`', '['}

  function Closer(open: char): char { if open == '[' then ']' else open }

  function Tag(name: string): string { "$" + name + "$" }

  function TextOf(x: Lexeme): string {
    match x
    case LineComment(body) => "--" + body + "\n"
    case BlockComment(stars) => "/" + stars + "/"
    case Enclosed(open, body) => [open] + body + [Closer(open)]
    case DollarQuoted(name, body, close) => Tag(name) + body + close
    case Word(letters) => letters
    case Semicolon => ";"
    case Space(c) => [c]
    case Parameter(name) => "$" + name
    case Symbol(c) => [c]
  }

  // ---------- Which lexemes there are ----------

  predicate AllWordChars(w: string) { forall i :: 0 <= i < |w| ==> IsWordChar(w[i]) }

  predicate StopsWord(t: string) { t == [] || !IsWordChar(t[0]) }

  predicate IsName(w: string) { AllWordChars(w) && (w != [] ==> !IsDigit(w[0])) }

  predicate CommentEndsAt(s: string, i: int) { 0 <= i < |s| - 1 && s[i] == '*' && s[i + 1] == '/' }

  ghost predicate NoCommentEnd(s: string) { forall i :: !CommentEndsAt(s, i) }

  /** The tag begins at i, as far as the low bytes of the characters go. */
  predicate TagAt(s: string, tag: string, i: int) {
    0 <= i <= |s| - |tag| && LowBytes(s[i..i + |tag|]) == LowBytes(tag)
  }

  predicate ClosesTag(close: string, tag: string) { LowBytes(close) == LowBytes(tag) }

  ghost predicate NoTag(s: string, tag: string) { forall i :: !TagAt(s, tag, i) }

  /** The lexeme is one when the given text follows. */
  ghost predicate Fits(x: Lexeme, rest: string) {
    match x
    case LineComment(body) => '\n' !in body
    case BlockComment(stars) => stars != [] && stars[0] == '*' && stars[|stars| - 1] == '*' && NoCommentEnd(stars)
    case Enclosed(open, body) => open in OPENERS && Closer(open) !in body
    case DollarQuoted(name, body, close) =>
      IsName(name) && ClosesTag(close, Tag(name)) && forall i :: TagAt(body + close, Tag(name), i) ==> i >= |body|
    case Word(letters) => letters != [] && IsName(letters) && StopsWord(rest)
    case Semicolon => true
    case Space(c) => c in {' ', '\t', '\n', '\r', '\U{0C}'}
    case Parameter(name) =>
      IsName(name) && (rest != [] ==> rest[0] != '$' && !(IsWordChar(rest[0]) && (name != [] || !IsDigit(rest[0]))))
    case Symbol(c) =>
      && c !in OPENERS && c !in {'$', ';', '_', ' ', '\t', '\n', '\r', '\U{0C}'} && !IsAlpha(c)
      && !(c == '-' && rest != [] && rest[0] == '-') && !(c == '/' && rest != [] && rest[0] == '*')
  }

  /** A comment or a quotation that does not end, or nothing. */
  ghost predicate Unclosed(u: string) {
    || u == ""
    || (|u| >= 2 && u[..2] == "--" && '\n' !in u)
    || (|u| >= 2 && u[..2] == "/*" && NoCommentEnd(u[1..]))
    || (u[0] in OPENERS && Closer(u[0]) !in u[1..])
    || exists name :: TagOpens(u, name)
  }

  ghost predicate TagOpens(u: string, name: string) {
    IsName(name) && Tag(name) <= u && NoTag(u[|Tag(name)|..], Tag(name))
  }

  // ---------- Which tokens they give ----------

  /** The word is the keyword, in any mix of cases. */
  predicate Spells(w: string, keyword: string) {
    |w| == |keyword| && forall i :: 0 <= i < |w| ==> w[i] == keyword[i] || w[i] == SmallLetter(keyword[i])
  }

  function SmallLetter(c: char): char { if 'A' <= c <= 'Z' then 'a' + (c - 'A') else c }

  function KeywordOf(w: string): Token {
    if Spells(w, "CREATE") then Create
    else if Spells(w, "TRIGGER") then Trigger
    else if Spells(w, "TEMP") || Spells(w, "TEMPORARY") then Temp
    else if Spells(w, "END") then End
    else if Spells(w, "EXPLAIN") then Explain
    else Other
  }

  function TokenOf(x: Lexeme): seq<Token> {
    match x
    case LineComment(_) => []
    case BlockComment(_) => []
    case Enclosed(_, _) => []
    case DollarQuoted(_, _, _) => []
    case Word(letters) => [KeywordOf(letters)]
    case Semicolon => [Semi]
    case Space(_) => [Token.Whitespace]
    case Parameter(_) => [Other]
    case Symbol(_) => [Other]
  }

  // ---------- What decides a turn of the tokenizer ----------

  lemma TurnAtOpener(s: string)
    requires s != [] && s[0] in OPENERS
    ensures LexOne(s) == Skipped(SkipPast(s[1..], Closer(s[0])))
  {
    hide SkipPast, SkipBlock, ReadTag, SkipTagged, WordLength, Classify;
  }

  lemma TurnAtDollar(s: string)
    requires s != [] && s[0] == '$'
    ensures var (isQuote, tag, rest) := ReadTag(s[1..], "$");
            LexOne(s) == if isQuote then Skipped(SkipTagged(rest, LowBytes(tag), [])) else Got(Other, rest)
  {
    hide SkipPast, SkipBlock, ReadTag, SkipTagged, WordLength, Classify;
  }

  lemma TurnAtLetter(s: string)
    requires s != [] && (IsAlpha(s[0]) || s[0] == '_')
    ensures var n := WordLength(s[1..]);
            LexOne(s) == Got(Classify([s[0]] + s[1..][..n]), s[1..][n..])
  {
    hide SkipPast, SkipBlock, ReadTag, SkipTagged, WordLength, Classify;
  }

  // ---------- Words ----------

  lemma UpperSpells(w: string, keyword: string)
    requires forall i :: 0 <= i < |keyword| ==> 'A' <= keyword[i] <= 'Z'
    ensures Upper(w) == keyword <==> Spells(w, keyword)
  {
    if Spells(w, keyword) {
      assert forall i :: 0 <= i < |w| ==> Upper(w)[i] == keyword[i];
    }
    if Upper(w) == keyword {
      assert forall i :: 0 <= i < |w| ==> Upper(w)[i] == keyword[i];
    }
  }

  lemma ClassifySpells(w: string)
    ensures Classify(w) == KeywordOf(w)
  {
    UpperSpells(w, "EXPLAIN");
    UpperSpells(w, "CREATE");
    UpperSpells(w, "TEMP");
    UpperSpells(w, "TEMPORARY");
    UpperSpells(w, "TRIGGER");
    UpperSpells(w, "END");
    hide Upper, Spells;
  }

  lemma {:induction false} WordRun(w: string, t: string)
    requires AllWordChars(w) && StopsWord(t)
    ensures WordLength(w + t) == |w|
  {
    if w == [] {
      assert w + t == t;
    } else {
      assert (w + t)[1..] == w[1..] + t;
      WordRun(w[1..], t);
    }
  }

  lemma LexWord(w: string, t: string)
    requires Fits(Word(w), t)
    ensures LexOne(w + t) == Got(KeywordOf(w), t)
  {
    hide LexOne, Classify, KeywordOf, WordLength;
    var text, after := w + t, w[1..] + t;
    assert text[1..] == after;
    WordRun(w[1..], t);
    ClassifySpells(w);
    assert IsWordChar(w[0]);
    TurnAtLetter(text);
    assert w == [w[0]] + after[..|w| - 1];
    assert after[|w| - 1..] == t;
  }

  // ---------- Quoted text and line comments ----------

  lemma {:induction false} SkipFound(a: string, c: char, b: string)
    requires c !in a
    ensures SkipPast(a + [c] + b, c) == b
  {
    var s := a + [c] + b;
    if a == [] {
      assert s[1..] == b;
    } else {
      assert s[1..] == a[1..] + [c] + b;
      SkipFound(a[1..], c, b);
    }
  }

  lemma {:induction false} SkipMissing(a: string, c: char)
    requires c !in a
    ensures SkipPast(a, c) == []
  {
    if a != [] { SkipMissing(a[1..], c); }
  }

  lemma LexEnclosed(open: char, body: string, t: string)
    requires Fits(Enclosed(open, body), t)
    ensures LexOne(TextOf(Enclosed(open, body)) + t) == Skipped(t)
  {
    hide LexOne, SkipPast;
    SkipFound(body, Closer(open), t);
    var text := TextOf(Enclosed(open, body)) + t;
    TurnAtOpener(text);
    assert text[1..] == body + [Closer(open)] + t;
  }

  lemma LexLineComment(body: string, t: string)
    requires Fits(LineComment(body), t)
    ensures LexOne(TextOf(LineComment(body)) + t) == Skipped(t)
  {
    SkipFound(body, '\n', t);
    hide SkipPast, SkipBlock, ReadTag, SkipTagged, WordLength, Classify;
    var text := TextOf(LineComment(body)) + t;
    assert text[1..][1..] == body + ['\n'] + t;
  }

  // ---------- Block comments ----------

  /** The comment's last star has been read, or is still to come. */
  lemma {:induction false} SkipBlockEnds(s: string, sawStar: bool, t: string)
    requires NoCommentEnd(s) && (s == [] ==> sawStar) && (s != [] ==> s[|s| - 1] == '*' && !(sawStar && s[0] == '/'))
    ensures SkipBlock(s + "/" + t, sawStar) == t
  {
    var text := s + "/" + t;
    if s == [] {
      assert text[1..] == t;
    } else {
      assert text[1..] == s[1..] + "/" + t;
      assert |s| > 1 ==> !CommentEndsAt(s, 0);
      assert forall i :: CommentEndsAt(s[1..], i) ==> CommentEndsAt(s, i + 1);
      SkipBlockEnds(s[1..], s[0] == '*', t);
    }
  }

  lemma {:induction false} SkipBlockNever(s: string, sawStar: bool)
    requires NoCommentEnd(s) && (s != [] ==> !(sawStar && s[0] == '/'))
    ensures SkipBlock(s, sawStar) == []
  {
    if s != [] {
      assert |s| > 1 ==> !CommentEndsAt(s, 0);
      assert forall i :: CommentEndsAt(s[1..], i) ==> CommentEndsAt(s, i + 1);
      SkipBlockNever(s[1..], s[0] == '*');
    }
  }

  lemma LexBlockComment(stars: string, t: string)
    requires Fits(BlockComment(stars), t)
    ensures LexOne(TextOf(BlockComment(stars)) + t) == Skipped(t)
  {
    SkipBlockEnds(stars, false, t);
    hide SkipBlock;
    var text := TextOf(BlockComment(stars)) + t;
    assert text[1..] == stars + "/" + t;
    assert text[1..][0] == stars[0];
  }

  // ---------- Dollar quotes and parameters ----------

  lemma {:induction false} ReadName(name: string, rest: string, tag: string)
    requires AllWordChars(name) && (name != [] && |tag| <= 1 ==> !IsDigit(name[0])) && tag != []
    ensures ReadTag(name + rest, tag) == ReadTag(rest, tag + name)
  {
    if name == [] {
      assert name + rest == rest && tag + name == tag;
    } else {
      assert IsWordChar(name[0]);
      assert (name + rest)[1..] == name[1..] + rest;
      ReadName(name[1..], rest, tag + [name[0]]);
      assert tag + [name[0]] + name[1..] == tag + name;
    }
  }

  lemma ReadWholeTag(name: string, rest: string)
    requires IsName(name)
    ensures ReadTag(name + "$" + rest, "$") == (true, Tag(name), rest)
  {
    hide IsWordChar;
    ReadName(name, "$" + rest, "$");
    assert name + "$" + rest == name + ("$" + rest);
    assert ("$" + rest)[1..] == rest;
    assert ReadTag("$" + rest, "$" + name) == (true, "$" + name + ['$'], rest);
  }

  lemma LexParameter(name: string, t: string)
    requires Fits(Parameter(name), t)
    ensures LexOne(TextOf(Parameter(name)) + t) == Got(Other, t)
  {
    hide LexOne, SkipTagged;
    ReadName(name, t, "$");
    var text := TextOf(Parameter(name)) + t;
    TurnAtDollar(text);
    assert text[1..] == name + t;
    assert ReadTag(t, "$" + name) == (false, "$" + name, t);
  }

  /** The first n bytes end with the tag. */
  predicate EndsWith(all: seq<int>, tag: seq<int>, n: int) { |tag| <= n <= |all| && all[n - |tag|..n] == tag }

  lemma {:induction false} SkipTaggedTo(s: string, tag: seq<int>, buf: seq<int>, n: int)
    requires EndsWith(buf + LowBytes(s), tag, n) && n > |buf|
    requires forall m :: |buf| < m < n ==> !EndsWith(buf + LowBytes(s), tag, m)
    ensures SkipTagged(s, tag, buf) == s[n - |buf|..]
  {
    var seen := buf + [LowByte(s[0])];
    var all := buf + LowBytes(s);
    assert all == seen + LowBytes(s[1..]);
    assert all[..|seen|] == seen;
    assert EndsWith(all, tag, |seen|) <==> |seen| >= |tag| && seen[|seen| - |tag|..] == tag;
    if n > |seen| {
      SkipTaggedTo(s[1..], tag, seen, n);
      assert s[1..][n - |seen|..] == s[n - |buf|..];
    }
  }

  lemma {:induction false} SkipTaggedNever(s: string, tag: seq<int>, buf: seq<int>)
    requires forall m :: |buf| < m <= |buf| + |s| ==> !EndsWith(buf + LowBytes(s), tag, m)
    ensures SkipTagged(s, tag, buf) == []
  {
    if s != [] {
      var seen := buf + [LowByte(s[0])];
      var all := buf + LowBytes(s);
      assert all == seen + LowBytes(s[1..]);
      assert all[..|seen|] == seen;
      assert !EndsWith(all, tag, |seen|);
      SkipTaggedNever(s[1..], tag, seen);
    }
  }

  lemma TagEnds(s: string, tag: string, i: int)
    requires 0 <= i <= |s| - |tag|
    ensures TagAt(s, tag, i) <==> EndsWith([] + LowBytes(s), LowBytes(tag), i + |tag|)
  {
    assert [] + LowBytes(s) == LowBytes(s);
    assert LowBytes(s)[i..i + |tag|] == LowBytes(s[i..i + |tag|]);
  }

  /** What follows a tag that opens a quote: the text after its first occurrence there, by low bytes. */
  lemma LexDollar(name: string, s: string, i: int)
    requires IsName(name) && TagAt(s, Tag(name), i) && forall j :: TagAt(s, Tag(name), j) ==> j >= i
    ensures LexOne(Tag(name) + s) == Skipped(s[i + |Tag(name)|..])
  {
    hide LexOne, ReadTag, SkipTagged;
    var tag := Tag(name);
    ReadWholeTag(name, s);
    TurnAtDollar(tag + s);
    assert (tag + s)[1..] == name + "$" + s;
    TagEnds(s, tag, i);
    forall m | 0 < m < i + |tag| ensures !EndsWith([] + LowBytes(s), LowBytes(tag), m) {
      if m >= |tag| { TagEnds(s, tag, m - |tag|); }
    }
    SkipTaggedTo(s, LowBytes(tag), [], i + |tag|);
  }

  lemma LexUnclosedDollar(name: string, s: string)
    requires IsName(name) && NoTag(s, Tag(name))
    ensures LexOne(Tag(name) + s) == Skipped([])
  {
    hide LexOne, ReadTag, SkipTagged;
    var tag := Tag(name);
    ReadWholeTag(name, s);
    TurnAtDollar(tag + s);
    assert (tag + s)[1..] == name + "$" + s;
    forall m | 0 < m <= |s| ensures !EndsWith([] + LowBytes(s), LowBytes(tag), m) {
      if m >= |tag| { TagEnds(s, tag, m - |tag|); }
    }
    SkipTaggedNever(s, LowBytes(tag), []);
  }

  lemma TagInFront(front: string, s: string, tag: string, j: int)
    requires front <= s && 0 <= j <= |front| - |tag|
    ensures TagAt(front, tag, j) <==> TagAt(s, tag, j)
  {
    assert front[j..j + |tag|] == s[j..j + |tag|];
  }

  lemma ClosesAt(body: string, close: string, t: string, tag: string)
    requires ClosesTag(close, tag) && forall i :: TagAt(body + close, tag, i) ==> i >= |body|
    ensures |close| == |tag| && TagAt(body + close + t, tag, |body|)
    ensures forall j :: TagAt(body + close + t, tag, j) ==> j >= |body|
  {
    var s := body + close + t;
    assert |LowBytes(close)| == |LowBytes(tag)|;
    assert s[|body|..|body| + |tag|] == close;
    assert body + close <= s;
    forall j | TagAt(s, tag, j) ensures j >= |body| {
      if j < |body| { TagInFront(body + close, s, tag, j); }
    }
  }

  lemma LexDollarQuoted(name: string, body: string, close: string, t: string)
    requires Fits(DollarQuoted(name, body, close), t)
    ensures LexOne(TextOf(DollarQuoted(name, body, close)) + t) == Skipped(t)
  {
    hide LexOne, TagAt, ClosesTag;
    var tag := Tag(name);
    var s := body + close + t;
    ClosesAt(body, close, t, tag);
    LexDollar(name, s, |body|);
    assert TextOf(DollarQuoted(name, body, close)) + t == tag + s;
    assert s[|body| + |tag|..] == t;
  }

  // ---------- Each lexeme, in front of any text ----------

  function Lex(x: Lexeme, t: string): Lexed {
    if TokenOf(x) == [] then Skipped(t) else Got(TokenOf(x)[0], t)
  }

  lemma LexChar(x: Lexeme, t: string)
    requires (x.Semicolon? || x.Space? || x.Symbol?) && Fits(x, t)
    ensures LexOne(TextOf(x) + t) == Lex(x, t)
  {
    assert (TextOf(x) + t)[1..] == t;
    hide SkipPast, SkipBlock, ReadTag, SkipTagged, WordLength, Classify, KeywordOf;
  }

  lemma LexLexeme(x: Lexeme, t: string)
    requires Fits(x, t)
    ensures TextOf(x) != [] && LexOne(TextOf(x) + t) == Lex(x, t)
  {
    match x
    case LineComment(body) => LexLineComment(body, t);
    case BlockComment(stars) => LexBlockComment(stars, t);
    case Enclosed(open, body) => LexEnclosed(open, body, t);
    case DollarQuoted(name, body, close) => LexDollarQuoted(name, body, close, t);
    case Word(letters) => LexWord(letters, t);
    case Parameter(name) => LexParameter(name, t);
    case _ => LexChar(x, t);
  }

  /** A lexeme in front of any text that it fits puts its token, if it has one, in front of those of the text:
      a comment, a quotation, a bracketed name and a dollar-quoted body add nothing, whatever they contain. */
  lemma LexemeTokens(x: Lexeme, t: string)
    requires Fits(x, t)
    ensures Tokens(TextOf(x) + t) == TokenOf(x) + Tokens(t)
  {
    hide Fits, TextOf, LexOne;
    LexLexeme(x, t);
  }

  lemma UnclosedTokens(u: string)
    requires Unclosed(u)
    ensures Tokens(u) == []
  {
    hide LexOne, NoCommentEnd, NoTag;
    if u != "" {
      LexUnclosed(u);
      assert Tokens([]) == [];
    }
  }

  lemma LexUnclosed(u: string)
    requires Unclosed(u) && u != ""
    ensures LexOne(u) == Skipped([])
  {
    if |u| >= 2 && u[..2] == "--" && '\n' !in u {
      assert u[0] == '-' && u[1] == '-';
      SkipMissing(u[1..][1..], '\n');
    } else if |u| >= 2 && u[..2] == "/*" && NoCommentEnd(u[1..]) {
      assert u[0] == '/' && u[1] == '*';
      SkipBlockNever(u[1..], false);
    } else if u[0] in OPENERS && Closer(u[0]) !in u[1..] {
      SkipMissing(u[1..], Closer(u[0]));
    } else {
      var name :| TagOpens(u, name);
      LexUnclosedDollar(name, u[|Tag(name)|..]);
      assert u == Tag(name) + u[|Tag(name)|..];
    }
  }

  // ---------- Whole texts ----------

  function Spell(xs: seq<Lexeme>, u: string): string { if xs == [] then u else TextOf(xs[0]) + Spell(xs[1..], u) }

  ghost predicate Spelling(xs: seq<Lexeme>, u: string) {
    if xs == [] then Unclosed(u) else Fits(xs[0], Spell(xs[1..], u)) && Spelling(xs[1..], u)
  }

  function TokensOf(xs: seq<Lexeme>): seq<Token> { if xs == [] then [] else TokenOf(xs[0]) + TokensOf(xs[1..]) }

  /** The tokens of a text are those of its lexemes. */
  lemma {:induction false} SpelledTokens(xs: seq<Lexeme>, u: string)
    requires Spelling(xs, u)
    ensures Tokens(Spell(xs, u)) == TokensOf(xs)
  {
    hide Fits, Unclosed, TextOf, Tokens, TokenOf;
    if xs == [] {
      UnclosedTokens(u);
    } else {
      LexemeTokens(xs[0], Spell(xs[1..], u));
      SpelledTokens(xs[1..], u);
    }
  }

  // ---------- Every text is spelled ----------

  lemma {:induction false} FirstCommentEnd(s: string, i: int) returns (first: int)
    requires CommentEndsAt(s, i)
    ensures CommentEndsAt(s, first) && forall j :: CommentEndsAt(s, j) ==> j >= first
    decreases i
  {
    if j :| CommentEndsAt(s, j) && j < i {
      first := FirstCommentEnd(s, j);
    } else {
      first := i;
    }
  }

  lemma {:induction false} FirstTag(s: string, tag: string, i: int) returns (first: int)
    requires TagAt(s, tag, i)
    ensures TagAt(s, tag, first) && forall j :: TagAt(s, tag, j) ==> j >= first
    decreases i
  {
    if j :| TagAt(s, tag, j) && j < i {
      first := FirstTag(s, tag, j);
    } else {
      first := i;
    }
  }

  /** The text begins with a lexeme that fits what follows, or is unclosed. */
  ghost predicate Begins(s: string, x: Lexeme, t: string) { s == TextOf(x) + t && Fits(x, t) }

  lemma BlockBegins(s: string) returns (x: Lexeme, t: string)
    requires |s| >= 2 && s[..2] == "/*" && !NoCommentEnd(s[1..])
    ensures Begins(s, x, t)
  {
    var i :| CommentEndsAt(s[1..], i);
    var first := FirstCommentEnd(s[1..], i);
    var stars := s[1..first + 2];
    x, t := BlockComment(stars), s[first + 3..];
    assert s[0] == '/' && s[1] == '*' && s[1..][first] == '*' && s[1..][first + 1] == '/';
    forall j ensures !CommentEndsAt(stars, j) {
      if CommentEndsAt(stars, j) { assert CommentEndsAt(s[1..], j); }
    }
    assert s == "/" + stars + "/" + t;
  }

  lemma EnclosedBegins(s: string) returns (x: Lexeme, t: string)
    requires s != [] && s[0] in OPENERS && Closer(s[0]) in s[1..]
    ensures Begins(s, x, t)
  {
    var p := Find(s[1..], Closer(s[0]));
    assert s[1..][..|s| - 1] == s[1..];
    var body := s[1..][..p];
    x, t := Enclosed(s[0], body), s[p + 2..];
    assert s == [s[0]] + body + [Closer(s[0])] + t;
  }

  lemma LineBegins(s: string) returns (x: Lexeme, t: string)
    requires |s| >= 2 && s[..2] == "--" && '\n' in s
    ensures Begins(s, x, t)
  {
    assert s[0] == '-' && s[1] == '-';
    var p := Find(s[2..], '\n');
    assert s[2..][..|s| - 2] == s[2..] && s == "--" + s[2..];
    var body := s[2..][..p];
    x, t := LineComment(body), s[p + 3..];
    assert s == "--" + body + "\n" + t;
  }

  lemma DollarBegins(name: string, s: string) returns (x: Lexeme, t: string)
    requires IsName(name) && !NoTag(s, Tag(name))
    ensures Begins(Tag(name) + s, x, t)
  {
    var tag := Tag(name);
    var i :| TagAt(s, tag, i);
    var first := FirstTag(s, tag, i);
    var body, close := s[..first], s[first..first + |tag|];
    x, t := DollarQuoted(name, body, close), s[first + |tag|..];
    assert |body + close| == first + |tag| && body + close <= s;
    forall j | TagAt(body + close, tag, j) ensures j >= |body| {
      TagInFront(body + close, s, tag, j);
    }
    assert tag + s == tag + body + close + t;
  }

  /** The longest name in front of a text that does not begin with a digit. */
  lemma NameInFront(s: string) returns (n: nat)
    ensures n <= |s| && IsName(s[..n])
    ensures n < |s| ==> !(IsWordChar(s[n]) && (n > 0 || !IsDigit(s[n])))
  {
    if s != [] && IsDigit(s[0]) {
      n := 0;
    } else {
      n := WordLength(s);
      WordInFront(s);
      assert n > 0 ==> s[..n][0] == s[0];
    }
  }

  lemma {:induction false} WordInFront(s: string)
    ensures AllWordChars(s[..WordLength(s)]) && StopsWord(s[WordLength(s)..])
  {
    if s != [] && IsWordChar(s[0]) {
      WordInFront(s[1..]);
      var n := WordLength(s[1..]);
      assert s[..1 + n] == [s[0]] + s[1..][..n];
      assert s[1 + n..] == s[1..][n..];
    }
  }

  lemma WordBegins(s: string) returns (x: Lexeme, t: string)
    requires s != [] && (IsAlpha(s[0]) || s[0] == '_')
    ensures Begins(s, x, t)
  {
    WordInFront(s);
    var n := WordLength(s);
    x, t := Word(s[..n]), s[n..];
    assert s == s[..n] + s[n..];
  }

  lemma TagThen(name: string, rest: string)
    ensures "$" + name + ("$" + rest) == Tag(name) + rest && (Tag(name) + rest)[|Tag(name)|..] == rest
  {
  }

  lemma DollarCase(s: string) returns (x: Lexeme, t: string)
    requires s != [] && s[0] == '$' && !Unclosed(s)
    ensures Begins(s, x, t)
  {
    var n := NameInFront(s[1..]);
    var name, after := s[1..][..n], s[1..][n..];
    assert s == "$" + name + after;
    if after != [] && after[0] == '$' {
      assert after == "$" + after[1..];
      TagThen(name, after[1..]);
      assert TagOpens(s, name) <==> NoTag(after[1..], Tag(name));
      x, t := DollarBegins(name, after[1..]);
    } else {
      x, t := Parameter(name), after;
    }
  }

  lemma SomethingBegins(s: string) returns (x: Lexeme, t: string)
    requires s != [] && !Unclosed(s)
    ensures Begins(s, x, t)
  {
    var c, after := s[0], s[1..];
    assert s == [c] + after;
    if c in OPENERS {
      x, t := EnclosedBegins(s);
    } else if c == '$' {
      x, t := DollarCase(s);
    } else if c == '-' && after != [] && after[0] == '-' {
      assert s[..2] == "--";
      x, t := LineBegins(s);
    } else if c == '/' && after != [] && after[0] == '*' {
      assert s[..2] == "/*";
      x, t := BlockBegins(s);
    } else if IsAlpha(c) || c == '_' {
      x, t := WordBegins(s);
    } else {
      x, t := if c == ';' then Semicolon else if IsAsciiWhitespace(c) then Space(c) else Symbol(c), after;
    }
  }

  /** Every text has a spelling. */
  lemma {:induction false} EveryTextIsSpelled(s: string) returns (xs: seq<Lexeme>, u: string)
    ensures Spelling(xs, u) && Spell(xs, u) == s
    decreases |s|
  {
    hide Fits, Unclosed, TextOf;
    NothingIsUnclosed();
    if Unclosed(s) {
      xs, u := [], s;
    } else {
      var x, t := SomethingBegins(s);
      LexemeNonempty(x, t);
      xs, u := EveryTextIsSpelled(t);
      assert ([x] + xs)[1..] == xs;
      xs := [x] + xs;
    }
  }

  lemma NothingIsUnclosed()
    ensures Unclosed("")
  {
  }

  lemma LexemeNonempty(x: Lexeme, t: string)
    requires Fits(x, t)
    ensures TextOf(x) != []
  {
  }

  /** So a text is complete if and only if the tokens of its lexemes, whitespace aside, are one or more
      statements, the last of them finished, in whichever way it is spelled. */
  lemma CompleteSpelling(xs: seq<Lexeme>, u: string)
    requires Spelling(xs, u)
    ensures IsComplete(Spell(xs, u)) <==> IsScript(Erase(TokensOf(xs)))
  {
    hide Spelling, IsComplete, Tokens, IsScript, Erase;
    SpelledTokens(xs, u);
    CompleteText(Spell(xs, u));
  }

  // ---------- Where the tokenizer and SQL part ways ----------

  lemma WholeComment(body: string, t: string)
    requires NoCommentEnd(body + "*") && !(body != [] && body[0] == '/')
    ensures Fits(BlockComment("*" + body + "*"), t)
  {
    var stars := "*" + body + "*";
    assert stars[1] != '/';
    forall i ensures !CommentEndsAt(stars, i) {
      if i > 0 { assert CommentEndsAt(stars, i) <==> CommentEndsAt(body + "*", i - 1); }
    }
  }

  /** A comment as SQL has it, up to its first end after the opening, is skipped exactly when its body does not
      begin with a slash: the star of the opening is taken for that of an end. */
  lemma BlockCommentIff(body: string, t: string)
    requires NoCommentEnd(body + "*")
    ensures LexOne("/*" + body + "*/" + t).rest == t <==> !(body != [] && body[0] == '/')
    ensures Tokens("/*" + body + "*/" + t) == Tokens(if body != [] && body[0] == '/' then body[1..] + "*/" + t else t)
  {
    hide LexOne, Tokens, Fits;
    if body != [] && body[0] == '/' {
      var rest := body[1..] + "*/" + t;
      ShortComment(rest);
      LexLexeme(BlockComment("*"), rest);
      LexemeTokens(BlockComment("*"), rest);
      assert "/*" + body + "*/" + t == "/*/" + rest;
      assert |rest| > |t|;
    } else {
      var x := BlockComment("*" + body + "*");
      WholeComment(body, t);
      LexLexeme(x, t);
      LexemeTokens(x, t);
      assert "/*" + body + "*/" + t == TextOf(x) + t;
    }
  }

  lemma ShortComment(t: string)
    ensures Fits(BlockComment("*"), t) && TextOf(BlockComment("*")) == "/*/"
  {
  }

  /** For instance a comment that has a semicolon in it, and is nothing else, passes for a statement. */
  lemma CommentThatIsComplete()
    ensures IsComplete("/*/;--*/")
  {
    var xs := [BlockComment("*"), Semicolon];
    assert xs[1..] == [Semicolon] && xs[1..][1..] == [];
    assert Spell(xs[1..], "--*/") == ";" + "--*/";
    assert Spell(xs, "--*/") == "/*/;--*/";
    assert Unclosed("--*/") by { assert "--*/"[..2] == "--"; }
    assert Spelling(xs, "--*/");
    SpelledTokens(xs, "--*/");
    assert TokensOf(xs) == [Semi];
    assert Init([Semi]) == [];
  }

  /** Where a tag occurs first does not depend on what follows that occurrence. */
  lemma FirstStays(front: string, t: string, tag: string, first: int)
    requires TagAt(front, tag, first) && forall j :: TagAt(front, tag, j) ==> j >= first
    ensures TagAt(front + t, tag, first) && forall j :: TagAt(front + t, tag, j) ==> j >= first
  {
    hide LowBytes;
    TagInFront(front, front + t, tag, first);
    forall j | TagAt(front + t, tag, j) ensures j >= first {
      if j < first { TagInFront(front, front + t, tag, j); }
    }
  }

  /** A dollar quote as SQL has it, up to the first tag of its own, is skipped exactly when the low bytes of its
      characters do not show the tag earlier. */
  lemma DollarQuoteIff(name: string, body: string, t: string)
    requires IsName(name)
    ensures var tag := Tag(name);
            LexOne(tag + body + tag + t).rest == t <==> forall i :: TagAt(body + tag, tag, i) ==> i >= |body|
  {
    hide LexOne, TagAt, IsName, Tag;
    var tag := Tag(name);
    TagBehind(body, tag);
    var first := FirstTag(body + tag, tag, |body|);
    TagFits(body + tag, tag, first);
    FirstStays(body + tag, t, tag, first);
    LexDollar(name, body + tag + t, first);
    Regroup(tag, body, tag, t);
    RestIsWhole(body, tag, t, first);
  }

  lemma TagBehind(body: string, tag: string)
    ensures TagAt(body + tag, tag, |body|)
  {
    assert (body + tag)[|body|..|body| + |tag|] == tag;
  }

  lemma Regroup(a: string, b: string, c: string, d: string)
    ensures a + (b + c + d) == a + b + c + d
  {
  }

  lemma RestIsWhole(body: string, tag: string, t: string, first: int)
    requires 0 <= first <= |body|
    ensures (body + tag + t)[first + |tag|..] == t <==> first == |body|
  {
    var rest := (body + tag + t)[first + |tag|..];
    assert |rest| == |body| - first + |t|;
  }

  lemma TagFits(s: string, tag: string, i: int)
    requires TagAt(s, tag, i)
    ensures 0 <= i <= |s| - |tag|
  {
  }

  predicate OccursAt(s: string, w: string, i: int) { 0 <= i <= |s| - |w| && s[i..i + |w|] == w }

  lemma OneByteTag(s: string, tag: string, i: int)
    requires 0 <= i <= |s| - |tag| && (forall k :: 0 <= k < |s| ==> s[k] as int < 256)
    requires forall k :: 0 <= k < |tag| ==> tag[k] as int < 256
    ensures TagAt(s, tag, i) <==> OccursAt(s, tag, i)
  {
    var w := s[i..i + |tag|];
    if TagAt(s, tag, i) {
      forall k | 0 <= k < |tag| ensures w[k] == tag[k] {
        assert LowBytes(w)[k] == LowBytes(tag)[k];
      }
    }
  }

  /** Which is so for every body whose characters are one byte wide, as SQL has it. */
  lemma OneByteQuote(name: string, body: string, t: string)
    requires IsName(name) && forall k :: 0 <= k < |body| ==> body[k] as int < 256
    requires forall i :: OccursAt(body + Tag(name), Tag(name), i) ==> i >= |body|
    ensures Tokens(Tag(name) + body + Tag(name) + t) == Tokens(t)
  {
    var tag := Tag(name);
    assert forall k :: 0 < k < |tag| - 1 ==> tag[k] == name[k - 1] && IsWordChar(name[k - 1]);
    forall i | TagAt(body + tag, tag, i) ensures i >= |body| {
      OneByteTag(body + tag, tag, i);
    }
    LexemeTokens(DollarQuoted(name, body, tag), t);
    hide Tokens;
  }

  /** Two letters that are no dollars close a dollar quote. */
  lemma DollarQuoteThatIsComplete()
    ensures IsComplete("$$\U{0124}\U{0124};--$$")
  {
    var xs := [DollarQuoted("", "", "\U{0124}\U{0124}"), Semicolon];
    assert xs[1..] == [Semicolon] && xs[1..][1..] == [];
    assert Spell(xs[1..], "--$$") == ";" + "--$$";
    assert Tag("") == "$$";
    assert Spell(xs, "--$$") == "$$\U{0124}\U{0124};--$$";
    assert Unclosed("--$$") by { assert "--$$"[..2] == "--"; }
    assert Spelling(xs, "--$$");
    SpelledTokens(xs, "--$$");
    assert TokensOf(xs) == [Semi];
    assert Init([Semi]) == [];
  }
}
