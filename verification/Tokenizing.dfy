/** The tokenizer of the statement recogniser. It skips string literals, quoted
    identifiers, dollar-quoted text and comments, so that only tokens outside
    them reach the state machine. */
module Tokenizing {
  import opened Common
  import opened Recogniser

  predicate IsAlpha(c: char) { 'a' <= c <= 'z' || 'A' <= c <= 'Z' }

  predicate IsDigit(c: char) { '0' <= c <= '9' }

  predicate IsWordChar(c: char) { IsAlpha(c) || IsDigit(c) || c == '_' }

  predicate IsAsciiWhitespace(c: char) { c in {' ', '\t', '\n', '\r', '\U{0C}'} }

  function Upper(s: string): string {
    seq(|s|, i requires 0 <= i < |s| => if 'a' <= s[i] <= 'z' then s[i] - 'a' + 'A' else s[i])
  }

  function Classify(word: string): Token {
    var u := Upper(word);
    if u == "EXPLAIN" then Explain
    else if u == "CREATE" then Create
    else if u == "TEMP" || u == "TEMPORARY" then Temp
    else if u == "TRIGGER" then Trigger
    else if u == "END" then End
    else Other
  }

  /** What is left after the first c, or nothing when there is none. */
  function SkipPast(s: string, c: char): (rest: string)
    ensures |rest| <= |s|
  {
    if s == [] then [] else if s[0] == c then s[1..] else SkipPast(s[1..], c)
  }

  /** The rest after a block comment whose text starts at its first star; the
      star that opens it may already be the one that closes it. */
  function SkipBlock(s: string, sawStar: bool): (rest: string)
    ensures |rest| <= |s|
  {
    if s == [] then [] else if sawStar && s[0] == '/' then s[1..] else SkipBlock(s[1..], s[0] == '*')
  }

  function WordLength(s: string): (n: nat)
    ensures n <= |s|
  {
    if s != [] && IsWordChar(s[0]) then 1 + WordLength(s[1..]) else 0
  }

  /** Reads the rest of a dollar-quote tag; without a closing dollar the
      characters are consumed all the same. */
  function ReadTag(s: string, tag: string): (r: (bool, string, string))
    ensures |r.2| <= |s| && tag <= r.1
  {
    if s == [] then (false, tag, s)
    else if s[0] == '$' then (true, tag + ['$'], s[1..])
    else if s[0] == '_' || IsAlpha(s[0]) || (|tag| > 1 && IsDigit(s[0])) then ReadTag(s[1..], tag + [s[0]])
    else (false, tag, s)
  }

  /** `ch as u8`. */
  function LowByte(c: char): int { c as int % 256 }

  function LowBytes(s: string): seq<int> { seq(|s|, i requires 0 <= i < |s| => LowByte(s[i])) }

  function SkipTagged(s: string, tag: seq<int>, buf: seq<int>): (rest: string)
    ensures |rest| <= |s|
  {
    if s == [] then []
    else
      var seen := buf + [LowByte(s[0])];
      if |seen| >= |tag| && seen[|seen| - |tag|..] == tag then s[1..] else SkipTagged(s[1..], tag, seen)
  }

  datatype Lexed = Skipped(rest: string) | Got(token: Token, rest: string)

  /** One turn of the tokenizer's loop on a nonempty text. */
  function LexOne(s: string): (r: Lexed)
    requires s != []
    ensures |r.rest| < |s|
  {
    var c, after := s[0], s[1..];
    if c in {'\'', '"', '`', '['} then Skipped(SkipPast(after, if c == '[' then ']' else c))
    else if c == '$' then
      var (isQuote, tag, rest) := ReadTag(after, "$");
      if isQuote then Skipped(SkipTagged(rest, LowBytes(tag), [])) else Got(Other, rest)
    else if c == '-' && after != [] && after[0] == '-' then Skipped(SkipPast(after[1..], '\n'))
    else if c == '/' && after != [] && after[0] == '*' then Skipped(SkipBlock(after, false))
    else if c == ';' then Got(Semi, after)
    else if IsAsciiWhitespace(c) then Got(Whitespace, after)
    else if IsAlpha(c) || c == '_' then
      var n := WordLength(after);
      Got(Classify([c] + after[..n]), after[n..])
    else Got(Other, after)
  }

  function Tokens(s: string): seq<Token>
    decreases |s|
  {
    if s == [] then []
    else match LexOne(s)
      case Skipped(rest) => Tokens(rest)
      case Got(token, rest) => [token] + Tokens(rest)
  }

  function Process(state: ReadState, sql: string): ReadState { Fold(state, Tokens(sql)) }

  predicate IsComplete(sql: string) { Process(Invalid, sql) == Start }

  /** `Tokenizer`, which consumes its characters. */
  class Tokenizer {
    var chars: string

    constructor (sql: string)
      ensures chars == sql
    {
      chars := sql;
    }

    method SkipThrough(end: char)
      modifies this
      ensures chars == SkipPast(old(chars), end)
    {
      while chars != []
        invariant SkipPast(chars, end) == SkipPast(old(chars), end)
        decreases |chars|
      {
        var c := chars[0];
        chars := chars[1..];
        if c == end { return; }
      }
    }

    method SkipComment()
      modifies this
      ensures chars == SkipBlock(old(chars), false)
    {
      var sawStar := false;
      while chars != []
        invariant SkipBlock(chars, sawStar) == SkipBlock(old(chars), false)
        decreases |chars|
      {
        var c := chars[0];
        chars := chars[1..];
        if sawStar && c == '/' { return; }
        sawStar := c == '*';
      }
    }

    method ReadKeyword(first: char) returns (token: Token)
      modifies this
      ensures var n := WordLength(old(chars));
              token == Classify([first] + old(chars)[..n]) && chars == old(chars)[n..]
    {
      var word := [first];
      ghost var n := 0;
      while chars != [] && IsWordChar(chars[0])
        invariant n <= |old(chars)| && chars == old(chars)[n..] && word == [first] + old(chars)[..n]
        invariant WordLength(old(chars)) == n + WordLength(chars)
        decreases |chars|
      {
        word := word + [chars[0]];
        chars := chars[1..];
        n := n + 1;
      }
      token := Classify(word);
    }

    method ReadDollarTag() returns (isQuote: bool, tag: string)
      modifies this
      ensures (isQuote, tag, chars) == ReadTag(old(chars), "$")
    {
      tag := "$";
      while true
        invariant ReadTag(chars, tag) == ReadTag(old(chars), "$")
        decreases |chars|
      {
        if chars == [] {
          return false, tag;
        }
        var ch := chars[0];
        if ch == '$' {
          tag := tag + [ch];
          chars := chars[1..];
          return true, tag;
        } else if ch == '_' || IsAlpha(ch) || (|tag| > 1 && IsDigit(ch)) {
          tag := tag + [ch];
          chars := chars[1..];
        } else {
          return false, tag;
        }
      }
    }

    method SkipDollarBody(tag: string)
      modifies this
      ensures chars == SkipTagged(old(chars), LowBytes(tag), [])
    {
      var tagBytes := LowBytes(tag);
      var buf: seq<int> := [];
      while chars != []
        invariant SkipTagged(chars, tagBytes, buf) == SkipTagged(old(chars), tagBytes, [])
        decreases |chars|
      {
        buf := buf + [LowByte(chars[0])];
        chars := chars[1..];
        if |buf| >= |tagBytes| && buf[|buf| - |tagBytes|..] == tagBytes { return; }
      }
    }

    /** The next token, if any; the tokens of what is left are the rest of the
        tokens of what there was. */
    method Next() returns (token: Option<Token>)
      modifies this
      ensures Tokens(old(chars)) == (if token.Some? then [token.value] else []) + Tokens(chars)
      ensures token.None? ==> chars == []
      ensures token.Some? ==> |chars| < |old(chars)|
    {
      while chars != []
        invariant Tokens(chars) == Tokens(old(chars)) && |chars| <= |old(chars)|
        decreases |chars|
      {
        ghost var before := chars;
        var c := chars[0];
        chars := chars[1..];
        if c in {'\'', '"', '`', '['} {
          SkipThrough(if c == '[' then ']' else c);
          continue;
        } else if c == '$' {
          var isQuote, tag := ReadDollarTag();
          if isQuote {
            SkipDollarBody(tag);
            continue;
          }
          return Some(Other);
        } else if c == '-' && chars != [] && chars[0] == '-' {
          chars := chars[1..];
          SkipThrough('\n');
          continue;
        } else if c == '/' && chars != [] && chars[0] == '*' {
          SkipComment();
          continue;
        } else if c == ';' {
          return Some(Semi);
        } else if IsAsciiWhitespace(c) {
          return Some(Whitespace);
        } else if IsAlpha(c) || c == '_' {
          var word := ReadKeyword(c);
          return Some(word);
        } else {
          return Some(Other);
        }
      }
      token := None;
    }
  }

  lemma FoldFirst(state: ReadState, t: Token, ts: seq<Token>)
    ensures Fold(state, [t] + ts) == Fold(Transition(state, t), ts)
  {
    var all := [t] + ts;
    FoldSplit(state, all, 1);
    assert all[..1] == [t] && all[1..] == ts;
    assert Init([t]) == [];
  }

  method ProcessSql(state: ReadState, sql: string) returns (after: ReadState)
    ensures after == Process(state, sql)
  {
    after := state;
    var tokenizer := new Tokenizer(sql);
    while true
      invariant fresh(tokenizer)
      invariant Fold(after, Tokens(tokenizer.chars)) == Fold(state, Tokens(sql))
      decreases |tokenizer.chars|
    {
      var token := tokenizer.Next();
      if token.None? { break; }
      FoldFirst(after, token.value, Tokens(tokenizer.chars));
      after := Transition(after, token.value);
    }
  }

  /** A text is complete exactly when its tokens, whitespace aside, are one or
      more statements, the last of them finished. */
  lemma CompleteText(sql: string)
    ensures IsComplete(sql) <==> IsScript(Erase(Tokens(sql)))
  {
    var es := Erase(Tokens(sql));
    EraseFold(Invalid, Tokens(sql));
    CompleteIffScript(Invalid, es);
  }
}
