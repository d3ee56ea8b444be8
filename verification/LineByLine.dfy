/** The shell feeds the recogniser line by line, and the tokenizer starts anew on each: when that comes to the
    same as reading the whole text. */
module LineByLine {
  import opened Common
  import opened Lexemes
  import opened Recogniser
  import opened Tokenizing

  /** No comment and no quotation is open at the end of the text. */
  ghost predicate IsClosed(a: string) { exists xs :: Spelling(xs, "") && Spell(xs, "") == a }

  predicate EndsLine(a: string) { a != [] && a[|a| - 1] == '\n' }

  // ---------- What a lexeme fits ----------

  /** Of what follows a lexeme only the first character matters. */
  lemma FitsFirst(x: Lexeme, r: string, t: string)
    requires r != [] && t != [] && r[0] == t[0]
    ensures Fits(x, r) <==> Fits(x, t)
  {
  }

  lemma FitsBeforeLine(x: Lexeme, t: string)
    requires Fits(x, "") && t != [] && t[0] == '\n'
    ensures Fits(x, t)
  {
  }

  lemma FitsAnything(x: Lexeme, r: string, t: string)
    requires (x.Space? || x.LineComment?) && Fits(x, r)
    ensures Fits(x, t)
  {
  }

  lemma DollarEnds(close: string, name: string)
    requires ClosesTag(close, Tag(name))
    ensures close != [] && LowByte(close[|close| - 1]) == LowByte('$')
  {
    var tag := Tag(name);
    assert |LowBytes(close)| == |LowBytes(tag)|;
    assert LowBytes(close)[|close| - 1] == LowBytes(tag)[|tag| - 1];
  }

  /** Only white space and a line comment end in a line feed. */
  lemma LastOfLine(x: Lexeme, r: string)
    requires Fits(x, r) && EndsLine(TextOf(x))
    ensures x.Space? || x.LineComment?
  {
    if x.DollarQuoted? { DollarEnds(x.close, x.name); }
  }

  // ---------- Spellings one after the other ----------

  lemma {:induction false} SpellThen(xs: seq<Lexeme>, u: string)
    ensures Spell(xs, u) == Spell(xs, "") + u
  {
    hide TextOf;
    if xs != [] {
      SpellThen(xs[1..], u);
      assert TextOf(xs[0]) + (Spell(xs[1..], "") + u) == TextOf(xs[0]) + Spell(xs[1..], "") + u;
    }
  }

  lemma {:induction false} TokensConcat(xs: seq<Lexeme>, ys: seq<Lexeme>)
    ensures TokensOf(xs + ys) == TokensOf(xs) + TokensOf(ys)
  {
    hide TokenOf;
    if xs == [] {
      assert xs + ys == ys;
    } else {
      assert (xs + ys)[1..] == xs[1..] + ys;
      TokensConcat(xs[1..], ys);
    }
  }

  /** Both begin alike, and with a lexeme if there is one. */
  lemma SpellStart(xs: seq<Lexeme>, ys: seq<Lexeme>, u: string, w: string)
    requires Spelling(xs, u) && xs != []
    ensures var a, b := Spell(xs, u), Spell(xs + ys, w); a != [] && b != [] && a[0] == b[0]
  {
    hide Fits, TextOf;
    LexemeNonempty(xs[0], Spell(xs[1..], u));
  }

  lemma SpellEnd(xs: seq<Lexeme>)
    requires |xs| > 1 && Spelling(xs, "") && EndsLine(Spell(xs, ""))
    ensures EndsLine(Spell(xs[1..], ""))
  {
    hide Fits, TextOf, Unclosed;
    LexemeNonempty(xs[1], Spell(xs[1..][1..], ""));
    var rest := Spell(xs[1..], "");
    assert Spell(xs, "")[|Spell(xs, "")| - 1] == rest[|rest| - 1];
  }

  /** A closed text that ends a line, or is empty, spells on with any other. */
  lemma {:induction false} SpellOn(xs: seq<Lexeme>, ys: seq<Lexeme>, w: string)
    requires Spelling(xs, "") && Spelling(ys, w) && (xs != [] ==> EndsLine(Spell(xs, "")))
    ensures Spelling(xs + ys, w) && Spell(xs + ys, w) == Spell(xs, "") + Spell(ys, w)
  {
    hide Fits, TextOf, Unclosed;
    if xs == [] {
      assert xs + ys == ys;
    } else {
      var x, rest := xs[0], xs[1..];
      assert (xs + ys)[1..] == rest + ys;
      if rest == [] {
        assert Spell(xs, "") == TextOf(x) + "";
        LastOfLine(x, "");
        FitsAnything(x, "", Spell(ys, w));
      } else {
        SpellEnd(xs);
        SpellStart(rest, ys, "", w);
        FitsFirst(x, Spell(rest, ""), Spell(rest + ys, w));
      }
      SpellOn(rest, ys, w);
      assert TextOf(x) + (Spell(rest, "") + Spell(ys, w)) == TextOf(x) + Spell(rest, "") + Spell(ys, w);
    }
  }

  /** After a closed line the tokens of the rest are as if it were alone. */
  lemma ClosedLine(a: string, b: string)
    requires (a == [] || EndsLine(a)) && IsClosed(a)
    ensures Tokens(a + b) == Tokens(a) + Tokens(b)
  {
    hide Spelling, Spell, Tokens;
    var xs :| Spelling(xs, "") && Spell(xs, "") == a;
    var ys, w := EveryTextIsSpelled(b);
    NothingSpells(xs);
    SpellOn(xs, ys, w);
    SpelledTokens(xs, "");
    SpelledTokens(ys, w);
    SpelledTokens(xs + ys, w);
    TokensConcat(xs, ys);
  }

  lemma NothingSpells(xs: seq<Lexeme>)
    requires Spelling(xs, "")
    ensures Spell(xs, "") == [] <==> xs == []
  {
    if xs != [] { LexemeNonempty(xs[0], Spell(xs[1..], "")); }
  }

  // ---------- What stays open ----------

  /** What is unclosed can be replaced by another spelling that begins alike. */
  lemma {:induction false} Respell(xs: seq<Lexeme>, u: string, ys: seq<Lexeme>, w: string)
    requires Spelling(xs, u) && Spelling(ys, w) && u != [] && Spell(ys, w) != [] && Spell(ys, w)[0] == u[0]
    ensures Spelling(xs + ys, w) && Spell(xs + ys, w) == Spell(xs, "") + Spell(ys, w)
  {
    hide Fits, TextOf, Unclosed;
    if xs == [] {
      assert xs + ys == ys;
    } else {
      var x, rest := xs[0], xs[1..];
      assert (xs + ys)[1..] == rest + ys;
      Respell(rest, u, ys, w);
      if rest == [] {
        assert rest + ys == ys;
      } else {
        SpellStart(rest, ys, u, w);
      }
      FitsFirst(x, Spell(rest, u), Spell(rest + ys, w));
      assert TextOf(x) + (Spell(rest, "") + Spell(ys, w)) == TextOf(x) + Spell(rest, "") + Spell(ys, w);
    }
  }

  lemma NoTagAtEnd(s: string, name: string, c: char)
    requires NoTag(s, Tag(name)) && LowByte(c) != LowByte('$')
    ensures NoTag(s + [c], Tag(name))
  {
    var tag, t := Tag(name), s + [c];
    forall i ensures !TagAt(t, tag, i) {
      if TagAt(t, tag, i) {
        if i + |tag| <= |s| {
          TagInFront(s, t, tag, i);
        } else {
          DollarEnds(t[i..i + |tag|], name);
        }
      }
    }
  }

  /** A line comment aside, what is open stays so over a line feed or a semicolon. */
  lemma StillUnclosed(u: string, c: char)
    requires Unclosed(u) && u != [] && !("--" <= u) && c in {'\n', ';'}
    ensures Unclosed(u + [c])
  {
    var t := u + [c];
    if u[0] in OPENERS && Closer(u[0]) !in u[1..] {
      assert t[1..] == u[1..] + [c];
    } else if |u| >= 2 && u[..2] == "/*" && NoCommentEnd(u[1..]) {
      assert t[..2] == "/*" && t[1..] == u[1..] + [c];
      forall i ensures !CommentEndsAt(t[1..], i) {
        assert CommentEndsAt(t[1..], i) ==> CommentEndsAt(u[1..], i);
      }
    } else {
      assert u[..2] != "--";
      var name :| TagOpens(u, name);
      NoTagAtEnd(u[|Tag(name)|..], name, c);
      assert t[|Tag(name)|..] == u[|Tag(name)|..] + [c];
      assert TagOpens(t, name);
    }
  }

  lemma OpenLine(xs: seq<Lexeme>, u: string, c: char)
    requires Spelling(xs, u) && u != [] && !("--" <= u) && c in {'\n', ';'}
    ensures Spelling(xs, u + [c]) && Spell(xs, u + [c]) == Spell(xs, u) + [c]
    ensures Tokens(Spell(xs, u) + [c]) == Tokens(Spell(xs, u))
  {
    hide Fits, TextOf, Unclosed, Tokens, TokensOf;
    UnclosedEnd(xs, u);
    StillUnclosed(u, c);
    Respell(xs, u, [], u + [c]);
    assert xs + [] == xs;
    SpellThen(xs, u);
    assert Spell(xs, "") + (u + [c]) == Spell(xs, u) + [c];
    SpelledTokens(xs, u);
    SpelledTokens(xs, u + [c]);
  }

  lemma {:induction false} UnclosedEnd(xs: seq<Lexeme>, u: string)
    requires Spelling(xs, u)
    ensures Unclosed(u)
  {
    hide Fits, TextOf, Unclosed;
    if xs != [] { UnclosedEnd(xs[1..], u); }
  }

  lemma SemiAlone()
    ensures Tokens(";") == [Semi]
  {
    LexemeTokens(Semicolon, "");
    assert ";" + "" == ";" && Tokens("") == [];
  }

  lemma LineCommentIsShort(u: string)
    requires Unclosed(u) && "--" <= u
    ensures '\n' !in u
  {
    assert u[..2] == "--" && u[0] == '-';
    hide NoCommentEnd, NoTag;
  }

  lemma SpellEndsWith(xs: seq<Lexeme>, u: string)
    requires u != [] && EndsLine(Spell(xs, u))
    ensures EndsLine(u)
  {
    hide Spell;
    SpellThen(xs, u);
  }

  /** Reading on after a line, whatever follows, gives the tokens of the whole exactly when no comment and no
      quotation is open at its end. */
  lemma LineByLineIff(a: string)
    requires EndsLine(a)
    ensures IsClosed(a) <==> forall b :: Tokens(a + b) == Tokens(a) + Tokens(b)
  {
    hide Tokens, Spell, Spelling, Unclosed;
    var xs, u := EveryTextIsSpelled(a);
    if u == "" {
      assert IsClosed(a);
      forall b ensures Tokens(a + b) == Tokens(a) + Tokens(b) { ClosedLine(a, b); }
    } else {
      SpellEndsWith(xs, u);
      UnclosedEnd(xs, u);
      if "--" <= u { LineCommentIsShort(u); }
      OpenLine(xs, u, ';');
      SemiAlone();
      assert |Tokens(a) + Tokens(";")| == |Tokens(a)| + 1;
      assert Tokens(a + ";") != Tokens(a) + Tokens(";");
      if IsClosed(a) { ClosedLine(a, ";"); }
    }
  }

  // ---------- The shell's reading ----------

  lemma {:induction false} FoldConcat(state: ReadState, ts: seq<Token>, us: seq<Token>)
    ensures Fold(state, ts + us) == Fold(Fold(state, ts), us)
  {
    FoldSplit(state, ts + us, |ts|);
    assert (ts + us)[..|ts|] == ts && (ts + us)[|ts|..] == us;
  }

  /** Lines as they are read from standard input, each with its line feed. */
  function ProcessLines(state: ReadState, lines: seq<string>): ReadState
    decreases |lines|
  {
    if lines == [] then state else ProcessLines(Process(state, lines[0]), lines[1..])
  }

  function Whole(lines: seq<string>): string { if lines == [] then "" else lines[0] + Whole(lines[1..]) }

  /** If every line but the last leaves nothing open, the state is that of the whole text. */
  lemma {:induction false} LinesAreText(state: ReadState, lines: seq<string>)
    requires forall k :: 0 <= k < |lines| - 1 ==> EndsLine(lines[k]) && IsClosed(lines[k])
    ensures ProcessLines(state, lines) == Process(state, Whole(lines))
    decreases |lines|
  {
    hide IsClosed, Tokens;
    if lines == [] {
      NoTokens();
    } else if |lines| == 1 {
      assert lines[1..] == [] && Whole(lines) == lines[0] + "" == lines[0];
    } else {
      LinesAreText(Process(state, lines[0]), lines[1..]);
      ClosedLine(lines[0], Whole(lines[1..]));
      FoldConcat(state, Tokens(lines[0]), Tokens(Whole(lines[1..])));
    }
  }

  lemma NoTokens()
    ensures Tokens("") == []
  {
  }

  /** Two lines that are one statement, with a text over both, are not recognised as one. */
  lemma TextOverTwoLines()
    ensures ProcessLines(Invalid, ["'\n", "';\n"]) == Invalid && IsComplete(Whole(["'\n", "';\n"]))
  {
    var first, second := "'\n", "';\n";
    assert Unclosed(first) && Unclosed(second);
    UnclosedTokens(first);
    UnclosedTokens(second);
    assert Process(Invalid, first) == Invalid && Process(Invalid, second) == Invalid;
    hide Process;
    assert [first, second][1..] == [second] && [second][1..] == [];
    assert ProcessLines(Invalid, [second]) == Invalid;
    assert ProcessLines(Invalid, [first, second]) == Invalid;
    assert Whole([second]) == second + "";
    assert Whole([first, second]) == "'\n';\n";
    TwoLinesTogether();
  }

  lemma TwoLinesTogether()
    ensures IsComplete("'\n';\n")
  {
    var x := Enclosed('\'', "\n");
    hide Tokens;
    NoTokens();
    LexemeTokens(Space('\n'), "");
    assert "\n" + "" == "\n";
    LexemeTokens(Semicolon, "\n");
    assert ";" + "\n" == ";\n";
    LexemeTokens(x, ";\n");
    assert TextOf(x) + ";\n" == "'\n';\n";
    assert Tokens("'\n';\n") == [Semi, Token.Whitespace];
    SemiThenSpace();
  }

  lemma SemiThenSpace()
    ensures Fold(Invalid, [Semi, Token.Whitespace]) == Start
  {
    assert Init([Semi, Token.Whitespace]) == [Semi] && Init([Semi]) == [];
  }

  // ---------- Lines that are typed ----------

  lemma {:induction false} SpellBeforeLine(xs: seq<Lexeme>, ys: seq<Lexeme>, w: string)
    requires Spelling(xs, "") && Spelling(ys, w) && Spell(ys, w) != [] && Spell(ys, w)[0] == '\n'
    ensures Spelling(xs + ys, w) && Spell(xs + ys, w) == Spell(xs, "") + Spell(ys, w)
  {
    hide Fits, TextOf, Unclosed;
    if xs == [] {
      assert xs + ys == ys;
    } else {
      var x, rest := xs[0], xs[1..];
      assert (xs + ys)[1..] == rest + ys;
      SpellBeforeLine(rest, ys, w);
      if rest == [] {
        FitsBeforeLine(x, Spell(ys, w));
        assert rest + ys == ys;
      } else {
        SpellStart(rest, ys, "", w);
        FitsFirst(x, Spell(rest, ""), Spell(rest + ys, w));
      }
      assert TextOf(x) + (Spell(rest, "") + Spell(ys, w)) == TextOf(x) + Spell(rest, "") + Spell(ys, w);
    }
  }

  lemma OneLexeme(x: Lexeme)
    requires Fits(x, "")
    ensures Spelling([x], "") && Spell([x], "") == TextOf(x) && TokensOf([x]) == TokenOf(x)
  {
    hide Fits, TextOf;
    NothingIsUnclosed();
    assert [x][1..] == [] && TextOf(x) + "" == TextOf(x);
  }

  /** A line feed after a text adds a space, or ends a line comment, unless something stays open. */
  lemma LineFeedAdds(a: string)
    requires '\n' !in a && IsClosed(a + "\n")
    ensures Tokens(a + "\n") == Tokens(a) || Tokens(a + "\n") == Tokens(a) + [Token.Whitespace]
  {
    hide Tokens, Spell, Spelling, TokensOf, IsClosed;
    var xs, u := EveryTextIsSpelled(a);
    SpelledTokens(xs, u);
    SpellThen(xs, u);
    UnclosedEnd(xs, u);
    if u == "" {
      OneLexeme(Space('\n'));
      SpellBeforeLine(xs, [Space('\n')], "");
      SpelledTokens(xs + [Space('\n')], "");
      TokensConcat(xs, [Space('\n')]);
    } else if "--" <= u {
      var x := LineComment(u[2..]);
      CommentEnds(u);
      OneLexeme(x);
      Respell(xs, u, [x], "");
      SpelledTokens(xs + [x], "");
      TokensConcat(xs, [x]);
      assert Spell(xs, "") + (u + "\n") == a + "\n";
    } else {
      OpenLine(xs, u, '\n');
      NoCommentYet(u);
      OpenLine(xs, u + "\n", ';');
      ClosedLine(a + "\n", ";");
      SemiAlone();
      assert false;
    }
  }

  lemma NoCommentYet(u: string)
    requires u != [] && !("--" <= u)
    ensures !("--" <= u + "\n")
  {
    var t := u + "\n";
    assert t[|u|] == '\n' && t[0] == u[0] && (|u| >= 2 ==> t[1] == u[1]);
    assert "--" <= u <==> |u| >= 2 && u[0] == '-' && u[1] == '-';
  }

  lemma CommentEnds(u: string)
    requires Unclosed(u) && "--" <= u
    ensures Fits(LineComment(u[2..]), "") && TextOf(LineComment(u[2..])) == u + "\n"
  {
    LineCommentIsShort(u);
    assert u == "--" + u[2..];
  }

  lemma SpaceChangesNothing(state: ReadState, ts: seq<Token>)
    ensures Fold(state, ts + [Token.Whitespace]) == Fold(state, ts)
  {
    assert Init(ts + [Token.Whitespace]) == ts;
  }

  /** A typed line reaches the recogniser without the line feed that the buffer gets; that makes no difference,
      and reading on is reading the buffer, as long as the line leaves nothing open. */
  lemma TypedLine(state: ReadState, a: string, b: string)
    requires '\n' !in a && IsClosed(a + "\n")
    ensures Process(Process(state, a), b) == Process(state, a + "\n" + b)
  {
    hide Tokens, IsClosed, Fold;
    LineFeedAdds(a);
    SpaceChangesNothing(state, Tokens(a));
    ClosedLine(a + "\n", b);
    FoldConcat(state, Tokens(a + "\n"), Tokens(b));
  }
}
