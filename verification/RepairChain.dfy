/**
 The two scanners of `_try_load_json` one after the other, as a reply meets them that needs both: the
 control characters are escaped first, the quotes are turned afterwards. The layers in between leave
 such a text as it is when it has no trailing commas and no full-width punctuation.
 */
module RepairChain {
  import opened JsonLexer
  import Controls = JsonRepair
  import Quotes = QuoteRepair

  /** What the second scanner makes of what the first emits from here on. */
  function Repaired(c: Controls.Scan, q: Quotes.Scan, s: string): string {
    Quotes.Repaired(q, Controls.Repaired(c, s))
  }

  /**
   The first scanner leaves this character as it is, and JSON has no place for it there: an escaped
   single quote, or a raw line break or tab in a single-quoted string.
   */
  predicate IsLeftOver(l: Lexer, c: char) {
    (l.state.AfterBackslash? && c == '\'') || (l.state.InStr? && l.state.quote == '\'' && IsRepairable(c))
  }

  /** The tolerant lexer meets a bare double quote in a single-quoted string, or a left-over in a string that closes. */
  predicate LosesString(l: Lexer, s: string)
    decreases |s|
  {
    s != "" &&
    var l' := Step(l, s[0], TOLERANT);
    if IsLeftOver(l, s[0]) then Quotes.StringCloses(l', s[1..], TOLERANT)
    else Quotes.IsBareDoubleQuote(l, s[0]) || LosesString(l', s[1..])
  }

  /** Before a string is lost, both scanners know where the tolerant lexer is. */
  ghost predicate Tracks(c: Controls.Scan, q: Quotes.Scan, l: Lexer) {
    && Quotes.TracksLexer(q, l)
    && (!l.state.Stuck? ==>
          && c.escape == l.state.AfterBackslash?
          && (c.inStr <==> !l.state.Between? && l.state.quote == '"'))
  }

  /** The second scanner's state after a text. */
  function Scanned(q: Quotes.Scan, s: string): Quotes.Scan
    decreases |s|
  {
    if s == "" then q else Scanned(Quotes.After(q, s[0]), s[1..])
  }

  lemma {:induction false} RepairedConcat(q: Quotes.Scan, a: string, b: string)
    ensures Quotes.Repaired(q, a + b) == Quotes.Repaired(q, a) + Quotes.Repaired(Scanned(q, a), b)
    decreases |a|
  {
    if a == "" {
      assert a + b == b;
    } else {
      assert (a + b)[0] == a[0] && (a + b)[1..] == a[1..] + b;
      RepairedConcat(Quotes.After(q, a[0]), a[1..], b);
    }
  }

  /** What one character becomes. */
  function Piece(c: Controls.Scan, q: Quotes.Scan, ch: char): string {
    Quotes.Repaired(q, Controls.Piece(c, ch))
  }

  lemma Unfolds(c: Controls.Scan, q: Quotes.Scan, s: string)
    requires s != ""
    ensures Repaired(c, q, s)
         == Piece(c, q, s[0]) + Repaired(Controls.After(c, s[0]), Scanned(q, Controls.Piece(c, s[0])), s[1..])
  {
    RepairedConcat(q, Controls.Piece(c, s[0]), Controls.Repaired(Controls.After(c, s[0]), s[1..]));
  }

  lemma OneCharacter(q: Quotes.Scan, ch: char)
    ensures Quotes.Repaired(q, [ch]) == [Quotes.Emitted(q, ch)] && Scanned(q, [ch]) == Quotes.After(q, ch)
  {
    assert [ch][1..] == "";
  }

  lemma OneStep(l: Lexer, ch: char, d: Dialect)
    ensures Run(l, [ch], d) == Step(l, ch, d)
  {
    assert [ch][1..] == "";
  }

  /** In a double-quoted string the escape that the first scanner writes passes the second as it is. */
  lemma EscapePasses(q: Quotes.Scan, ch: char)
    requires q == Quotes.Scan(true, false, false)
    ensures Quotes.Repaired(q, ['\\', ch]) == ['\\', ch] && Scanned(q, ['\\', ch]) == q
  {
    assert ['\\', ch][1..] == [ch];
    OneCharacter(Quotes.After(q, '\\'), ch);
  }

  lemma EscapeRun(l: Lexer, ch: char)
    ensures Run(l, ['\\', ch], STRICT) == Step(Step(l, '\\', STRICT), ch, STRICT)
  {
    assert ['\\', ch][1..] == [ch];
    OneStep(Step(l, '\\', STRICT), ch, STRICT);
  }

  lemma EscapedPiece(c: Controls.Scan, ch: char)
    requires c == Controls.Scan(true, false) && IsRepairable(ch)
    ensures exists e :: Controls.Piece(c, ch) == ['\\', e] && EscapeValue(e) == ch as int && e != 'u'
  {
    var e := if ch == '\n' then 'n' else if ch == '\r' then 'r' else 't';
    assert Controls.Piece(c, ch) == ['\\', e];
  }

  /** One character: the strict lexer on what it becomes keeps step with the tolerant one on it raw. */
  lemma PieceAgrees(c: Controls.Scan, q: Quotes.Scan, l: Lexer, ch: char)
    requires Tracks(c, q, l) && !l.state.Stuck?
    requires !IsLeftOver(l, ch) && !Quotes.IsBareDoubleQuote(l, ch)
    ensures Run(Quotes.LexerAsDouble(l), Piece(c, q, ch), STRICT) == Quotes.LexerAsDouble(Step(l, ch, TOLERANT))
    ensures Tracks(Controls.After(c, ch), Scanned(q, Controls.Piece(c, ch)), Step(l, ch, TOLERANT))
  {
    var d := Quotes.LexerAsDouble(l);
    if c == Controls.Scan(true, false) && IsRepairable(ch) {
      EscapedPiece(c, ch);
      var e :| Controls.Piece(c, ch) == ['\\', e] && EscapeValue(e) == ch as int && e != 'u';
      EscapePasses(q, e);
      EscapeRun(d, e);
    } else {
      PlainAgrees(c, q, l, ch);
    }
  }

  lemma PlainAgrees(c: Controls.Scan, q: Quotes.Scan, l: Lexer, ch: char)
    requires Tracks(c, q, l) && !l.state.Stuck? && !(c == Controls.Scan(true, false) && IsRepairable(ch))
    requires !IsLeftOver(l, ch) && !Quotes.IsBareDoubleQuote(l, ch)
    ensures Run(Quotes.LexerAsDouble(l), Piece(c, q, ch), STRICT) == Quotes.LexerAsDouble(Step(l, ch, TOLERANT))
    ensures Tracks(Controls.After(c, ch), Scanned(q, Controls.Piece(c, ch)), Step(l, ch, TOLERANT))
  {
    assert Controls.Piece(c, ch) == [ch];
    OneCharacter(q, ch);
    OneStep(Quotes.LexerAsDouble(l), Quotes.Emitted(q, ch), STRICT);
    Quotes.LexerStepAgrees(q, l, ch);
    SameStep(l, ch);
  }

  /** Off raw control characters in strings the two dialects step alike. */
  lemma SameStep(l: Lexer, ch: char)
    requires !(l.state.InStr? && IsRepairable(ch))
    ensures Step(l, ch, TOLERANT) == Step(l, ch, SINGLE_QUOTES)
  {
  }

  lemma {:induction false} StuckForGood(l: Lexer, s: string)
    requires l.state.Stuck?
    ensures !LosesString(l, s)
  {
    if s != "" {
      StuckForGood(l, s[1..]);
    }
  }

  /** A left-over stops the strict lexer; the tolerant one goes on in the string. */
  lemma LeftOverStops(c: Controls.Scan, q: Quotes.Scan, l: Lexer, ch: char)
    requires Tracks(c, q, l) && IsLeftOver(l, ch)
    ensures Run(Quotes.LexerAsDouble(l), Piece(c, q, ch), STRICT) == Lexer(l.done, Stuck)
    ensures Step(l, ch, TOLERANT).state.InStr? && Step(l, ch, TOLERANT).done == l.done
  {
    assert Controls.Piece(c, ch) == [ch];
    OneCharacter(q, ch);
    OneStep(Quotes.LexerAsDouble(l), Quotes.Emitted(q, ch), STRICT);
  }

  lemma BareQuoteCloses(c: Controls.Scan, q: Quotes.Scan, l: Lexer)
    requires Tracks(c, q, l) && l.state.InStr? && l.state.quote == '\''
    ensures Run(Quotes.LexerAsDouble(l), Piece(c, q, '"'), STRICT) == Lexer(l.done + [Str(l.state.units)], Between(""))
  {
    assert Controls.Piece(c, '"') == ['"'];
    OneCharacter(q, '"');
    OneStep(Quotes.LexerAsDouble(l), '"', STRICT);
  }

  lemma {:induction false} ChainAgrees(c: Controls.Scan, q: Quotes.Scan, l: Lexer, s: string)
    requires Tracks(c, q, l)
    ensures Finish(Run(Quotes.LexerAsDouble(l), Repaired(c, q, s), STRICT)) == Finish(Run(l, s, TOLERANT))
       <==> !LosesString(l, s)
    decreases |s|
  {
    var d := Quotes.LexerAsDouble(l);
    if l.state.Stuck? {
      StuckStays(d, Repaired(c, q, s), STRICT);
      StuckStays(l, s, TOLERANT);
      StuckForGood(l, s);
    } else if s != "" {
      var piece := Piece(c, q, s[0]);
      var c', q' := Controls.After(c, s[0]), Scanned(q, Controls.Piece(c, s[0]));
      var rest := Repaired(c', q', s[1..]);
      var l' := Step(l, s[0], TOLERANT);
      Unfolds(c, q, s);
      RunConcat(d, piece, rest, STRICT);
      if IsLeftOver(l, s[0]) {
        LeftOverStops(c, q, l, s[0]);
        StuckStays(Lexer(l.done, Stuck), rest, STRICT);
        Quotes.ClosingAddsToken(l', s[1..], TOLERANT);
      } else if Quotes.IsBareDoubleQuote(l, s[0]) {
        BareQuoteCloses(c, q, l);
        DoneGrows(Lexer(l.done + [Str(l.state.units)], Between("")), rest, STRICT);
        Quotes.LongStringStaysLong(l', s[1..], |l.state.units|, TOLERANT);
      } else {
        PieceAgrees(c, q, l, s[0]);
        ChainAgrees(c', q', l', s[1..]);
      }
    }
  }

  /**
   Strict lexing of the twice repaired text gives the tokens and the verdict of a lexer with both
   tolerances on the input, exactly when that lexer meets no bare double quote in a single-quoted
   string, and in no string that it reads to the end an escaped single quote or, if the string is
   single-quoted, a raw line break or tab.
   */
  lemma BothRepairsPreserveTokensIff(s: string)
    ensures Lex(Quotes.Repaired(Quotes.OUTSIDE, Controls.Repaired(Controls.OUTSIDE, s)), STRICT) == Lex(s, TOLERANT)
       <==> !LosesString(START, s)
  {
    ChainAgrees(Controls.OUTSIDE, Quotes.OUTSIDE, START, s);
  }

  /** A line break in a single-quoted string: the first scanner passes it by, and after the second it is refused. */
  lemma RawBreakInSingleQuotesIsRefused()
    ensures var s := "'\n'";
            && Lex(s, TOLERANT) == Lexed([Str([0x0A])], true)
            && Lex(Quotes.Repaired(Quotes.OUTSIDE, Controls.Repaired(Controls.OUTSIDE, s)), STRICT) != Lex(s, TOLERANT)
  {
    var s := ['\'', '\n', '\''];
    assert s[1..] == ['\n', '\''] && s[1..][1..] == ['\''] && s[1..][1..][1..] == [];
    var l := Step(START, '\'', TOLERANT);
    assert l == Lexer([], InStr('\'', []));
    var units: seq<int> := [];
    assert units + ['\n' as int] == [0x0A];
    var l' := Step(l, '\n', TOLERANT);
    assert l' == Lexer([], InStr('\'', [0x0A]));
    var l'' := Step(l', '\'', TOLERANT);
    assert l'' == Lexer([Str([0x0A])], Between(""));
    assert Run(START, s, TOLERANT) == Run(l, s[1..], TOLERANT) == Run(l', s[1..][1..], TOLERANT) == l'';
    assert Quotes.StringCloses(l'', s[1..][1..][1..], TOLERANT) && Quotes.StringCloses(l', s[1..][1..], TOLERANT);
    assert LosesString(l, s[1..]) && LosesString(START, s);
    BothRepairsPreserveTokensIff(s);
  }
}
