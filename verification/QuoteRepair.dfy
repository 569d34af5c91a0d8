/**
 The quote repair `_single_to_double_quote` (layer 5): single quotes that delimit a string
 become double quotes, single quotes inside a string stay.
 */
module QuoteRepair {
  import opened JsonLexer

  datatype Scan = Scan(inDq: bool, inSq: bool, escape: bool)

  const OUTSIDE := Scan(false, false, false)

  function After(st: Scan, c: char): Scan {
    if st.escape then st.(escape := false)
    else if c == '\\' then st.(escape := true)
    else if st.inDq then (if c == '"' then st.(inDq := false) else st)
    else if st.inSq then (if c == '\'' then st.(inSq := false) else st)
    else if c == '"' then st.(inDq := true)
    else if c == '\'' then st.(inSq := true)
    else st
  }

  /** A single quote here opens or closes a string. */
  predicate Rewrites(st: Scan, c: char) {
    c == '\'' && !st.escape && !st.inDq
  }

  function Emitted(st: Scan, c: char): char {
    if Rewrites(st, c) then '"' else c
  }

  /** The text emitted from state `st` on. */
  function Repaired(st: Scan, s: string): (out: string)
    ensures |out| == |s|
    decreases |s|
  {
    if s == "" then "" else [Emitted(st, s[0])] + Repaired(After(st, s[0]), s[1..])
  }

  lemma RepairedUnfolds(out: string, st: Scan, s: string, i: nat)
    requires i < |s|
    ensures out + Repaired(st, s[i..]) == (out + [Emitted(st, s[i])]) + Repaired(After(st, s[i]), s[i + 1..])
  {
    assert s[i..][0] == s[i] && s[i..][1..] == s[i + 1..];
  }

  /** The scanner as the gateway runs it; its two in-string flags are never both set. */
  method SingleToDoubleQuote(text: string) returns (out: string)
    ensures out == Repaired(OUTSIDE, text)
  {
    out := "";
    var inDq, inSq, escape := false, false, false;
    for i := 0 to |text|
      invariant !(inDq && inSq)
      invariant out + Repaired(Scan(inDq, inSq, escape), text[i..]) == Repaired(OUTSIDE, text)
    {
      var ch := text[i];
      RepairedUnfolds(out, Scan(inDq, inSq, escape), text, i);
      if escape {
        out := out + [ch];
        escape := false;
      } else if ch == '\\' {
        out := out + [ch];
        escape := true;
      } else if inDq {
        out := out + [ch];
        if ch == '"' {
          inDq := false;
        }
      } else if inSq {
        if ch == '\'' {
          out := out + ['"'];
          inSq := false;
        } else {
          out := out + [ch];
        }
      } else if ch == '"' {
        inDq := true;
        out := out + [ch];
      } else if ch == '\'' {
        inSq := true;
        out := out + ['"'];
      } else {
        out := out + [ch];
      }
    }
    assert text[|text|..] == "";
  }

  /** What a position of a text is, for a reader who only looks at quotes and backslashes. */
  datatype Mark = Opens | Closes | Body | Outside | Backslash | Escaped

  /** The quote that opened the current string, if inside one, and whether a backslash came just before. */
  datatype Reader = Reader(inside: bool, quote: char, escape: bool)

  const NOWHERE := Reader(false, '"', false)

  predicate Delimits(c: char, bothQuotes: bool) {
    c == '"' || (bothQuotes && c == '\'')
  }

  function MarkOf(r: Reader, c: char, bothQuotes: bool): Mark {
    if r.escape then Escaped
    else if c == '\\' then Backslash
    else if r.inside then (if c == r.quote then Closes else Body)
    else if Delimits(c, bothQuotes) then Opens
    else Outside
  }

  function Read(r: Reader, c: char, bothQuotes: bool): Reader {
    match MarkOf(r, c, bothQuotes)
    case Escaped => r.(escape := false)
    case Backslash => r.(escape := true)
    case Closes => NOWHERE
    case Opens => Reader(true, c, false)
    case _ => r
  }

  /** The string boundaries of a text: quotes of both kinds count, or double quotes only. */
  function Marks(r: Reader, s: string, bothQuotes: bool): (m: seq<Mark>)
    ensures |m| == |s|
    decreases |s|
  {
    if s == "" then [] else [MarkOf(r, s[0], bothQuotes)] + Marks(Read(r, s[0], bothQuotes), s[1..], bothQuotes)
  }

  /** Some single-quoted string holds a double quote with no backslash before it. */
  predicate HoldsDoubleQuote(r: Reader, s: string)
    decreases |s|
  {
    s != "" &&
    ((r.inside && r.quote == '\'' && !r.escape && s[0] == '"') || HoldsDoubleQuote(Read(r, s[0], true), s[1..]))
  }

  /** Scanner and two-quote reader agree on where they are. */
  ghost predicate Tracks(st: Scan, r: Reader) {
    && st.escape == r.escape
    && st.inDq == (r.inside && r.quote == '"')
    && st.inSq == (r.inside && r.quote == '\'')
    && (r.inside ==> r.quote == '"' || r.quote == '\'')
    && (!r.inside ==> r.quote == '"')
  }

  function AsDouble(r: Reader): Reader {
    r.(quote := '"')
  }

  lemma {:induction false} MarksAgree(st: Scan, r: Reader, s: string)
    requires Tracks(st, r)
    ensures Marks(AsDouble(r), Repaired(st, s), false) == Marks(r, s, true) <==> !HoldsDoubleQuote(r, s)
    decreases |s|
  {
    if s != "" {
      var out := Repaired(st, s);
      var c := out[0];
      assert out[1..] == Repaired(After(st, s[0]), s[1..]);
      var left, right := Marks(AsDouble(r), out, false), Marks(r, s, true);
      assert left[0] == MarkOf(AsDouble(r), c, false) && right[0] == MarkOf(r, s[0], true);
      if r.inside && r.quote == '\'' && !r.escape && s[0] == '"' {
        assert left[0] != right[0];
      } else {
        assert left[0] == right[0];
        assert Read(AsDouble(r), c, false) == AsDouble(Read(r, s[0], true));
        MarksAgree(After(st, s[0]), Read(r, s[0], true), s[1..]);
        assert left[1..] == Marks(AsDouble(Read(r, s[0], true)), out[1..], false);
        assert right[1..] == Marks(Read(r, s[0], true), s[1..], true);
        assert left == right <==> left[1..] == right[1..] by {
          assert left == [left[0]] + left[1..] && right == [right[0]] + right[1..];
        }
      }
    }
  }

  /**
   Reading the output with double quotes only finds the boundaries that reading the input with
   both quotes finds, exactly when no single-quoted string holds a bare double quote.
   */
  lemma RepairKeepsBoundariesIff(s: string)
    ensures Marks(NOWHERE, Repaired(OUTSIDE, s), false) == Marks(NOWHERE, s, true) <==> !HoldsDoubleQuote(NOWHERE, s)
  {
    MarksAgree(OUTSIDE, NOWHERE, s);
  }

  lemma {:induction false} RewritesOnlyDelimiters(st: Scan, r: Reader, s: string, i: nat)
    requires Tracks(st, r) && i < |s|
    ensures Repaired(st, s)[i]
         == if s[i] == '\'' && Marks(r, s, true)[i] in {Opens, Closes} then '"' else s[i]
    decreases |s|
  {
    if i > 0 {
      RewritesOnlyDelimiters(After(st, s[0]), Read(r, s[0], true), s[1..], i - 1);
    }
  }

  /** Position `i` holds a double quote for a delimiting single quote, and is as before otherwise. */
  ghost predicate IsDelimiterChange(s: string, i: nat)
    requires i < |s|
  {
    var delimits := s[i] == '\'' && Marks(NOWHERE, s, true)[i] in {Opens, Closes};
    Repaired(OUTSIDE, s)[i] == if delimits then '"' else s[i]
  }

  /** Same length, and the changed characters are exactly the single quotes that open or close a string. */
  lemma RepairChangesExactlyTheDelimiters(s: string)
    ensures |Repaired(OUTSIDE, s)| == |s|
    ensures forall i :: 0 <= i < |s| ==> IsDelimiterChange(s, i)
  {
    forall i | 0 <= i < |s|
      ensures IsDelimiterChange(s, i)
    {
      RewritesOnlyDelimiters(OUTSIDE, NOWHERE, s, i);
    }
  }

  // ---- JSON tokens -------------------------------------------------------------------------

  /** A double quote inside a single-quoted string: the output's string ends there. */
  predicate IsBareDoubleQuote(l: Lexer, c: char) {
    l.state.InStr? && l.state.quote == '\'' && c == '"'
  }

  /** An escaped single quote: the scanner leaves the escape, which JSON does not have. */
  predicate IsEscapedSingleQuote(l: Lexer, c: char) {
    l.state.AfterBackslash? && c == '\''
  }

  /** The string under way is read to its end without an error. */
  predicate StringCloses(l: Lexer, s: string, d: Dialect)
    decreases |s|
  {
    l.state.Between? || (s != "" && StringCloses(Step(l, s[0], d), s[1..], d))
  }

  /** The lexer meets a bare double quote in a single-quoted string, or an escaped single quote in one that closes. */
  predicate LosesString(l: Lexer, s: string)
    decreases |s|
  {
    s != "" &&
    var l' := Step(l, s[0], SINGLE_QUOTES);
    if IsEscapedSingleQuote(l, s[0]) then StringCloses(l', s[1..], SINGLE_QUOTES)
    else IsBareDoubleQuote(l, s[0]) || LosesString(l', s[1..])
  }

  /** Before any error the lexer meets a bare double quote in a single-quoted string, or an escaped single quote. */
  predicate MeetsAwkwardQuote(l: Lexer, s: string)
    decreases |s|
  {
    s != "" &&
    (IsBareDoubleQuote(l, s[0]) || IsEscapedSingleQuote(l, s[0])
     || MeetsAwkwardQuote(Step(l, s[0], SINGLE_QUOTES), s[1..]))
  }

  ghost predicate TracksLexer(st: Scan, l: Lexer) {
    match l.state
    case Between(_) => st == OUTSIDE
    case InStr(q, _) => st == Scan(q == '"', q == '\'', false) && (q == '"' || q == '\'')
    case AfterBackslash(q, _) => st == Scan(q == '"', q == '\'', true) && (q == '"' || q == '\'')
    case InHex(q, _, _, _) => st == Scan(q == '"', q == '\'', false) && (q == '"' || q == '\'')
    case Stuck => true
  }

  /** The same lexer, had its current string been opened with a double quote. */
  function LexerAsDouble(l: Lexer): Lexer {
    match l.state
    case InStr(_, u) => l.(state := InStr('"', u))
    case AfterBackslash(_, u) => l.(state := AfterBackslash('"', u))
    case InHex(_, u, n, v) => l.(state := InHex('"', u, n, v))
    case _ => l
  }

  lemma LexerStepAgrees(st: Scan, l: Lexer, c: char)
    requires TracksLexer(st, l)
    requires !IsBareDoubleQuote(l, c) && !IsEscapedSingleQuote(l, c)
    ensures Step(LexerAsDouble(l), Emitted(st, c), STRICT) == LexerAsDouble(Step(l, c, SINGLE_QUOTES))
    ensures TracksLexer(After(st, c), Step(l, c, SINGLE_QUOTES))
  {
  }

  /** A string under way that already has more than `n` units never becomes a shorter token. */
  ghost predicate TokenLongerThan(tokens: seq<Token>, k: nat, n: nat) {
    k < |tokens| ==> tokens[k].Str? && |tokens[k].units| > n
  }

  lemma {:induction false} LongStringStaysLong(l: Lexer, s: string, n: nat, d: Dialect)
    requires (l.state.InStr? && |l.state.units| > n)
          || (l.state.AfterBackslash? && |l.state.units| >= n + 1)
          || (l.state.InHex? && |l.state.units| > n)
          || l.state.Stuck?
    ensures TokenLongerThan(Finish(Run(l, s, d)).tokens, |l.done|, n)
    decreases |s|
  {
    if s != "" {
      var l' := Step(l, s[0], d);
      if l'.state.Between? {
        DoneGrows(l', s[1..], d);
      } else {
        LongStringStaysLong(l', s[1..], n, d);
      }
    }
  }

  /** A string that closes adds a token; one that does not leaves the tokens as they are, and the verdict bad. */
  lemma {:induction false} ClosingAddsToken(l: Lexer, s: string, d: Dialect)
    requires !l.state.Between?
    ensures var f := Finish(Run(l, s, d));
            if StringCloses(l, s, d) then |f.tokens| > |l.done| else f == Lexed(l.done, false)
    decreases |s|
  {
    if s != "" {
      var l' := Step(l, s[0], d);
      if l'.state.Between? {
        assert StringCloses(l', s[1..], d);
        DoneGrows(l', s[1..], d);
      } else {
        ClosingAddsToken(l', s[1..], d);
      }
    }
  }

  lemma {:induction false} TokensAgree(st: Scan, l: Lexer, s: string)
    requires TracksLexer(st, l)
    ensures Finish(Run(LexerAsDouble(l), Repaired(st, s), STRICT)) == Finish(Run(l, s, SINGLE_QUOTES))
       <==> !LosesString(l, s)
    decreases |s|
  {
    if s != "" {
      var out := Repaired(st, s);
      assert out[0] == Emitted(st, s[0]) && out[1..] == Repaired(After(st, s[0]), s[1..]);
      var l' := Step(l, s[0], SINGLE_QUOTES);
      if IsBareDoubleQuote(l, s[0]) {
        var d' := Step(LexerAsDouble(l), out[0], STRICT);
        assert d' == Lexer(l.done + [Str(l.state.units)], Between(""));
        DoneGrows(d', out[1..], STRICT);
        LongStringStaysLong(l', s[1..], |l.state.units|, SINGLE_QUOTES);
      } else if IsEscapedSingleQuote(l, s[0]) {
        StuckStays(Step(LexerAsDouble(l), out[0], STRICT), out[1..], STRICT);
        ClosingAddsToken(l', s[1..], SINGLE_QUOTES);
      } else {
        LexerStepAgrees(st, l, s[0]);
        TokensAgree(After(st, s[0]), l', s[1..]);
      }
    }
  }

  /**
   Strict lexing of the output gives the tokens and the verdict of a lexer that takes both kinds of
   quotes on the input, exactly when that lexer meets neither a bare double quote in a single-quoted
   string nor an escaped single quote in a string it reads to the end.
   */
  lemma RepairPreservesTokensIff(s: string)
    ensures Lex(Repaired(OUTSIDE, s), STRICT) == Lex(s, SINGLE_QUOTES) <==> !LosesString(START, s)
  {
    TokensAgree(OUTSIDE, START, s);
  }

  lemma {:induction false} GoodStringsClose(l: Lexer, s: string)
    requires Finish(Run(l, s, SINGLE_QUOTES)).ok
    ensures StringCloses(l, s, SINGLE_QUOTES)
    ensures LosesString(l, s) <==> MeetsAwkwardQuote(l, s)
    decreases |s|
  {
    if s != "" {
      GoodStringsClose(Step(l, s[0], SINGLE_QUOTES), s[1..]);
    }
  }

  /** Of the texts the both-quotes lexer accepts, the repair keeps exactly those without such quotes. */
  lemma GoodTextSurvivesIff(s: string)
    requires Lex(s, SINGLE_QUOTES).ok
    ensures Lex(Repaired(OUTSIDE, s), STRICT) == Lex(s, SINGLE_QUOTES) <==> !MeetsAwkwardQuote(START, s)
  {
    TokensAgree(OUTSIDE, START, s);
    GoodStringsClose(START, s);
  }

  /** Two quotes of the one kind around one of the other: read as one character, repaired into an unfinished text. */
  lemma BareDoubleQuoteLosesString()
    ensures Lex("'\"'", SINGLE_QUOTES) == Lexed([Str([0x22])], true)
    ensures Lex(Repaired(OUTSIDE, "'\"'"), STRICT) != Lex("'\"'", SINGLE_QUOTES)
  {
    var s := ['\'', '"', '\''];
    assert s[1..] == ['"', '\''] && s[1..][1..] == ['\''] && s[1..][1..][1..] == [];
    var l := Step(START, '\'', SINGLE_QUOTES);
    assert l == Lexer([], InStr('\'', []));
    var l' := Step(l, '"', SINGLE_QUOTES);
    var units: seq<int> := [];
    assert units + ['"' as int] == [0x22];
    assert l' == Lexer([], InStr('\'', [0x22]));
    assert Step(l', '\'', SINGLE_QUOTES) == Lexer([Str([0x22])], Between(""));
    assert Run(START, s, SINGLE_QUOTES) == Run(l, s[1..], SINGLE_QUOTES) == Run(l', s[1..][1..], SINGLE_QUOTES);
    assert LosesString(l, s[1..]) && LosesString(START, s);
    RepairPreservesTokensIff(s);
  }

  // ---- Applying the repair twice ------------------------------------------------------------

  /** Some single quote in the text opens or closes a string. */
  predicate HoldsSingleDelimiter(st: Scan, s: string)
    decreases |s|
  {
    s != "" && (Rewrites(st, s[0]) || HoldsSingleDelimiter(After(st, s[0]), s[1..]))
  }

  lemma {:induction false} FixpointIff(st: Scan, s: string)
    ensures Repaired(st, s) == s <==> !HoldsSingleDelimiter(st, s)
    decreases |s|
  {
    if s != "" {
      FixpointIff(After(st, s[0]), s[1..]);
      var out := Repaired(st, s);
      assert out[0] == Emitted(st, s[0]) && out[1..] == Repaired(After(st, s[0]), s[1..]);
      assert s == [s[0]] + s[1..] && out == [out[0]] + out[1..];
    }
  }

  /** Whether a reader of the output who knows double quotes only is inside a string, after `c` is emitted. */
  function InString(inside: bool, st: Scan, c: char): bool {
    if !st.escape && (c == '"' || Rewrites(st, c)) then !inside else inside
  }

  /**
   A single quote in a double-quoted string of the input stands outside the strings of the output:
   the double quotes and delimiting single quotes before it, unescaped, are even in number.
   */
  predicate HoldsExposedQuote(st: Scan, inside: bool, s: string)
    decreases |s|
  {
    s != "" &&
    ((s[0] == '\'' && !st.escape && st.inDq && !inside)
     || HoldsExposedQuote(After(st, s[0]), InString(inside, st, s[0]), s[1..]))
  }

  lemma {:induction false} ExposedIsLeft(st: Scan, inside: bool, s: string)
    ensures HoldsSingleDelimiter(Scan(inside, false, st.escape), Repaired(st, s)) <==> HoldsExposedQuote(st, inside, s)
    decreases |s|
  {
    if s != "" {
      var out := Repaired(st, s);
      assert out[0] == Emitted(st, s[0]) && out[1..] == Repaired(After(st, s[0]), s[1..]);
      ExposedIsLeft(After(st, s[0]), InString(inside, st, s[0]), s[1..]);
    }
  }

  /** For any text: the second pass is a no-op exactly when the first left no delimiting single quote. */
  lemma SecondPassIdleIff(s: string)
    ensures Repaired(OUTSIDE, Repaired(OUTSIDE, s)) == Repaired(OUTSIDE, s)
       <==> !HoldsSingleDelimiter(OUTSIDE, Repaired(OUTSIDE, s))
  {
    FixpointIff(OUTSIDE, Repaired(OUTSIDE, s));
  }

  /** Running the repair on its own output changes nothing exactly when the text holds no exposed single quote. */
  lemma RepairIsIdempotentIff(s: string)
    ensures Repaired(OUTSIDE, Repaired(OUTSIDE, s)) == Repaired(OUTSIDE, s) <==> !HoldsExposedQuote(OUTSIDE, false, s)
  {
    SecondPassIdleIff(s);
    ExposedIsLeft(OUTSIDE, false, s);
  }

  lemma {:induction false} NoneExposed(st: Scan, r: Reader, s: string)
    requires Tracks(st, r) && !HoldsDoubleQuote(r, s)
    ensures !HoldsExposedQuote(st, r.inside, s)
    decreases |s|
  {
    if s != "" {
      NoneExposed(After(st, s[0]), Read(r, s[0], true), s[1..]);
      assert InString(r.inside, st, s[0]) == Read(r, s[0], true).inside;
    }
  }

  /** In particular where every boundary is kept: when no single-quoted string holds a bare double quote. */
  lemma RepairIsIdempotent(s: string)
    requires !HoldsDoubleQuote(NOWHERE, s)
    ensures Repaired(OUTSIDE, Repaired(OUTSIDE, s)) == Repaired(OUTSIDE, s)
  {
    NoneExposed(OUTSIDE, NOWHERE, s);
    RepairIsIdempotentIff(s);
  }

  /** The condition matters: in '"'"'"' the first pass leaves a single quote that the second one rewrites. */
  lemma IdempotenceFailsOnMixedQuotes()
    ensures var s := "'\"'\"'\"";
            HoldsDoubleQuote(NOWHERE, s) && Repaired(OUTSIDE, Repaired(OUTSIDE, s)) != Repaired(OUTSIDE, s)
  {
    var s := ['\'', '"', '\'', '"', '\'', '"'];
    var t := ['"', '"', '"', '"', '\'', '"'];
    assert s[1..] == ['"', '\'', '"', '\'', '"'];
    assert s[1..][1..] == ['\'', '"', '\'', '"'];
    assert s[1..][1..][1..] == ['"', '\'', '"'];
    assert s[1..][1..][1..][1..] == ['\'', '"'];
    assert s[1..][1..][1..][1..][1..] == ['"'];
    assert HoldsDoubleQuote(NOWHERE, s);
    var dq := Scan(true, false, false);
    var sq := Scan(false, true, false);
    assert Repaired(dq, ['"']) == ['"'];
    assert Repaired(dq, ['\'', '"']) == ['\'', '"'];
    assert Repaired(OUTSIDE, ['"', '\'', '"']) == ['"', '\'', '"'];
    assert Repaired(sq, ['\'', '"', '\'', '"']) == ['"', '"', '\'', '"'];
    assert Repaired(sq, s[1..]) == ['"', '"', '"', '\'', '"'];
    assert Repaired(OUTSIDE, s) == t;
    assert t[1..] == ['"', '"', '"', '\'', '"'];
    assert t[1..][1..] == ['"', '"', '\'', '"'];
    assert t[1..][1..][1..] == ['"', '\'', '"'];
    assert t[1..][1..][1..][1..] == ['\'', '"'];
    assert HoldsSingleDelimiter(OUTSIDE, ['\'', '"']);
    assert HoldsSingleDelimiter(dq, t[1..][1..][1..]);
    assert HoldsSingleDelimiter(OUTSIDE, t[1..][1..]);
    assert HoldsSingleDelimiter(dq, t[1..]);
    assert HoldsSingleDelimiter(OUTSIDE, t);
    FixpointIff(OUTSIDE, t);
  }
}
