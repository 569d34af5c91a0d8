/**
 The control-character repair of `_try_load_json` (layer 2): raw newlines, carriage returns
 and tabs inside string literals become two-character escapes.
 */
module JsonRepair {
  import opened JsonLexer

  datatype Scan = Scan(inStr: bool, escape: bool)

  const OUTSIDE := Scan(false, false)

  function Escaped(c: char): string {
    match c
    case '\n' => "\\n"
    case '\r' => "\\r"
    case '\t' => "\\t"
    case _ => [c]
  }

  function After(st: Scan, c: char): Scan {
    if st.escape then st.(escape := false)
    else if c == '\\' then st.(escape := true)
    else if c == '"' then st.(inStr := !st.inStr)
    else st
  }

  function Piece(st: Scan, c: char): string {
    if st == Scan(true, false) then Escaped(c) else [c]
  }

  /** The text emitted from state `st` on. */
  function Repaired(st: Scan, s: string): string
    decreases |s|
  {
    if s == "" then "" else Piece(st, s[0]) + Repaired(After(st, s[0]), s[1..])
  }

  lemma RepairedUnfolds(out: string, st: Scan, s: string, i: nat)
    requires i < |s|
    ensures out + Repaired(st, s[i..]) == (out + Piece(st, s[i])) + Repaired(After(st, s[i]), s[i + 1..])
  {
    assert s[i..][0] == s[i] && s[i..][1..] == s[i + 1..];
  }

  /** The scanner as the gateway runs it. */
  method EscapeControlCharacters(text: string) returns (escaped: string)
    ensures escaped == Repaired(OUTSIDE, text)
  {
    escaped := "";
    var inStr, escape := false, false;
    for i := 0 to |text|
      invariant escaped + Repaired(Scan(inStr, escape), text[i..]) == Repaired(OUTSIDE, text)
    {
      var ch := text[i];
      RepairedUnfolds(escaped, Scan(inStr, escape), text, i);
      if escape {
        escaped := escaped + [ch];
        escape := false;
      } else if ch == '\\' {
        escaped := escaped + [ch];
        escape := true;
      } else if ch == '"' {
        inStr := !inStr;
        escaped := escaped + [ch];
      } else if inStr && ch == '\n' {
        escaped := escaped + "\\n";
      } else if inStr && ch == '\r' {
        escaped := escaped + "\\r";
      } else if inStr && ch == '\t' {
        escaped := escaped + "\\t";
      } else {
        escaped := escaped + [ch];
      }
    }
    assert text[|text|..] == "";
  }

  /** The scanner's two flags follow a lexer that has not yet met an error. */
  ghost predicate Tracks(st: Scan, l: Lexer) {
    match l.state
    case Between(_) => st == OUTSIDE
    case InStr(q, _) => st == Scan(true, false) && q == '"'
    case AfterBackslash(q, _) => st == Scan(true, true) && q == '"'
    case InHex(q, _, _, _) => st == Scan(true, false) && q == '"'
    case Stuck => true
  }

  /** One character: what the strict lexer makes of the emitted piece is what the tolerant one makes of it raw. */
  lemma PieceStep(st: Scan, l: Lexer, c: char)
    requires Tracks(st, l)
    ensures Run(l, Piece(st, c), STRICT) == Step(l, c, RAW_CONTROLS)
    ensures Tracks(After(st, c), Step(l, c, RAW_CONTROLS))
  {
    var piece := Piece(st, c);
    if |piece| == 1 {
      assert piece[1..] == "";
    } else {
      var mid := Step(l, piece[0], STRICT);
      assert piece[1..][0] == piece[1] && piece[1..][1..] == "";
      assert Run(l, piece, STRICT) == Run(mid, piece[1..], STRICT) == Step(mid, piece[1], STRICT);
    }
  }

  lemma {:induction false} RepairSimulates(st: Scan, l: Lexer, s: string)
    requires Tracks(st, l)
    ensures Run(l, Repaired(st, s), STRICT) == Run(l, s, RAW_CONTROLS)
    decreases |s|
  {
    if s != "" {
      var piece := Piece(st, s[0]);
      PieceStep(st, l, s[0]);
      RunConcat(l, piece, Repaired(After(st, s[0]), s[1..]), STRICT);
      RepairSimulates(After(st, s[0]), Step(l, s[0], RAW_CONTROLS), s[1..]);
    }
  }

  /**
   The repair preserves meaning, for every text: strict lexing of the output gives the tokens,
   and the verdict, that lexing with raw control characters allowed gives on the input.
   */
  lemma RepairPreservesTokens(s: string)
    ensures Lex(Repaired(OUTSIDE, s), STRICT) == Lex(s, RAW_CONTROLS)
  {
    RepairSimulates(OUTSIDE, START, s);
  }

  /** Some unescaped position inside a string holds a raw newline, carriage return or tab. */
  predicate HoldsRawControl(st: Scan, s: string)
    decreases |s|
  {
    s != "" &&
    ((st == Scan(true, false) && IsRepairable(s[0])) || HoldsRawControl(After(st, s[0]), s[1..]))
  }

  lemma {:induction false} RepairLengthens(st: Scan, s: string)
    ensures |Repaired(st, s)| >= |s|
    ensures HoldsRawControl(st, s) <==> |Repaired(st, s)| > |s|
    ensures !HoldsRawControl(st, s) ==> Repaired(st, s) == s
    decreases |s|
  {
    if s != "" {
      RepairLengthens(After(st, s[0]), s[1..]);
      assert s == [s[0]] + s[1..];
    }
  }

  /** The repair leaves a text alone exactly when no string in it holds a raw control character. */
  lemma RepairIsIdentityIff(s: string)
    ensures Repaired(OUTSIDE, s) == s <==> !HoldsRawControl(OUTSIDE, s)
  {
    RepairLengthens(OUTSIDE, s);
  }

  lemma {:induction false} StrictHoldsNoRawControl(st: Scan, l: Lexer, s: string)
    requires Tracks(st, l)
    requires !Run(l, s, STRICT).state.Stuck?
    ensures !HoldsRawControl(st, s)
    decreases |s|
  {
    if s != "" {
      var l' := Step(l, s[0], STRICT);
      if l'.state.Stuck? {
        StuckStays(l', s[1..], STRICT);
      }
      if l.state.Stuck? {
        StuckStays(l, s, STRICT);
      }
      StrictHoldsNoRawControl(After(st, s[0]), l', s[1..]);
    }
  }

  /** Text the strict lexer already accepts is not touched. */
  lemma RepairKeepsStrictText(s: string)
    requires Lex(s, STRICT).ok
    ensures Repaired(OUTSIDE, s) == s
  {
    StrictHoldsNoRawControl(OUTSIDE, START, s);
    RepairIsIdentityIff(s);
  }

  lemma {:induction false} RepairedAgain(st: Scan, s: string)
    ensures Repaired(st, Repaired(st, s)) == Repaired(st, s)
    decreases |s|
  {
    if s != "" {
      var rest := Repaired(After(st, s[0]), s[1..]);
      RepairedAgain(After(st, s[0]), s[1..]);
      var out := Repaired(st, s);
      if st == Scan(true, false) && IsRepairable(s[0]) {
        assert out[0] == '\\' && out[1..][1..] == rest;
        assert After(Scan(true, true), out[1]) == After(st, s[0]) == st;
        assert Repaired(st, out) == [out[0]] + Repaired(Scan(true, true), out[1..]);
        assert Repaired(Scan(true, true), out[1..]) == [out[1]] + Repaired(st, rest);
        assert out == [out[0]] + ([out[1]] + rest);
      } else {
        assert out[0] == s[0] && out[1..] == rest;
      }
    }
  }

  lemma RepairIsIdempotent(s: string)
    ensures Repaired(OUTSIDE, Repaired(OUTSIDE, s)) == Repaired(OUTSIDE, s)
  {
    RepairedAgain(OUTSIDE, s);
  }

  /** Characters a model may write between quotes as they are: no quote, backslash or other control. */
  predicate IsPlain(c: char) {
    c != '"' && c != '\\' && (c as int >= 0x20 || IsRepairable(c))
  }

  function Units(s: string): seq<int> {
    seq(|s|, i requires 0 <= i < |s| => s[i] as int)
  }

  lemma {:induction false} RawRunCollects(units: seq<int>, s: string)
    requires forall i :: 0 <= i < |s| ==> IsPlain(s[i])
    ensures Run(Lexer([], InStr('"', units)), s, RAW_CONTROLS) == Lexer([], InStr('"', units + Units(s)))
    decreases |s|
  {
    if s == "" {
      assert units + Units(s) == units;
    } else {
      RawRunCollects(units + [s[0] as int], s[1..]);
      assert units + [s[0] as int] + Units(s[1..]) == units + Units(s);
    }
  }

  lemma ClosingQuote(units: seq<int>)
    ensures Run(Lexer([], InStr('"', units)), "\"", RAW_CONTROLS) == Lexer([Str(units)], Between(""))
  {
    var l := Lexer([], InStr('"', units));
    assert "\""[1..] == "";
    assert Run(l, "\"", RAW_CONTROLS) == Step(l, '"', RAW_CONTROLS);
  }

  lemma OpeningQuote(rest: string)
    ensures Run(START, "\"" + rest, RAW_CONTROLS) == Run(Lexer([], InStr('"', [])), rest, RAW_CONTROLS)
  {
    assert ("\"" + rest)[1..] == rest;
    assert Step(START, '"', RAW_CONTROLS) == Lexer([], InStr('"', []));
  }

  lemma RawStringRun(s: string)
    requires forall i :: 0 <= i < |s| ==> IsPlain(s[i])
    ensures Run(START, "\"" + s + "\"", RAW_CONTROLS) == Lexer([Str(Units(s))], Between(""))
  {
    OpeningQuote(s + "\"");
    assert "\"" + s + "\"" == "\"" + (s + "\"");
    RunConcat(Lexer([], InStr('"', [])), s, "\"", RAW_CONTROLS);
    RawRunCollects([], s);
    assert [] + Units(s) == Units(s);
    ClosingQuote(Units(s));
  }

  /** A string written with raw line breaks and tabs is read back, whole, from the repaired text. */
  lemma RawStringSurvivesRepair(s: string)
    requires forall i :: 0 <= i < |s| ==> IsPlain(s[i])
    ensures Lex(Repaired(OUTSIDE, "\"" + s + "\""), STRICT) == Lexed([Str(Units(s))], true)
  {
    RepairPreservesTokens("\"" + s + "\"");
    RawStringRun(s);
  }
}
