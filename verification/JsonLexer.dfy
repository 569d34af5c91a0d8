/**
 A character-at-a-time lexer for JSON texts (RFC 8259, sections 2, 3, 6 and 7), with two
 optional tolerances: raw newline, carriage return and tab inside strings, and strings
 delimited by single quotes, with the escape `\'` they need. It is the yardstick for the two
 repair scanners.
 */
module JsonLexer {
  import opened DecimalText

  /** `units` are the code points of the string after undoing its escapes. */
  datatype Token = Str(units: seq<int>) | Punct(c: char) | Word(text: string)

  datatype LexState =
    | Between(word: string)                                   // outside strings, in the scalar `word`
    | InStr(quote: char, units: seq<int>)
    | AfterBackslash(quote: char, units: seq<int>)
    | InHex(quote: char, units: seq<int>, left: nat, value: nat)
    | Stuck                                                   // a lexical error was met

  datatype Lexer = Lexer(done: seq<Token>, state: LexState)

  datatype Dialect = Dialect(rawControls: bool, singleQuotes: bool)

  /** The tokens read before the first error, and whether the text was read to its end. */
  datatype Lexed = Lexed(tokens: seq<Token>, ok: bool)

  const STRICT := Dialect(false, false)
  const RAW_CONTROLS := Dialect(true, false)
  const SINGLE_QUOTES := Dialect(false, true)
  const TOLERANT := Dialect(true, true)
  const START := Lexer([], Between(""))

  predicate IsRepairable(c: char) {
    c == '\n' || c == '\r' || c == '\t'
  }

  predicate IsWhitespace(c: char) {
    c == ' ' || IsRepairable(c)
  }

  predicate IsPunct(c: char) {
    c in "{}[]:,"
  }

  predicate IsWordChar(c: char) {
    IsDigit(c) || 'a' <= c <= 'z' || 'A' <= c <= 'Z' || c == '+' || c == '-' || c == '.'
  }

  function DigitRun(s: string): (n: nat)
    ensures n <= |s|
  {
    if s == "" || !IsDigit(s[0]) then 0 else 1 + DigitRun(s[1..])
  }

  predicate IsExponent(s: string) {
    s == "" ||
    ((s[0] == 'e' || s[0] == 'E') &&
     var t := if |s| > 1 && (s[1] == '+' || s[1] == '-') then s[2..] else s[1..];
     t != "" && DigitRun(t) == |t|)
  }

  predicate IsFraction(s: string) {
    if s != "" && s[0] == '.' then
      var n := DigitRun(s[1..]);
      n > 0 && IsExponent(s[1 + n..])
    else
      IsExponent(s)
  }

  /** RFC 8259, section 6. */
  predicate IsNumber(s: string) {
    var t := if s != "" && s[0] == '-' then s[1..] else s;
    var n := DigitRun(t);
    n > 0 && (t[0] == '0' ==> n == 1) && IsFraction(t[n..])
  }

  predicate IsScalar(w: string) {
    w == "true" || w == "false" || w == "null" || IsNumber(w)
  }

  /** Ends the pending scalar, if there is one, and goes on in state `next`. */
  function EndWord(done: seq<Token>, word: string, more: seq<Token>, next: LexState): Lexer {
    if word == "" then Lexer(done + more, next)
    else if IsScalar(word) then Lexer(done + [Word(word)] + more, next)
    else Lexer(done, Stuck)
  }

  function HexValue(c: char): int {
    if IsDigit(c) then c as int - '0' as int
    else if 'a' <= c <= 'f' then c as int - 'a' as int + 10
    else if 'A' <= c <= 'F' then c as int - 'A' as int + 10
    else -1
  }

  /** The code point a one-letter escape stands for (RFC 8259, section 7), or -1. */
  function EscapeValue(c: char): int {
    match c
    case '"' => 0x22
    case '\\' => 0x5C
    case '/' => 0x2F
    case 'b' => 0x08
    case 'f' => 0x0C
    case 'n' => 0x0A
    case 'r' => 0x0D
    case 't' => 0x09
    case _ => -1
  }

  function StepBetween(done: seq<Token>, word: string, c: char, d: Dialect): Lexer {
    if c == '"' || (d.singleQuotes && c == '\'') then EndWord(done, word, [], InStr(c, []))
    else if IsWhitespace(c) then EndWord(done, word, [], Between(""))
    else if IsPunct(c) then EndWord(done, word, [Punct(c)], Between(""))
    else if IsWordChar(c) then Lexer(done, Between(word + [c]))
    else Lexer(done, Stuck)
  }

  function Step(l: Lexer, c: char, d: Dialect): Lexer {
    match l.state
    case Between(word) => StepBetween(l.done, word, c, d)
    case InStr(q, units) =>
      if c == q then Lexer(l.done + [Str(units)], Between(""))
      else if c == '\\' then Lexer(l.done, AfterBackslash(q, units))
      else if c as int < 0x20 && !(d.rawControls && IsRepairable(c)) then Lexer(l.done, Stuck)
      else Lexer(l.done, InStr(q, units + [c as int]))
    case AfterBackslash(q, units) =>
      if c == 'u' then Lexer(l.done, InHex(q, units, 4, 0))
      else if EscapeValue(c) >= 0 then Lexer(l.done, InStr(q, units + [EscapeValue(c)]))
      else if d.singleQuotes && c == '\'' then Lexer(l.done, InStr(q, units + [0x27]))
      else Lexer(l.done, Stuck)
    case InHex(q, units, left, value) =>
      if HexValue(c) < 0 then Lexer(l.done, Stuck)
      else
        var v := 16 * value + HexValue(c);
        if left <= 1 then Lexer(l.done, InStr(q, units + [v])) else Lexer(l.done, InHex(q, units, left - 1, v))
    case Stuck => l
  }

  function Run(l: Lexer, s: string, d: Dialect): Lexer
    decreases |s|
  {
    if s == "" then l else Run(Step(l, s[0], d), s[1..], d)
  }

  function Finish(l: Lexer): Lexed {
    match l.state
    case Between(word) => var e := EndWord(l.done, word, [], Between("")); Lexed(e.done, e.state.Between?)
    case _ => Lexed(l.done, false)
  }

  function Lex(s: string, d: Dialect): Lexed {
    Finish(Run(START, s, d))
  }

  lemma {:induction false} RunConcat(l: Lexer, s: string, t: string, d: Dialect)
    ensures Run(l, s + t, d) == Run(Run(l, s, d), t, d)
    decreases |s|
  {
    if s == "" {
      assert s + t == t;
    } else {
      assert (s + t)[0] == s[0] && (s + t)[1..] == s[1..] + t;
      RunConcat(Step(l, s[0], d), s[1..], t, d);
    }
  }

  /** An error is final: no further input moves the lexer. */
  lemma {:induction false} StuckStays(l: Lexer, s: string, d: Dialect)
    requires l.state.Stuck?
    ensures Run(l, s, d) == l
  {
    if s != "" {
      StuckStays(l, s[1..], d);
    }
  }

  /** Tokens already read are never taken back. */
  lemma {:induction false} DoneGrows(l: Lexer, s: string, d: Dialect)
    ensures l.done <= Run(l, s, d).done
    ensures l.done <= Finish(Run(l, s, d)).tokens
    decreases |s|
  {
    if s != "" {
      DoneGrows(Step(l, s[0], d), s[1..], d);
    }
  }
}
