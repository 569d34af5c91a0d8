/** Decimal notation of integers: Python's `str(int)` and the reader that undoes it. */
module DecimalText {
  import opened Options

  predicate IsDigit(c: char) {
    '0' <= c <= '9'
  }

  function DigitChar(d: nat): char
    requires d < 10
  {
    ('0' as int + d) as char
  }

  function DigitValue(c: char): nat
    requires IsDigit(c)
  {
    c as int - '0' as int
  }

  function Digits(n: nat): string {
    if n < 10 then [DigitChar(n)] else Digits(n / 10) + [DigitChar(n % 10)]
  }

  /** `str(n)` for an `int`. */
  function IntText(n: int): string {
    if n < 0 then "-" + Digits(-n) else Digits(n)
  }

  function ParseDigits(s: string): Option<nat> {
    if s == "" || !IsDigit(s[|s| - 1]) then None
    else
      var d := DigitValue(s[|s| - 1]);
      if |s| == 1 then Some(d)
      else match ParseDigits(s[..|s| - 1])
           case None => None
           case Some(v) => Some(10 * v + d)
  }

  /** Reads an optional minus sign and one or more digits; anything else is refused. */
  function ParseInt(s: string): Option<int> {
    var negative := s != "" && s[0] == '-';
    var magnitude := ParseDigits(if negative then s[1..] else s);
    if magnitude.None? then None
    else
      var m: int := magnitude.value;
      Some(if negative then -m else m)
  }

  lemma {:induction false} ParseDigitsOfDigits(n: nat)
    ensures ParseDigits(Digits(n)) == Some(n)
  {
    if n >= 10 {
      var s := Digits(n);
      assert s[..|s| - 1] == Digits(n / 10);
      ParseDigitsOfDigits(n / 10);
    }
  }

  lemma {:induction false} DigitsAreDigits(n: nat)
    ensures Digits(n) != ""
    ensures forall k :: 0 <= k < |Digits(n)| ==> IsDigit(Digits(n)[k])
  {
    if n >= 10 {
      DigitsAreDigits(n / 10);
    }
  }

  /** Every character of `str(n)` is a digit, or a minus sign in front. */
  lemma IntTextShape(n: int)
    ensures IntText(n) != ""
    ensures forall k :: 0 <= k < |IntText(n)| ==> IsDigit(IntText(n)[k]) || IntText(n)[k] == '-'
  {
    DigitsAreDigits(if n < 0 then -n else n);
  }

  lemma ParseSigned(s: string, n: nat)
    requires ParseDigits(s) == Some(n) && s != "" && s[0] != '-'
    ensures ParseInt(s) == Some(n) && ParseInt("-" + s) == Some(0 - n)
  {
    assert ("-" + s)[0] == '-' && ("-" + s)[1..] == s;
  }

  /** Printing an integer and reading it back loses nothing. */
  lemma ParseIntOfIntText(n: int)
    ensures ParseInt(IntText(n)) == Some(n)
  {
    var m: nat := if n < 0 then -n else n;
    ParseDigitsOfDigits(m);
    DigitsAreDigits(m);
    ParseSigned(Digits(m), m);
  }

  /** One more digit at the right is ten times the number and that digit. */
  lemma DigitsMeaning(n: nat, d: nat)
    requires d < 10
    ensures n > 0 ==> Digits(10 * n + d) == Digits(n) + ["0123456789"[d]]
    ensures Digits(d) == ["0123456789"[d]] && IntText(n) == Digits(n)
    ensures n > 0 ==> IntText(0 - n) == "-" + IntText(n)
  {
  }
}
