/**
  * Python 2's `str(n)` for an integer and `int(s)` for a base-10 string,
  * as used when score strings read back from the database become numbers
  * and when counts are written into plot labels.
  */
module Decimal {
  import opened Wrappers
  import opened Text

  predicate IsDigit(c: char) {
    '0' <= c <= '9'
  }

  predicate AllDigits(s: string) {
    forall i :: 0 <= i < |s| ==> IsDigit(s[i])
  }

  function DigitChar(d: nat): (c: char)
    requires d < 10
    ensures IsDigit(c)
  {
    ('0' as int + d) as char
  }

  function DigitValue(c: char): (d: nat)
    requires IsDigit(c)
    ensures d < 10
  {
    c as int - '0' as int
  }

  /** The decimal digits of `n`, most significant first, with no leading zero. */
  function NatToDigits(n: nat): (s: string)
    ensures |s| >= 1 && AllDigits(s)
    ensures s[0] == '0' ==> n == 0
    decreases n
  {
    if n < 10 then [DigitChar(n)] else NatToDigits(n / 10) + [DigitChar(n % 10)]
  }

  /** The number a non-empty run of decimal digits denotes. */
  function DigitsValue(s: string): nat
    requires AllDigits(s)
  {
    if s == [] then 0 else 10 * DigitsValue(s[..|s| - 1]) + DigitValue(s[|s| - 1])
  }

  /** `str(n)`: an optional minus sign followed by the digits of `|n|`. */
  function IntToString(n: int): (s: string)
    ensures |s| >= 1
    ensures (s[0] == '-') <==> n < 0
    ensures AllDigits(if n < 0 then s[1..] else s)
  {
    if n < 0 then "-" + NatToDigits(-n) else NatToDigits(n)
  }

  /**
    * `int(s)`: surrounding whitespace is ignored, an optional sign may be
    * followed by more whitespace (Python 2 accepts `int("- 5")`), and at
    * least one digit must follow; anything else raises `ValueError`, here
    * `None`.
    */
  function ParseInt(s: string): Option<int>
  {
    ParseStripped(Strip(s))
  }

  /** `int` on a text with no surrounding whitespace. */
  function ParseStripped(t: string): Option<int>
  {
    if t == [] then None
    else if t[0] == '-' then Negate(ParseDigits(SkipSpace(t[1..])))
    else if t[0] == '+' then ParseDigits(SkipSpace(t[1..]))
    else ParseDigits(t)
  }

  /** The text after its leading whitespace. */
  function SkipSpace(t: string): string
  {
    t[LeadingSpace(t)..]
  }

  function Negate(v: Option<int>): Option<int>
  {
    if v.Some? then Some(-v.value) else None
  }

  /** A non-empty run of digits and the number it denotes; anything else is no number. */
  function ParseDigits(d: string): Option<int>
  {
    if d != [] && AllDigits(d) then Some(DigitsValue(d)) else None
  }

  lemma {:induction false} DigitsRoundTrip(n: nat)
    ensures DigitsValue(NatToDigits(n)) == n
    decreases n
  {
    if n >= 10 {
      DigitsRoundTrip(n / 10);
      var s := NatToDigits(n);
      assert s[..|s| - 1] == NatToDigits(n / 10);
    }
  }

  /** A bare run of digits reads as the number it denotes. */
  lemma ParseDigitRun(d: string)
    requires d != [] && AllDigits(d)
    ensures ParseInt(d) == Some(DigitsValue(d))
  {
    assert IsDigit(d[0]) && IsDigit(d[|d| - 1]);
    StripUnchanged(d);
  }

  /** A minus sign followed by a run of digits reads as the negated number. */
  lemma ParseNegated(d: string)
    requires d != [] && AllDigits(d)
    ensures ParseInt("-" + d) == Some(-(DigitsValue(d) as int))
  {
    var s := "-" + d;
    assert IsDigit(d[|d| - 1]) && s[|s| - 1] == d[|d| - 1];
    StripUnchanged(s);
    StrippedNegated(d);
  }

  lemma StrippedNegated(d: string)
    requires d != [] && AllDigits(d)
    ensures ParseStripped("-" + d) == Some(-(DigitsValue(d) as int))
  {
    assert ("-" + d)[1..] == d;
    assert IsDigit(d[0]);
    assert LeadingSpace(d) == 0;
    assert SkipSpace(d) == d;
  }

  /** `int(str(n)) == n` for every integer `n`. */
  lemma IntRoundTrip(n: int)
    ensures ParseInt(IntToString(n)) == Some(n)
  {
    if n < 0 {
      NegativeRoundTrip(n);
    } else {
      NatRoundTrip(n);
    }
  }

  lemma NatRoundTrip(n: nat)
    ensures ParseInt(IntToString(n)) == Some(n)
  {
    var d := NatToDigits(n);
    assert IntToString(n) == d;
    DigitsRoundTrip(n);
    ParseDigitRun(d);
  }

  lemma NegativeRoundTrip(n: int)
    requires n < 0
    ensures ParseInt(IntToString(n)) == Some(n)
  {
    var m: nat := -n;
    NegativeDigits(m);
    NegativeText(n, m);
  }

  lemma NegativeDigits(m: nat)
    ensures ParseInt("-" + NatToDigits(m)) == Some(-(m as int))
  {
    DigitsRoundTrip(m);
    ParseNegated(NatToDigits(m));
  }

  lemma NegativeText(n: int, m: nat)
    requires n < 0 && m == -n
    ensures ParseInt(IntToString(n)) == ParseInt("-" + NatToDigits(m))
  {
    assert IntToString(n) == "-" + NatToDigits(m);
  }
}
