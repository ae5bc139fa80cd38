/**
 The decimal text Kotlin's string templates produce for an `Int` (`"$value"`):
 an optional minus sign followed by the digits, with no leading zero. A parser
 is the partner definition: reading the text back yields the number.
 */
module Decimal {

  predicate IsDigit(c: char) {
    '0' <= c <= '9'
  }

  predicate AllDigits(s: string) {
    forall i :: 0 <= i < |s| ==> IsDigit(s[i])
  }

  /** Text a parser accepts: an optional '-' and at least one digit. */
  predicate IsNumeral(s: string) {
    if |s| > 0 && s[0] == '-' then |s| > 1 && AllDigits(s[1..]) else |s| > 0 && AllDigits(s)
  }

  function DigitChar(d: int): (c: char)
    requires 0 <= d < 10
    ensures IsDigit(c)
    ensures c as int - '0' as int == d
  {
    ('0' as int + d) as char
  }

  /** The digits of `n`, most significant first. */
  function Digits(n: nat): (s: string)
    decreases n
    ensures |s| >= 1
    ensures AllDigits(s)
    ensures |s| == 1 <==> n < 10
    ensures s[0] == '0' <==> n == 0
  {
    if n < 10 then [DigitChar(n)] else Digits(n / 10) + [DigitChar(n % 10)]
  }

  /** Kotlin's rendering of an integer inside a string template. */
  function FromInt(v: int): (s: string)
    ensures IsNumeral(s)
    ensures ' ' !in s
    ensures s[0] == '-' <==> v < 0
  {
    if v < 0 then "-" + Digits(-v) else Digits(v)
  }

  /** The value of a run of decimal digits. */
  function DigitsValue(s: string): (n: nat)
    requires AllDigits(s)
    decreases |s|
  {
    if |s| == 0 then 0
    else DigitsValue(s[..|s| - 1]) * 10 + (s[|s| - 1] as int - '0' as int)
  }

  /** Reads a numeral back as an integer. */
  function ParseInt(s: string): int
    requires IsNumeral(s)
  {
    if s[0] == '-' then 0 - DigitsValue(s[1..]) else DigitsValue(s)
  }

  lemma {:induction false} DigitsRoundTrip(n: nat)
    ensures DigitsValue(Digits(n)) == n
  {
    if n >= 10 {
      var s := Digits(n / 10);
      var t := s + [DigitChar(n % 10)];
      assert Digits(n) == t;
      assert t[..|t| - 1] == s;
      DigitsRoundTrip(n / 10);
    }
  }

  /** Parsing the rendered text of any integer gives that integer back. */
  lemma FromIntRoundTrip(v: int)
    ensures ParseInt(FromInt(v)) == v
  {
    var s := FromInt(v);
    if v < 0 {
      assert s == "-" + Digits(-v);
      assert s[0] == '-' && s[1..] == Digits(-v);
      DigitsRoundTrip(-v);
    } else {
      assert s == Digits(v);
      assert IsDigit(s[0]);
      DigitsRoundTrip(v);
    }
  }

  /** Distinct integers are rendered as distinct text. */
  lemma FromIntInjective(a: int, b: int)
    ensures FromInt(a) == FromInt(b) ==> a == b
  {
    FromIntRoundTrip(a);
    FromIntRoundTrip(b);
  }
}
