/**
 * Decimal rendering of integers, as the firmware produces it with `str(n)`,
 * f-string interpolation and the `'{:02d}'` format field, together with a
 * reader for the digits so that the rendering can be shown to lose nothing.
 */
module Decimal {

  predicate IsDigit(c: char) {
    '0' <= c <= '9'
  }

  predicate AllDigits(s: string) {
    forall i :: 0 <= i < |s| ==> IsDigit(s[i])
  }

  /** The character of a single decimal digit. */
  function DigitChar(d: nat): (c: char)
    requires d < 10
    ensures IsDigit(c) && c as int - '0' as int == d
  {
    ('0' as int + d) as char
  }

  /** `str(n)` for a non-negative integer: the shortest decimal spelling. */
  function DecimalDigits(n: nat): (s: string)
    ensures AllDigits(s)
    ensures 1 <= |s|
    ensures |s| == 1 <==> n < 10
    ensures |s| <= 2 <==> n < 100
    ensures s[0] == '0' <==> n == 0
    decreases n
  {
    if n < 10 then [DigitChar(n)] else DecimalDigits(n / 10) + [DigitChar(n % 10)]
  }

  /** `str(n)` for any integer: a minus sign in front of the magnitude when negative. */
  function IntToString(n: int): (s: string)
    ensures 1 <= |s|
    ensures n >= 0 ==> AllDigits(s)
    ensures n < 0 ==> 2 <= |s| && s[0] == '-' && AllDigits(s[1..])
  {
    if n < 0 then "-" + DecimalDigits(-n) else DecimalDigits(n)
  }

  /** The value of a string of decimal digits (leading zeros allowed). */
  function ParseDecimal(s: string): nat
    requires AllDigits(s)
    decreases |s|
  {
    if s == [] then 0
    else ParseDecimal(s[..|s| - 1]) * 10 + (s[|s| - 1] as int - '0' as int)
  }

  /**
   * The `'{:02d}'` field: zero-padded to a width of at least two. A negative
   * value keeps its sign in front and, being two characters wide already,
   * gets no padding.
   */
  function Format2(n: int): (s: string)
    ensures 2 <= |s|
    ensures n >= 0 ==> AllDigits(s) && (|s| == 2 <==> n < 100)
    ensures n < 0 ==> s[0] == '-' && AllDigits(s[1..])
  {
    if n < 0 then "-" + DecimalDigits(-n)
    else if n < 10 then "0" + DecimalDigits(n)
    else DecimalDigits(n)
  }

  /** Reading back `str(n)` gives `n`. */
  lemma {:induction false} DecimalDigitsRoundTrip(n: nat)
    ensures ParseDecimal(DecimalDigits(n)) == n
    decreases n
  {
    if n >= 10 {
      var s := DecimalDigits(n);
      assert s[..|s| - 1] == DecimalDigits(n / 10);
      DecimalDigitsRoundTrip(n / 10);
    }
  }

  /** Reading back `str(n)` gives `n` for negative `n` too, once the sign is seen. */
  lemma IntToStringRoundTrip(n: int)
    ensures n >= 0 ==> ParseDecimal(IntToString(n)) == n
    ensures n < 0 ==> ParseDecimal(IntToString(n)[1..]) == -n
  {
    if n < 0 {
      var d := DecimalDigits(-n);
      assert IntToString(n) == "-" + d;
      assert ("-" + d)[1..] == d;
      DecimalDigitsRoundTrip(-n);
    } else {
      DecimalDigitsRoundTrip(n);
    }
  }

  /** Different integers are spelt differently by `str`. */
  lemma IntToStringInjective(m: int, n: int)
    requires IntToString(m) == IntToString(n)
    ensures m == n
  {
    IntToStringRoundTrip(m);
    IntToStringRoundTrip(n);
  }

  /** Reading back a `'{:02d}'` field gives the value it was made from. */
  lemma Format2RoundTrip(n: nat)
    ensures ParseDecimal(Format2(n)) == n
  {
    DecimalDigitsRoundTrip(n);
    if n < 10 {
      var s := Format2(n);
      assert s[..|s| - 1] == "0";
    }
  }
}
