/**
 * How JavaScript writes the integers the user interface shows: `String(n)` and template literals
 * give the decimal numeral, with a minus sign for a negative number. Numbers that reach a string
 * are integers in this model.
 */
module JsNumbers {
  predicate IsDigit(c: char) {
    '0' <= c <= '9'
  }

  predicate AllDigits(s: string) {
    forall i :: 0 <= i < |s| ==> IsDigit(s[i])
  }

  function DigitChar(d: nat): (c: char)
    requires d < 10
    ensures IsDigit(c)
  {
    ('0' as int + d) as char
  }

  /** The decimal numeral of n, as `String(n)` writes a non-negative integer. */
  function Decimal(n: nat): (s: string)
    ensures |s| >= 1 && AllDigits(s)
    decreases n
  {
    if n < 10 then [DigitChar(n)] else Decimal(n / 10) + [DigitChar(n % 10)]
  }

  /** The value of a string of decimal digits. */
  function DecimalValue(s: string): nat
    requires AllDigits(s)
  {
    if |s| == 0 then 0 else DecimalValue(s[..|s| - 1]) * 10 + (s[|s| - 1] as int - '0' as int)
  }

  /** Reading a numeral back gives the number written. */
  lemma {:induction false} DecimalRoundTrip(n: nat)
    ensures DecimalValue(Decimal(n)) == n
    decreases n
  {
    if n >= 10 {
      DecimalRoundTrip(n / 10);
      var s := Decimal(n);
      assert s[..|s| - 1] == Decimal(n / 10);
    }
  }

  /** `String(n)` for an integer: a minus sign before the numeral of a negative one. */
  function JsString(n: int): string {
    if n < 0 then "-" + Decimal(-n) else Decimal(n)
  }

  /** The length of the run of digits that starts a string. */
  function LeadingDigits(s: string): (n: nat)
    ensures n <= |s|
  {
    if |s| == 0 || !IsDigit(s[0]) then 0 else 1 + LeadingDigits(s[1..])
  }

  /** A numeral followed by a non-digit is exactly the leading run of digits. */
  lemma {:induction false} DigitRunLength(x: string, p: string)
    requires AllDigits(x) && |p| > 0 && !IsDigit(p[0])
    ensures LeadingDigits(x + p) == |x|
  {
    if |x| > 0 {
      assert (x + p)[1..] == x[1..] + p;
      DigitRunLength(x[1..], p);
    } else {
      assert x + p == p;
    }
  }

  /** A numeral followed by text that starts with a non-digit splits only one way. */
  lemma {:induction false} NumeralPrefix(x: string, p: string, y: string, q: string)
    requires AllDigits(x) && AllDigits(y)
    requires |p| > 0 && !IsDigit(p[0]) && |q| > 0 && !IsDigit(q[0])
    requires x + p == y + q
    ensures x == y && p == q
  {
    DigitRunLength(x, p);
    DigitRunLength(y, q);
    assert x == (x + p)[..|x|] && y == (y + q)[..|y|];
    assert p == (x + p)[|x|..] && q == (y + q)[|y|..];
  }

  /** Two numbers with the same numeral are equal. */
  lemma DecimalInjective(m: nat, n: nat)
    requires Decimal(m) == Decimal(n)
    ensures m == n
  {
    DecimalRoundTrip(m);
    DecimalRoundTrip(n);
  }

  /** Equal texts after the same literal are equal. */
  lemma DropLiteral(lit: string, s1: string, s2: string)
    requires lit + s1 == lit + s2
    ensures s1 == s2
  {
    assert s1 == (lit + s1)[|lit|..];
    assert s2 == (lit + s2)[|lit|..];
  }
}
