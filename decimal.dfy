/** ASCII character classes and decimal integer text, as the C library
    functions used throughout the pipeline see them (isdigit, isalpha, isalnum,
    isspace, std::to_string, strtol) in the "C" locale. */
module Decimal {

  predicate IsDigit(c: char) { '0' <= c <= '9' }

  predicate IsAlpha(c: char) { ('a' <= c <= 'z') || ('A' <= c <= 'Z') }

  predicate IsAlnum(c: char) { IsDigit(c) || IsAlpha(c) }

  /** isspace: blank, tab, newline, vertical tab, form feed, carriage return. */
  predicate IsSpace(c: char) {
    c == ' ' || c == '\t' || c == '\n' || c == '\U{B}' || c == '\U{C}' || c == '\r'
  }

  predicate AllDigits(s: string) { forall i | 0 <= i < |s| :: IsDigit(s[i]) }

  function DigitValue(c: char): nat
    requires IsDigit(c)
  {
    (c as int) - ('0' as int)
  }

  function DigitChar(d: nat): (c: char)
    requires d < 10
    ensures IsDigit(c) && DigitValue(c) == d
  {
    (('0' as int) + d) as char
  }

  /** The value of a run of decimal digits, most significant first ("" is 0). */
  function DigitsValue(s: string): nat
    requires AllDigits(s)
  {
    if s == [] then 0 else DigitsValue(s[..|s| - 1]) * 10 + DigitValue(s[|s| - 1])
  }

  /** std::to_string of a non-negative value: shortest decimal text. */
  function NatToString(n: nat): (s: string)
    ensures |s| >= 1 && AllDigits(s)
    ensures s[0] == '0' ==> n == 0 && s == "0"
  {
    if n < 10 then [DigitChar(n)] else NatToString(n / 10) + [DigitChar(n % 10)]
  }

  /** std::to_string of a signed value. */
  function IntToString(i: int): (s: string)
  {
    if i < 0 then "-" + NatToString(-i) else NatToString(i)
  }

  /** Printing then reading back a natural number gives it back. */
  lemma {:induction false} NatToStringRoundTrip(n: nat)
    ensures DigitsValue(NatToString(n)) == n
  {
    if n >= 10 {
      var p := NatToString(n / 10);
      var s := p + [DigitChar(n % 10)];
      assert s[..|s| - 1] == p;
      NatToStringRoundTrip(n / 10);
    }
  }

  /** Distinct numbers print as distinct texts. */
  lemma NatToStringInjective(m: nat, n: nat)
    requires NatToString(m) == NatToString(n)
    ensures m == n
  {
    NatToStringRoundTrip(m);
    NatToStringRoundTrip(n);
  }

  /** Number of leading decimal digits of `s`. */
  function LeadingDigits(s: string): (k: nat)
    ensures k <= |s| && AllDigits(s[..k]) && (k < |s| ==> !IsDigit(s[k]))
  {
    if s != [] && IsDigit(s[0]) then
      var k := 1 + LeadingDigits(s[1..]);
      assert s[..k] == [s[0]] + s[1..][..k - 1];
      k
    else 0
  }

  /** The sign that strtol accepts in front of the digits. */
  predicate HasSign(s: string) { |s| > 0 && (s[0] == '+' || s[0] == '-') }

  /** strtol(s, nullptr, 10) on text without leading blanks: an optional sign,
      then the longest run of digits; no digits at all reads as 0. */
  function ToLong(s: string): int
  {
    var body := if HasSign(s) then s[1..] else s;
    var v: int := DigitsValue(body[..LeadingDigits(body)]);
    if |s| > 0 && s[0] == '-' then -v else v
  }

  /** The optimizer's and code generator's numeric-literal test: non-empty,
      and every character after an optional leading sign is a digit
      (so a lone "+" or "-" passes). */
  predicate IsNumber(s: string)
  {
    |s| > 0 && AllDigits(if HasSign(s) then s[1..] else s)
  }

  /** isNumber as the source runs it: skip one leading sign, then scan for a
      non-digit. */
  method ScanNumber(s: string) returns (b: bool)
    ensures b == IsNumber(s)
  {
    if |s| == 0 {
      return false;
    }
    var start := if s[0] == '+' || s[0] == '-' then 1 else 0;
    var i := start;
    while i < |s|
      invariant start <= i <= |s|
      invariant forall k | start <= k < i :: IsDigit(s[k])
    {
      if !IsDigit(s[i]) {
        assert (if HasSign(s) then s[1..] else s) == s[start..];
        return false;
      }
      i := i + 1;
    }
    b := true;
    assert (if HasSign(s) then s[1..] else s) == s[start..];
  }

  /** The text std::to_string prints is a numeric literal that strtol reads
      back as the same value. */
  lemma IntToStringRoundTrip(i: int)
    ensures IsNumber(IntToString(i)) && ToLong(IntToString(i)) == i
  {
    var n: nat := if i < 0 then -i else i;
    var d := NatToString(n);
    NatToStringRoundTrip(n);
    assert LeadingDigits(d) == |d|;
    assert d[..|d|] == d;
    if i < 0 {
      assert ("-" + d)[1..] == d;
    }
  }

  /** C's `/`: the quotient truncated toward zero. */
  function TruncDiv(a: int, b: int): int
    requires b != 0
  {
    var q := (if a < 0 then -a else a) / (if b < 0 then -b else b);
    if (a < 0) != (b < 0) then -q else q
  }

  /** q is C's quotient of a by b: the remainder a - q * b is smaller than
      the divisor in magnitude and never has the opposite sign of a. */
  predicate IsCQuotient(a: int, b: int, q: int)
  {
    var r := a - q * b;
    (if r < 0 then -r else r) < (if b < 0 then -b else b) &&
    (a >= 0 ==> r >= 0) && (a <= 0 ==> r <= 0)
  }

  /** TruncDiv is C division. */
  lemma TruncDivIsCDivision(a: int, b: int)
    requires b != 0
    ensures IsCQuotient(a, b, TruncDiv(a, b))
  {
    var A := if a < 0 then -a else a;
    var B := if b < 0 then -b else b;
    var q0, m := A / B, A % B;
    var p := q0 * B;
    assert A == p + m && 0 <= m < B;
    var q := TruncDiv(a, b);
    assert q * b == (if a >= 0 then p else -p) by {
      if a >= 0 && b > 0 {
        assert q == q0 && b == B;
      } else if a >= 0 {
        assert q == -q0 && b == -B;
        NegTimesNeg(q0, B);
      } else if b > 0 {
        assert q == -q0 && b == B;
        NegTimes(q0, B);
      } else {
        assert q == q0 && b == -B;
        TimesNeg(q0, B);
      }
    }
  }

  lemma NegTimesNeg(x: int, y: int) ensures (-x) * (-y) == x * y {}
  lemma NegTimes(x: int, y: int) ensures (-x) * y == -(x * y) {}
  lemma TimesNeg(x: int, y: int) ensures x * (-y) == -(x * y) {}
}
