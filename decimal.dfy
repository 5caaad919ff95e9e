/**
 * Decimal numerals as Python's f-string formatting writes an int: an optional
 * minus sign followed by the digits, most significant first, with no leading zero.
 * ValueOf reads a numeral back; the lemmas show that Digits and ValueOf are
 * inverse bijections between the naturals and the canonical numerals.
 */
module Decimal {

  predicate IsDigit(c: char) {
    '0' <= c <= '9'
  }

  function DigitChar(d: nat): (c: char)
    requires d < 10
    ensures IsDigit(c) && DigitValue(c) == d
  {
    ('0' as int + d) as char
  }

  function DigitValue(c: char): int {
    c as int - '0' as int
  }

  function Pow10(k: nat): (p: nat)
    ensures p >= 1
  {
    if k == 0 then 1 else 10 * Pow10(k - 1)
  }

  /** The digits of a natural number, as f'{n}' prints it. */
  function Digits(n: nat): (s: string)
    ensures |s| >= 1
  {
    if n < 10 then [DigitChar(n)] else Digits(n / 10) + [DigitChar(n % 10)]
  }

  /** f'{n}' for any int: a minus sign in front of the digits of |n| when n is negative. */
  function DecimalString(n: int): string {
    if n < 0 then "-" + Digits(-n) else Digits(n)
  }

  /** A numeral f'{n}' can print for some n >= 0: digits only, and no leading zero unless it is "0". */
  predicate Canonical(s: string) {
    |s| >= 1 && (forall i :: 0 <= i < |s| ==> IsDigit(s[i])) && (s[0] == '0' ==> |s| == 1)
  }

  /** The value of a string of digits, read from the left. */
  function ValueOf(s: string): int {
    if s == [] then 0 else 10 * ValueOf(s[..|s| - 1]) + DigitValue(s[|s| - 1])
  }

  lemma {:induction false} DigitsCanonical(n: nat)
    ensures Canonical(Digits(n))
    ensures ValueOf(Digits(n)) == n
  {
    if n >= 10 {
      DigitsCanonical(n / 10);
      var s := Digits(n);
      assert s[..|s| - 1] == Digits(n / 10);
      assert s[0] == Digits(n / 10)[0];
    }
  }

  lemma {:induction false} ValueOfNonNegative(s: string)
    requires forall i :: 0 <= i < |s| ==> IsDigit(s[i])
    ensures ValueOf(s) >= 0
  {
    if s != [] {
      ValueOfNonNegative(s[..|s| - 1]);
    }
  }

  /** A digit string that does not start with '0' has a positive value. */
  lemma {:induction false} ValueOfLeadingNonZero(s: string)
    requires |s| >= 1 && (forall i :: 0 <= i < |s| ==> IsDigit(s[i])) && s[0] != '0'
    ensures ValueOf(s) >= 1
  {
    if |s| > 1 {
      ValueOfLeadingNonZero(s[..|s| - 1]);
    }
  }

  /** Every canonical numeral is printed by exactly the number it denotes. */
  lemma {:induction false} CanonicalDigits(s: string)
    requires Canonical(s)
    ensures ValueOf(s) >= 0 && Digits(ValueOf(s)) == s
  {
    ValueOfNonNegative(s);
    if |s| > 1 {
      var p := s[..|s| - 1];
      assert Canonical(p) by {
        assert p[0] == s[0];
      }
      CanonicalDigits(p);
      ValueOfLeadingNonZero(p);
      var v, d := ValueOf(p), DigitValue(s[|s| - 1]);
      assert ValueOf(s) == 10 * v + d;
      assert ValueOf(s) / 10 == v && ValueOf(s) % 10 == d;
      assert s == p + [s[|s| - 1]];
    }
  }

  /** Digits is injective: distinct numbers print differently. */
  lemma DigitsInjective(m: nat, n: nat)
    requires Digits(m) == Digits(n)
    ensures m == n
  {
    DigitsCanonical(m);
    DigitsCanonical(n);
  }

  /** Putting a digit in front of a numeral adds that digit times a power of ten. */
  lemma {:induction false} ValueOfPrepend(c: char, s: string)
    ensures ValueOf([c] + s) == DigitValue(c) * Pow10(|s|) + ValueOf(s)
  {
    if s != [] {
      var t := s[..|s| - 1];
      assert ([c] + s)[..|s|] == [c] + t;
      ValueOfPrepend(c, t);
      calc {
        ValueOf([c] + s);
        10 * ValueOf([c] + t) + DigitValue(s[|s| - 1]);
        10 * (DigitValue(c) * Pow10(|t|) + ValueOf(t)) + DigitValue(s[|s| - 1]);
        { assert 10 * (DigitValue(c) * Pow10(|t|)) == DigitValue(c) * (10 * Pow10(|t|)); }
        DigitValue(c) * Pow10(|s|) + ValueOf(s);
      }
    }
  }

  /** The number whose numeral is the digit d written in front of the numeral of b. */
  function PrependDigit(d: nat, b: nat): nat {
    d * Pow10(|Digits(b)|) + b
  }

  /** The numeral of d * 10^k + b, where b has k digits and 1 <= d <= 9, is d followed by the digits of b. */
  lemma LeadingDigit(d: nat, b: nat)
    requires 1 <= d <= 9
    ensures Digits(PrependDigit(d, b)) == [DigitChar(d)] + Digits(b)
  {
    var s := [DigitChar(d)] + Digits(b);
    DigitsCanonical(b);
    assert Canonical(s) by {
      forall i | 0 <= i < |s| ensures IsDigit(s[i]) {
        if i > 0 { assert s[i] == Digits(b)[i - 1]; }
      }
    }
    ValueOfPrepend(DigitChar(d), Digits(b));
    CanonicalDigits(s);
  }

  /** Appending a digit to the numeral of a positive number multiplies by ten and adds it. */
  lemma TrailingDigit(a: nat, d: nat)
    requires a >= 1 && d <= 9
    ensures Digits(10 * a + d) == Digits(a) + [DigitChar(d)]
  {
    assert (10 * a + d) / 10 == a && (10 * a + d) % 10 == d;
  }
}
