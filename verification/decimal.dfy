/** Decimal text of Swift integers, as produced by string interpolation `"\(n)"`,
    together with a parser that inverts it. */
module Decimal {
  import opened Options

  predicate IsDigit(c: char) {
    '0' <= c <= '9'
  }

  predicate AllDigits(s: string) {
    forall i :: 0 <= i < |s| ==> IsDigit(s[i])
  }

  /** A digit string as Swift prints a natural number: non-empty, and no leading zero
      unless the number is 0 itself. */
  predicate CanonicalDigits(s: string) {
    |s| > 0 && AllDigits(s) && (|s| == 1 || s[0] != '0')
  }

  /** An integer as Swift prints it: canonical digits, or a minus sign before the canonical
      digits of a positive number (so never "-0"). */
  predicate CanonicalDecimal(s: string) {
    || CanonicalDigits(s)
    || (|s| > 1 && s[0] == '-' && CanonicalDigits(s[1..]) && s[1] != '0')
  }

  function DigitValue(c: char): (d: nat)
    requires IsDigit(c)
    ensures d < 10
  {
    c as int - '0' as int
  }

  function DigitChar(d: nat): (c: char)
    requires d < 10
    ensures IsDigit(c) && DigitValue(c) == d
  {
    (d + '0' as int) as char
  }

  /** Most significant digit first, no leading zeros, "0" for zero. */
  function NatToString(n: nat): string
    decreases n
  {
    if n < 10 then [DigitChar(n)] else NatToString(n / 10) + [DigitChar(n % 10)]
  }

  /** Swift's `"\(n)"` for an `Int`: a minus sign before the magnitude of a negative number. */
  function IntToString(n: int): string {
    if n < 0 then "-" + NatToString(-n) else NatToString(n)
  }

  /** The value of a string of decimal digits, most significant first. */
  function DigitsValue(s: string): nat
    requires AllDigits(s)
    decreases |s|
  {
    if s == [] then 0 else DigitsValue(s[..|s| - 1]) * 10 + DigitValue(s[|s| - 1])
  }

  /** Reads an optionally negative decimal integer; anything else is None. */
  function ParseInt(s: string): Option<int> {
    if |s| > 1 && s[0] == '-' && AllDigits(s[1..]) then Some(0 - DigitsValue(s[1..]) as int)
    else if |s| > 0 && AllDigits(s) then Some(DigitsValue(s))
    else None
  }

  /** The text of a natural number is a canonical digit string, beginning with a non-zero
      digit when the number is positive, whose value is that number. */
  lemma {:induction false} NatToStringDigits(n: nat)
    ensures CanonicalDigits(NatToString(n))
    ensures n > 0 ==> NatToString(n)[0] != '0'
    ensures DigitsValue(NatToString(n)) == n
    decreases n
  {
    if n >= 10 {
      NatToStringDigits(n / 10);
      var s := NatToString(n);
      var prefix := NatToString(n / 10);
      assert s == prefix + [DigitChar(n % 10)];
      assert s[0] == prefix[0];
      assert s[..|s| - 1] == prefix;
      assert DigitsValue(s) == (n / 10) * 10 + n % 10;
    }
  }

  /** A digit string whose first digit is not zero has a positive value. */
  lemma {:induction false} LeadingDigitPositive(s: string)
    requires |s| > 0 && AllDigits(s) && s[0] != '0'
    ensures DigitsValue(s) >= 1
    decreases |s|
  {
    if |s| > 1 {
      var prefix := s[..|s| - 1];
      assert prefix[0] == s[0];
      LeadingDigitPositive(prefix);
    }
  }

  /** A canonical digit string is exactly the text of its own value: no other spelling of
      a number is canonical. */
  lemma {:induction false} CanonicalDigitsUnique(s: string)
    requires CanonicalDigits(s)
    ensures NatToString(DigitsValue(s)) == s
    decreases |s|
  {
    var n := DigitsValue(s);
    var last := s[|s| - 1];
    if |s| == 1 {
      assert s[..|s| - 1] == [];
      assert DigitsValue(s[..|s| - 1]) == 0;
      assert n == DigitValue(last);
      assert DigitChar(DigitValue(last)) == last;
      assert s == [last];
    } else {
      var prefix := s[..|s| - 1];
      assert prefix[0] == s[0];
      LeadingDigitPositive(prefix);
      CanonicalDigitsUnique(prefix);
      var p := DigitsValue(prefix);
      assert n == p * 10 + DigitValue(last);
      assert n / 10 == p && n % 10 == DigitValue(last);
      assert DigitChar(DigitValue(last)) == last;
      assert s == prefix + [last];
    }
  }

  /** The decimal text of an integer is canonical: no leading zero and never "-0". */
  lemma IntToStringCanonical(n: int)
    ensures CanonicalDecimal(IntToString(n))
  {
    if n < 0 {
      NatToStringDigits(-n);
      assert IntToString(n)[1..] == NatToString(-n);
    } else {
      NatToStringDigits(n);
    }
  }

  /** Parsing the decimal text of any integer gives that integer back. */
  lemma IntToStringRoundTrip(n: int)
    ensures ParseInt(IntToString(n)) == Some(n)
  {
    var s := IntToString(n);
    if n < 0 {
      var digits := NatToString(-n);
      NatToStringDigits(-n);
      assert s == "-" + digits && s[1..] == digits;
      assert |s| > 1 && s[0] == '-' && AllDigits(s[1..]);
      assert DigitsValue(s[1..]) == -n;
    } else {
      NatToStringDigits(n);
      assert s == NatToString(n) && s[0] != '-';
    }
  }

  /** The converse of the round trip: a canonical string that parses to `n` is the
      decimal text of `n`, so the text of an integer is its only canonical spelling. */
  lemma CanonicalDecimalUnique(s: string, n: int)
    requires CanonicalDecimal(s)
    requires ParseInt(s) == Some(n)
    ensures s == IntToString(n)
  {
    if CanonicalDigits(s) {
      assert s[0] != '-';
      CanonicalDigitsUnique(s);
    } else {
      var digits := s[1..];
      LeadingDigitPositive(digits);
      CanonicalDigitsUnique(digits);
      assert s == "-" + digits;
    }
  }
}
