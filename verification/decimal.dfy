/** Decimal text of integers: Swift's string interpolation `"\(i)"` for an
    `Int`, and the integer forms that `Double(_: String)` reads back. */
module Decimal {
  import opened Optional

  predicate IsDigit(c: char) {
    '0' <= c <= '9'
  }

  predicate AllDigits(s: string) {
    forall i :: 0 <= i < |s| ==> IsDigit(s[i])
  }

  function DigitChar(d: nat): (c: char)
    requires d < 10
    ensures IsDigit(c)
  {
    ('0' as int + d) as char
  }

  function DigitValue(c: char): (d: nat)
    requires IsDigit(c)
    ensures d < 10 && DigitChar(d) == c
  {
    c as int - '0' as int
  }

  /** The value of a string of decimal digits, most significant first. */
  function DigitsValue(s: string): nat
    requires AllDigits(s)
  {
    if |s| == 0 then 0 else DigitsValue(s[..|s| - 1]) * 10 + DigitValue(s[|s| - 1])
  }

  /** The shortest decimal digits of `n`: never empty, no leading zero. */
  function NatToDecimal(n: nat): (s: string)
    ensures |s| >= 1 && AllDigits(s)
    ensures |s| > 1 ==> s[0] != '0'
    decreases n
  {
    if n < 10 then [DigitChar(n)] else NatToDecimal(n / 10) + [DigitChar(n % 10)]
  }

  /** Swift's `"\(i)"` for an `Int`: a minus sign for negatives, then the digits. */
  function IntToDecimal(i: int): (s: string)
    ensures |s| >= 1
    ensures s[0] == '-' <==> i < 0
    ensures i >= 0 ==> AllDigits(s)
    ensures i < 0 ==> |s| >= 2 && AllDigits(s[1..])
    ensures IsCanonicalDecimal(s)
  {
    if i < 0 then "-" + NatToDecimal(-i) else NatToDecimal(i)
  }

  /** An optional sign followed by at least one decimal digit. */
  predicate IsIntegerText(s: string) {
    if |s| > 0 && (s[0] == '+' || s[0] == '-') then |s| > 1 && AllDigits(s[1..])
    else |s| > 0 && AllDigits(s)
  }

  /** The integer an integer-shaped text denotes; `None` for any other text. */
  function ParseInteger(s: string): (r: Option<int>)
    ensures r.Some? <==> IsIntegerText(s)
    ensures r.Some? && s[0] == '-' ==> r.value <= 0
    ensures r.Some? && s[0] != '-' ==> r.value >= 0
  {
    if !IsIntegerText(s) then None
    else if s[0] == '-' then Some(-(DigitsValue(s[1..]) as int))
    else if s[0] == '+' then Some(DigitsValue(s[1..]))
    else Some(DigitsValue(s))
  }

  /** A leading zero does not change the value of a digit string. */
  lemma {:induction false} LeadingZeroValue(d: string)
    requires AllDigits(d)
    ensures AllDigits("0" + d) && DigitsValue("0" + d) == DigitsValue(d)
  {
    if |d| > 0 {
      var init := d[..|d| - 1];
      LeadingZeroValue(init);
      assert ("0" + d)[..|"0" + d| - 1] == "0" + init;
      assert ("0" + d)[|"0" + d| - 1] == d[|d| - 1];
    }
  }

  /** The value of any integer text, canonical or not, is that of its digits:
      a plus sign and leading zeros change nothing, and a minus sign negates
      (so `"-0"` reads as 0). With `CanonicalDecimalRoundTrip` these fix the
      value of every integer text. */
  lemma PlainDigitsValue(d: string)
    requires |d| >= 1 && AllDigits(d)
    ensures ParseInteger(d) == Some(DigitsValue(d) as int)
  {
    assert d[0] != '+' && d[0] != '-';
  }

  lemma PlusSignValue(d: string)
    requires |d| >= 1 && AllDigits(d)
    ensures ParseInteger("+" + d) == Some(DigitsValue(d) as int)
  {
    var plus := "+" + d;
    assert plus[0] == '+' && plus[1..] == d;
  }

  lemma MinusSignValue(d: string)
    requires |d| >= 1 && AllDigits(d)
    ensures ParseInteger("-" + d) == Some(-(DigitsValue(d) as int))
  {
    var minus := "-" + d;
    assert minus[0] == '-' && minus[1..] == d;
  }

  lemma LeadingZeroTextValue(d: string)
    requires |d| >= 1 && AllDigits(d)
    ensures ParseInteger("0" + d) == Some(DigitsValue(d) as int)
  {
    LeadingZeroValue(d);
    var zero := "0" + d;
    assert zero[0] == '0';
  }

  /** Reading back the digits of `n` gives `n`. */
  lemma {:induction false} NatToDecimalRoundTrip(n: nat)
    ensures DigitsValue(NatToDecimal(n)) == n
  {
    if n >= 10 {
      var s := NatToDecimal(n);
      NatToDecimalRoundTrip(n / 10);
      assert s[..|s| - 1] == NatToDecimal(n / 10);
      assert DigitValue(s[|s| - 1]) == n % 10;
    }
  }

  /** The text Swift prints for an `Int` parses back to that `Int`. */
  lemma IntToDecimalRoundTrip(i: int)
    ensures ParseInteger(IntToDecimal(i)) == Some(i)
  {
    var s := IntToDecimal(i);
    if i < 0 {
      assert s[1..] == NatToDecimal(-i);
      NatToDecimalRoundTrip(-i);
    } else {
      NatToDecimalRoundTrip(i);
    }
  }

  /** Digits without a superfluous leading zero. */
  predicate IsCanonicalDigits(s: string) {
    |s| >= 1 && AllDigits(s) && (|s| > 1 ==> s[0] != '0')
  }

  /** The only text Swift prints for an integer: canonical digits, with a
      minus sign in front exactly for negative values. */
  predicate IsCanonicalDecimal(s: string) {
    if |s| > 0 && s[0] == '-' then IsCanonicalDigits(s[1..]) && s[1] != '0'
    else IsCanonicalDigits(s)
  }

  lemma {:induction false} LeadingDigitBound(s: string)
    requires |s| >= 1 && AllDigits(s)
    ensures DigitsValue(s) >= DigitValue(s[0])
  {
    if |s| > 1 {
      assert s[..|s| - 1][0] == s[0];
      LeadingDigitBound(s[..|s| - 1]);
    }
  }

  /** Canonical digits are exactly what `NatToDecimal` prints for their value. */
  lemma {:induction false} CanonicalDigitsRoundTrip(s: string)
    requires IsCanonicalDigits(s)
    ensures NatToDecimal(DigitsValue(s)) == s
  {
    if |s| > 1 {
      var init := s[..|s| - 1];
      assert init[0] == s[0];
      LeadingDigitBound(init);
      CanonicalDigitsRoundTrip(init);
      assert init + [s[|s| - 1]] == s;
    }
  }

  /** Canonical text is printed back unchanged from the integer it denotes, so
      a canonical text is fixed by its value. */
  lemma CanonicalDecimalRoundTrip(s: string)
    requires IsCanonicalDecimal(s)
    ensures ParseInteger(s).Some?
    ensures IntToDecimal(ParseInteger(s).value) == s
  {
    if s[0] == '-' {
      CanonicalDigitsRoundTrip(s[1..]);
      assert s[1..][0] == s[1];
      LeadingDigitBound(s[1..]);
      assert "-" + s[1..] == s;
    } else {
      CanonicalDigitsRoundTrip(s);
    }
  }

  /** Distinct integers print as distinct texts. */
  lemma IntToDecimalInjective(i: int, j: int)
    requires IntToDecimal(i) == IntToDecimal(j)
    ensures i == j
  {
    IntToDecimalRoundTrip(i);
    IntToDecimalRoundTrip(j);
  }
}
