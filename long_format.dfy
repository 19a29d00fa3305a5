/**
 * The decimal text Java produces for a `Long` in string concatenation
 * (`Long.toString`), and the parser that reads it back.
 */
module LongFormat {

  predicate IsDigit(c: char) {
    '0' <= c <= '9'
  }

  predicate AllDigits(s: string) {
    forall i :: 0 <= i < |s| ==> IsDigit(s[i])
  }

  function DigitChar(d: nat): (c: char)
    requires d < 10
    ensures IsDigit(c)
  {
    (('0' as int) + d) as char
  }

  function DigitValue(c: char): (d: nat)
    requires IsDigit(c)
    ensures d < 10
    ensures DigitChar(d) == c
  {
    (c as int) - ('0' as int)
  }

  /** The digits of `n`, most significant first, without leading zeros. */
  function NaturalDigits(n: nat): (s: string)
    decreases n
  {
    if n < 10 then [DigitChar(n)] else NaturalDigits(n / 10) + [DigitChar(n % 10)]
  }

  /** `Long.toString(n)`: a minus sign for negative values, then the digits of the magnitude. */
  function LongToString(n: int): (s: string)
  {
    if n < 0 then "-" + NaturalDigits(-n) else NaturalDigits(n)
  }

  /** The value of a string of decimal digits (0 for the empty string). */
  function ParseNatural(s: string): (n: nat)
    requires AllDigits(s)
    decreases |s|
  {
    if s == [] then 0 else ParseNatural(s[..|s| - 1]) * 10 + DigitValue(s[|s| - 1])
  }

  /**
   * The shape of text `LongToString` produces: an optional minus sign and at
   * least one digit. Together with `ParseLong` this is the model's own
   * inverse of `LongToString`, used by the round-trip lemmas; it is not
   * `Long.parseLong`, which also takes a leading `+` and rejects values
   * outside 64 bits.
   */
  predicate IsLongText(s: string) {
    if |s| > 0 && s[0] == '-' then |s| > 1 && AllDigits(s[1..]) else |s| > 0 && AllDigits(s)
  }

  function ParseLong(s: string): (n: int)
    requires IsLongText(s)
  {
    if s[0] == '-' then 0 - ParseNatural(s[1..]) as int else ParseNatural(s)
  }

  lemma {:induction false} NaturalDigitsRoundTrip(n: nat)
    ensures |NaturalDigits(n)| > 0 && AllDigits(NaturalDigits(n))
    ensures ParseNatural(NaturalDigits(n)) == n
  {
    var s := NaturalDigits(n);
    if n < 10 {
      assert s[..|s| - 1] == [];
    } else {
      NaturalDigitsRoundTrip(n / 10);
      var prefix := NaturalDigits(n / 10);
      assert s[..|s| - 1] == prefix;
      assert s[|s| - 1] == DigitChar(n % 10);
      assert DigitValue(DigitChar(n % 10)) == n % 10 by {
        assert DigitChar(DigitValue(DigitChar(n % 10))) == DigitChar(n % 10);
      }
    }
  }

  /** Every `Long.toString` output parses back to the value it was made from. */
  lemma LongToStringRoundTrip(n: int)
    ensures IsLongText(LongToString(n))
    ensures ParseLong(LongToString(n)) == n
  {
    var s := LongToString(n);
    if n < 0 {
      NaturalDigitsRoundTrip(-n);
      assert s[1..] == NaturalDigits(-n);
    } else {
      NaturalDigitsRoundTrip(n);
      assert IsDigit(s[0]);
    }
  }

  /** Distinct values have distinct decimal texts. */
  lemma LongToStringInjective(a: int, b: int)
    ensures LongToString(a) == LongToString(b) ==> a == b
  {
    LongToStringRoundTrip(a);
    LongToStringRoundTrip(b);
  }
}
