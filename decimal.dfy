/**
 * Decimal digit strings: the zero-padded fixed-width fields that `strftime`
 * (`%d`, `%Y`) and fixed-point formatting (`.2f`) produce, and their inverse.
 */
module Decimal {

  predicate IsDigit(c: char) {
    '0' <= c <= '9'
  }

  predicate AllDigits(s: string) {
    forall i :: 0 <= i < |s| ==> IsDigit(s[i])
  }

  function Digit(n: nat): (c: char)
    requires n < 10
    ensures IsDigit(c)
  {
    ('0' as int + n) as char
  }

  function DigitValue(c: char): (n: nat)
    requires IsDigit(c)
    ensures n < 10 && Digit(n) == c
  {
    c as int - '0' as int
  }

  function Pow10(w: nat): (p: nat)
    ensures p >= 1
  {
    if w == 0 then 1 else 10 * Pow10(w - 1)
  }

  /** `n` written in exactly `w` decimal digits, with leading zeros. */
  function Padded(n: nat, w: nat): (s: string)
    requires n < Pow10(w)
    ensures |s| == w && AllDigits(s)
  {
    if w == 0 then [] else Padded(n / 10, w - 1) + [Digit(n % 10)]
  }

  /** The number a string of decimal digits denotes (most significant digit first). */
  function DigitsValue(s: string): (n: nat)
    requires AllDigits(s)
    ensures n < Pow10(|s|)
  {
    if s == [] then 0 else 10 * DigitsValue(s[..|s| - 1]) + DigitValue(s[|s| - 1])
  }

  /** Reading back a padded field gives the number that was written. */
  lemma {:induction false} PaddedRoundTrip(n: nat, w: nat)
    requires n < Pow10(w)
    ensures DigitsValue(Padded(n, w)) == n
  {
    if w > 0 {
      var s := Padded(n, w);
      assert s[..|s| - 1] == Padded(n / 10, w - 1);
      PaddedRoundTrip(n / 10, w - 1);
    }
  }

  /** The fewest digits that write `n` (at least one, so that zero is "0"). */
  function DigitCount(n: nat): (w: nat)
    ensures w >= 1 && n < Pow10(w)
    ensures w > 1 ==> Pow10(w - 1) <= n
  {
    if n < 10 then 1 else 1 + DigitCount(n / 10)
  }

  /** `n` in decimal without leading zeros, as Python's `str(n)`. */
  function DecimalString(n: nat): (s: string)
    ensures |s| >= 1 && AllDigits(s)
    ensures |s| > 1 ==> s[0] != '0'
  {
    var w := DigitCount(n);
    if w == 1 then Padded(n, w)
    else
      DigitsLeadNonZero(n, w);
      Padded(n, w)
  }

  /** `DecimalString(n)` denotes `n`: reading it back gives the number written. */
  lemma DecimalStringRoundTrip(n: nat)
    ensures DigitsValue(DecimalString(n)) == n
  {
    PaddedRoundTrip(n, DigitCount(n));
  }

  /** A padded field whose width is not larger than needed starts with a non-zero digit. */
  lemma {:induction false} DigitsLeadNonZero(n: nat, w: nat)
    requires 1 < w && Pow10(w - 1) <= n < Pow10(w)
    ensures Padded(n, w)[0] != '0'
  {
    if w == 2 {
      assert 1 <= n / 10 < 10;
    } else {
      assert Padded(n, w)[0] == Padded(n / 10, w - 1)[0];
      DigitsLeadNonZero(n / 10, w - 1);
    }
  }
}
