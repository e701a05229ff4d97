/**
 * `calcular_tabela` (app.py): the table of ceiling rates offered for a
 * reference NTN-B rate, a spread and a nominal rate. Each of its 21 rows
 * lowers both ceilings by a reserve that grows in steps of 0.05 percentage
 * points, from nothing to one point. Rates are percentages held as exact
 * reals; the reserve column is held as the text the source shows.
 */
module Ceiling {
  import opened Wrappers
  import opened Decimal

  /** The number of rows of the table. */
  const Rows: nat := 21

  /** The reserve column, as fractions, as app.py spells it out. */
  const Reserve: seq<real> := [
    0.00, -0.0005, -0.0010, -0.0015, -0.0020, -0.0025, -0.0030, -0.0035, -0.0040, -0.0045, -0.0050,
    -0.0055, -0.0060, -0.0065, -0.0070, -0.0075, -0.0080, -0.0085, -0.0090, -0.0095, -0.0100]

  /** Reserve `i` as the arithmetic progression the literal spells: `-i / 2000`. */
  function ReserveStep(i: nat): real {
    -(i as real) / 2000.0
  }

  /** The literal reserve column is the progression `0, -0.0005, ..., -0.01`. */
  lemma ReserveIsProgression()
    ensures |Reserve| == Rows
    ensures forall i :: 0 <= i < Rows ==> Reserve[i] == ReserveStep(i)
  {
    forall i | 0 <= i < Rows
      ensures Reserve[i] == ReserveStep(i)
    {
      if i < 7 {
        assert i == 0 || i == 1 || i == 2 || i == 3 || i == 4 || i == 5 || i == 6;
      } else if i < 14 {
        assert i == 7 || i == 8 || i == 9 || i == 10 || i == 11 || i == 12 || i == 13;
      } else {
        assert i == 14 || i == 15 || i == 16 || i == 17 || i == 18 || i == 19 || i == 20;
      }
    }
  }

  /**
   * `teto_ntnb`: the reference rate compounded with the spread, as a
   * fraction. It exceeds the plain sum of the two rates by their cross term.
   */
  function ComposedRate(reference: real, spread: real): (c: real)
    ensures c == reference / 100.0 + spread / 100.0 + reference * spread / 10000.0
  {
    (1.0 + reference / 100.0) * (1.0 + spread / 100.0) - 1.0
  }

  /**
   * A reserve given in hundredths of a percentage point, shown the way
   * `f'{r*100:.2f}%'` shows it: a minus sign for a negative value, then the
   * magnitude.
   */
  function PercentLabel(hundredths: int): (s: string)
    ensures |s| >= 5 && s[|s| - 1] == '%' && s[|s| - 4] == '.'
    ensures (s[0] == '-') <==> hundredths < 0
  {
    if hundredths < 0 then "-" + MagnitudeLabel(-hundredths) else MagnitudeLabel(hundredths)
  }

  /** The whole points without leading zeros, a dot, two digits and a percent sign. */
  function MagnitudeLabel(h: nat): (s: string)
    ensures |s| >= 5 && s[|s| - 1] == '%' && s[|s| - 4] == '.' && IsDigit(s[0])
  {
    DecimalString(h / 100) + "." + Padded(h % 100, 2) + "%"
  }

  /** Reads a label of the shape `PercentLabel` writes back as hundredths. */
  function ParsePercent(s: string): Option<int> {
    if |s| >= 1 && s[0] == '-' then
      match ParseUnsigned(s[1..])
      case Some(h) => Some(-h)
      case None => None
    else ParseUnsigned(s)
  }

  /** Reads whole digits, a dot, two digits and a percent sign as hundredths. */
  function ParseUnsigned(s: string): Option<int> {
    if |s| < 5 || s[|s| - 1] != '%' || s[|s| - 4] != '.' then None
    else
      var whole, fraction := s[..|s| - 4], s[|s| - 3..|s| - 1];
      if AllDigits(whole) && AllDigits(fraction) then Some(DigitsValue(whole) * 100 + DigitsValue(fraction))
      else None
  }

  /** Every label reads back as the reserve it shows, so no two reserves share a label. */
  lemma PercentLabelRoundTrip(hundredths: int)
    ensures ParsePercent(PercentLabel(hundredths)) == Some(hundredths)
  {
    var magnitude := if hundredths < 0 then -hundredths else hundredths;
    var u := MagnitudeLabel(magnitude);
    assert ParseUnsigned(u) == Some(magnitude) by {
      MagnitudeRoundTrip(magnitude);
    }
    SignedParts(u);
  }

  /** A sign in front of an unsigned label negates what it reads as. */
  lemma SignedParts(u: string)
    requires |u| >= 1 && IsDigit(u[0])
    ensures ParsePercent(u) == ParseUnsigned(u)
    ensures ParsePercent("-" + u) == if ParseUnsigned(u).Some? then Some(-ParseUnsigned(u).value) else None
  {
    assert ("-" + u)[1..] == u;
  }

  /** A magnitude label reads back as its value. */
  lemma MagnitudeRoundTrip(h: nat)
    ensures ParseUnsigned(MagnitudeLabel(h)) == Some(h)
  {
    assert MagnitudeLabel(h) == DecimalString(h / 100) + "." + Padded(h % 100, 2) + "%";
    FieldsRoundTrip(h / 100, h % 100);
  }

  /** Whole points and two digits of hundredths read back as their value in hundredths. */
  lemma FieldsRoundTrip(whole: nat, cents: nat)
    requires cents < 100
    ensures ParseUnsigned(DecimalString(whole) + "." + Padded(cents, 2) + "%") == Some(whole * 100 + cents)
  {
    var w := DecimalString(whole);
    var f := Padded(cents, 2);
    DecimalStringRoundTrip(whole);
    assert DigitsValue(f) == cents by {
      PaddedRoundTrip(cents, 2);
    }
    UnsignedParts(w, f);
  }

  /** Whole digits, a dot, two digits and a percent sign read back as their value in hundredths. */
  lemma UnsignedParts(whole: string, fraction: string)
    requires |whole| >= 1 && AllDigits(whole) && |fraction| == 2 && AllDigits(fraction)
    ensures ParseUnsigned(whole + "." + fraction + "%") == Some(DigitsValue(whole) * 100 + DigitsValue(fraction))
  {
    var s := whole + "." + fraction + "%";
    assert |s| == |whole| + 4 && s[|s| - 1] == '%' && s[|s| - 4] == '.';
    assert s[..|s| - 4] == whole && s[|s| - 3..|s| - 1] == fraction;
    ParseUnsignedOf(s, whole, fraction);
  }

  /** `ParseUnsigned` in terms of the fields it cuts out. */
  lemma ParseUnsignedOf(s: string, whole: string, fraction: string)
    requires |s| >= 5 && s[|s| - 1] == '%' && s[|s| - 4] == '.'
    requires s[..|s| - 4] == whole && s[|s| - 3..|s| - 1] == fraction
    requires AllDigits(whole) && AllDigits(fraction)
    ensures ParseUnsigned(s) == Some(DigitsValue(whole) * 100 + DigitsValue(fraction))
  {
  }

  /** Distinct reserves get distinct labels. */
  lemma PercentLabelInjective(a: int, b: int)
    ensures PercentLabel(a) == PercentLabel(b) ==> a == b
  {
    PercentLabelRoundTrip(a);
    PercentLabelRoundTrip(b);
  }

  /** One row of the table: the reserve label and the two ceilings, in percent. */
  datatype CeilingRow = CeilingRow(reserve: string, indexedCeiling: real, nominalCeiling: real)

  /**
   * `calcular_tabela(ntnb_ref, spread, taxa_nominal)`: row `i` lowers the
   * compounded NTN-B rate and the nominal rate by `i` times 0.05 points.
   */
  function CeilingTable(reference: real, spread: real, nominal: real): (t: seq<CeilingRow>)
    ensures |t| == Rows
    ensures forall i :: 0 <= i < Rows ==> t[i].reserve == PercentLabel(-5 * i)
    ensures forall i :: 0 <= i < Rows ==>
      t[i].indexedCeiling == ComposedRate(reference, spread) * 100.0 - (i as real) / 20.0
    ensures forall i :: 0 <= i < Rows ==> t[i].nominalCeiling == nominal - (i as real) / 20.0
  {
    ReserveIsProgression();
    var composed := ComposedRate(reference, spread);
    seq(Rows, i requires 0 <= i < Rows =>
      CeilingRow(PercentLabel(-5 * i), (composed + Reserve[i]) * 100.0, nominal + Reserve[i] * 100.0))
  }

  /** The reserves fall strictly from row to row, from 0 down to -1%. */
  lemma ReserveDescending()
    ensures Reserve[0] == 0.0 && Reserve[Rows - 1] == -0.01
    ensures forall i, j :: 0 <= i < j < Rows ==> Reserve[i] > Reserve[j]
  {
    ReserveIsProgression();
  }

  /** Both ceilings fall by 0.05 points from each row to the next, one point over the table. */
  lemma CeilingSteps(reference: real, spread: real, nominal: real)
    ensures var t := CeilingTable(reference, spread, nominal);
      && (forall i :: 0 <= i < Rows - 1 ==> t[i].indexedCeiling - t[i + 1].indexedCeiling == 0.05)
      && (forall i :: 0 <= i < Rows - 1 ==> t[i].nominalCeiling - t[i + 1].nominalCeiling == 0.05)
      && t[0].indexedCeiling - t[Rows - 1].indexedCeiling == 1.0
  {
  }

  /** The nominal column runs from the nominal rate itself down to one point below it. */
  lemma NominalEnds(reference: real, spread: real, nominal: real)
    ensures var t := CeilingTable(reference, spread, nominal);
      t[0].nominalCeiling == nominal && t[Rows - 1].nominalCeiling == nominal - 1.0
  {
  }

  /** With no spread and no reserve the NTN-B ceiling is the reference rate. */
  lemma ZeroSpreadKeepsReference(reference: real, nominal: real)
    ensures CeilingTable(reference, 0.0, nominal)[0].indexedCeiling == reference
  {
  }

  /**
   * Compounding never gives less than adding: for non-negative rates the
   * unreserved NTN-B ceiling is at least the sum of reference and spread,
   * and equal to it exactly when one of them is zero.
   */
  lemma CompoundingExceedsSum(reference: real, spread: real)
    requires reference >= 0.0 && spread >= 0.0
    ensures ComposedRate(reference, spread) * 100.0 >= reference + spread
    ensures ComposedRate(reference, spread) * 100.0 == reference + spread <==> reference * spread == 0.0
  {
    assert ComposedRate(reference, spread) * 100.0 == reference + spread + reference * spread / 100.0;
  }

  /** A wider spread raises every NTN-B ceiling, as long as the reference rate is above -100%. */
  lemma SpreadRaisesCeiling(reference: real, spread: real, wider: real, nominal: real)
    requires reference > -100.0 && spread < wider
    ensures forall i :: 0 <= i < Rows ==>
      CeilingTable(reference, spread, nominal)[i].indexedCeiling < CeilingTable(reference, wider, nominal)[i].indexedCeiling
  {
    SpreadRaisesComposed(reference, spread, wider);
  }

  /** The compounded rate grows with the spread when the reference rate is above -100%. */
  lemma SpreadRaisesComposed(reference: real, spread: real, wider: real)
    requires reference > -100.0 && spread < wider
    ensures ComposedRate(reference, spread) < ComposedRate(reference, wider)
  {
    var growth, widening := 1.0 + reference / 100.0, wider - spread;
    assert ComposedRate(reference, wider) - ComposedRate(reference, spread) == growth * widening / 100.0;
    PositiveProduct(growth, widening);
  }

  lemma PositiveProduct(a: real, b: real)
    requires a > 0.0 && b > 0.0
    ensures a * b > 0.0
  {
  }

  /**
   * Row `i`'s reserve label reads back as `-5 * i` hundredths of a point
   * (0, -0.05, ..., -1.00), which is `Reserve[i] * 100` in percent.
   */
  lemma ReserveLabelsReadBack(reference: real, spread: real, nominal: real)
    ensures forall i :: 0 <= i < Rows ==> Reserve[i] * 10000.0 == (-5 * i) as real
    ensures forall i :: 0 <= i < Rows ==> ParsePercent(CeilingTable(reference, spread, nominal)[i].reserve) == Some(-5 * i)
  {
    ReserveIsProgression();
    forall i | 0 <= i < Rows
      ensures ParsePercent(CeilingTable(reference, spread, nominal)[i].reserve) == Some(-5 * i)
    {
      PercentLabelRoundTrip(-5 * i);
    }
  }

  /**
   * The sidebar's default spread (1.25%) and nominal rate (7%) with a
   * reference rate of 6%: the first row offers 7.325% and 7%, the last
   * 6.325% and 6%.
   */
  lemma DefaultInputs()
    ensures var t := CeilingTable(6.0, 1.25, 7.0);
      && t[0].indexedCeiling == 7.325 && t[0].nominalCeiling == 7.0
      && t[Rows - 1].indexedCeiling == 6.325 && t[Rows - 1].nominalCeiling == 6.0
  {
    assert ComposedRate(6.0, 1.25) * 100.0 == 7.325;
  }
}
