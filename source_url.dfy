/**
 * The address of the day's published NTN-B table (app.py, `atualizar_ntnb`):
 * the resolved date written as `strftime("%d%b%Y").lower()` in the pt_BR
 * locale, spliced between the fixed ANBIMA prefix and the `_ntn-b.asp` suffix.
 */
module SourceUrl {
  import opened Wrappers
  import opened Decimal
  import opened Calendar

  /** Month abbreviations of the pt_BR locale, January first (what `%b` prints there). */
  const MonthAbbreviations: seq<string> :=
    ["jan", "fev", "mar", "abr", "mai", "jun", "jul", "ago", "set", "out", "nov", "dez"]

  const UrlPrefix := "https://www.anbima.com.br/informacoes/merc-sec/resultados/msec_"
  const UrlSuffix := "_ntn-b.asp"
  const TokenLength := 9

  predicate IsLowerLetter(c: char) {
    'a' <= c <= 'z'
  }

  predicate IsLowerWord(w: string) {
    forall i :: 0 <= i < |w| ==> IsLowerLetter(w[i])
  }

  /** The shape of a token: two digits, three lower-case letters, four digits. */
  predicate IsTokenShape(t: string) {
    && |t| == TokenLength
    && AllDigits(t[..2])
    && (forall i :: 2 <= i < 5 ==> IsLowerLetter(t[i]))
    && AllDigits(t[5..])
  }

  /** Python's `str.lower` on the characters it can meet here (ASCII). */
  function Lower(s: string): (r: string)
    ensures |r| == |s|
    ensures forall i :: 0 <= i < |s| ==> ('A' <= s[i] <= 'Z' ==> r[i] == (s[i] as int + 32) as char)
    ensures forall i :: 0 <= i < |s| ==> (!('A' <= s[i] <= 'Z') ==> r[i] == s[i])
  {
    if s == [] then []
    else [if 'A' <= s[0] <= 'Z' then (s[0] as int + 32) as char else s[0]] + Lower(s[1..])
  }

  /** `strftime("%d%b%Y")` in the pt_BR locale: zero-padded day, month abbreviation, four-digit year. */
  function Strftime(d: Date): string
    requires Valid(d)
  {
    Padded(d.day, 2) + MonthAbbreviations[d.month - 1] + Padded(d.year, 4)
  }

  /** Every pt_BR abbreviation is three lower-case letters. */
  lemma AbbreviationShape(m: int)
    requires 1 <= m <= 12
    ensures |MonthAbbreviations[m - 1]| == 3 && IsLowerWord(MonthAbbreviations[m - 1])
  {
  }

  /** The fields of `Strftime`, and the absence of capitals in it. */
  lemma StrftimeShape(d: Date)
    requires Valid(d)
    ensures IsTokenShape(Strftime(d))
    ensures Strftime(d)[..2] == Padded(d.day, 2) && Strftime(d)[5..] == Padded(d.year, 4)
    ensures Strftime(d)[2..5] == MonthAbbreviations[d.month - 1]
    ensures forall i :: 0 <= i < |Strftime(d)| ==> !('A' <= Strftime(d)[i] <= 'Z')
  {
    var day, month, year := Padded(d.day, 2), MonthAbbreviations[d.month - 1], Padded(d.year, 4);
    AbbreviationShape(d.month);
    var s := day + month + year;
    assert s[..2] == day && s[2..5] == month && s[5..] == year;
    forall i | 0 <= i < |s|
      ensures !('A' <= s[i] <= 'Z')
    {
      if i < 2 {
        assert s[i] == day[i];
      } else if i < 5 {
        assert s[i] == month[i - 2];
      } else {
        assert s[i] == year[i - 5];
      }
    }
  }

  /** Lower-casing a string without capitals changes nothing. */
  lemma LowerWithoutCapitals(s: string)
    requires forall i :: 0 <= i < |s| ==> !('A' <= s[i] <= 'Z')
    ensures Lower(s) == s
  {
  }

  /** The date token of the URL (`data_formatada`). */
  function DateToken(d: Date): (t: string)
    requires Valid(d)
    ensures IsTokenShape(t)
    ensures t[..2] == Padded(d.day, 2) && t[5..] == Padded(d.year, 4)
    ensures t[2..5] == MonthAbbreviations[d.month - 1]
  {
    var s := Strftime(d);
    StrftimeShape(d);
    LowerWithoutCapitals(s);
    Lower(s)
  }

  /** The address the page is fetched from (`ntnb_url`). */
  function NtnbUrl(d: Date): (u: string)
    requires Valid(d)
    ensures |u| == |UrlPrefix| + TokenLength + |UrlSuffix|
    ensures u[..|UrlPrefix|] == UrlPrefix
    ensures u[|UrlPrefix| + TokenLength..] == UrlSuffix
    ensures u[|UrlPrefix|..|UrlPrefix| + TokenLength] == DateToken(d)
  {
    UrlPrefix + DateToken(d) + UrlSuffix
  }

  /** The month a pt_BR abbreviation names. */
  function MonthNumber(abbreviation: string): Option<int> {
    if abbreviation == "jan" then Some(1)
    else if abbreviation == "fev" then Some(2)
    else if abbreviation == "mar" then Some(3)
    else if abbreviation == "abr" then Some(4)
    else if abbreviation == "mai" then Some(5)
    else if abbreviation == "jun" then Some(6)
    else if abbreviation == "jul" then Some(7)
    else if abbreviation == "ago" then Some(8)
    else if abbreviation == "set" then Some(9)
    else if abbreviation == "out" then Some(10)
    else if abbreviation == "nov" then Some(11)
    else if abbreviation == "dez" then Some(12)
    else None
  }

  /** Reads a token back into the date it names, if it names one. */
  function ParseToken(t: string): (r: Option<Date>)
    ensures r.Some? ==> Valid(r.value)
  {
    if |t| != TokenLength || !AllDigits(t[..2]) || !AllDigits(t[5..]) then None
    else match MonthNumber(t[2..5])
      case None => None
      case Some(m) =>
        var d := Date(DigitsValue(t[5..]), m, DigitsValue(t[..2]));
        if Valid(d) then Some(d) else None
  }

  /** Reads a URL of the source back into the date it names, if it names one. */
  function ParseUrl(u: string): (r: Option<Date>)
    ensures r.Some? ==> Valid(r.value)
  {
    if |u| != |UrlPrefix| + TokenLength + |UrlSuffix| then None
    else if u[..|UrlPrefix|] != UrlPrefix || u[|UrlPrefix| + TokenLength..] != UrlSuffix then None
    else ParseToken(u[|UrlPrefix|..|UrlPrefix| + TokenLength])
  }

  lemma MonthNumberOfAbbreviation(m: int)
    requires 1 <= m <= 12
    ensures MonthNumber(MonthAbbreviations[m - 1]) == Some(m)
  {
  }

  /** The token determines the date: reading it back gives the date it was written from. */
  lemma TokenRoundTrip(d: Date)
    requires Valid(d)
    ensures ParseToken(DateToken(d)) == Some(d)
  {
    var t := DateToken(d);
    PaddedRoundTrip(d.day, 2);
    PaddedRoundTrip(d.year, 4);
    MonthNumberOfAbbreviation(d.month);
  }

  /** The URL determines the date it was built from. */
  lemma UrlRoundTrip(d: Date)
    requires Valid(d)
    ensures ParseUrl(NtnbUrl(d)) == Some(d)
  {
    TokenRoundTrip(d);
  }

  /** Different dates are fetched from different addresses. */
  lemma UrlInjective(a: Date, b: Date)
    requires Valid(a) && Valid(b) && NtnbUrl(a) == NtnbUrl(b)
    ensures a == b
  {
    UrlRoundTrip(a);
    UrlRoundTrip(b);
  }
}
