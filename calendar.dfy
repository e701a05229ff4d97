/**
 * Calendar arithmetic behind `calcular_data_util` (app.py): dates of the
 * proleptic Gregorian calendar as Python's `datetime` holds them, the day
 * number Python derives from them (`toordinal() - 1`), the weekday Python
 * reports (`weekday()`, 0 = Monday) and the rollback to the last business day.
 */
module Calendar {
  import opened Wrappers

  datatype Date = Date(year: int, month: int, day: int)

  const MinYear := 1
  const MaxYear := 9999
  const Saturday := 5
  const Sunday := 6

  predicate IsLeapYear(y: int) {
    y % 4 == 0 && (y % 100 != 0 || y % 400 == 0)
  }

  function DaysInYear(y: int): int {
    if IsLeapYear(y) then 366 else 365
  }

  function DaysInMonth(y: int, m: int): (n: int)
    requires 1 <= m <= 12
    ensures 28 <= n <= 31
  {
    if m == 2 then (if IsLeapYear(y) then 29 else 28)
    else if m == 4 || m == 6 || m == 9 || m == 11 then 30
    else 31
  }

  /** The dates a Python `date` can hold. */
  predicate Valid(d: Date) {
    MinYear <= d.year <= MaxYear && 1 <= d.month <= 12 && 1 <= d.day <= DaysInMonth(d.year, d.month)
  }

  /** Days in the years before `y`, year by year. */
  function DaysBeforeYear(y: int): int
    requires y >= 1
  {
    if y == 1 then 0 else DaysBeforeYear(y - 1) + DaysInYear(y - 1)
  }

  /** Days in the months of year `y` before month `m`, month by month. */
  function DaysBeforeMonth(y: int, m: int): int
    requires 1 <= m <= 12
  {
    if m == 1 then 0 else DaysBeforeMonth(y, m - 1) + DaysInMonth(y, m - 1)
  }

  /** Days elapsed since 0001-01-01, which is day 0. */
  function DayNumber(d: Date): int
    requires Valid(d)
  {
    DaysBeforeYear(d.year) + DaysBeforeMonth(d.year, d.month) + d.day - 1
  }

  /** Python's `weekday()`: 0 is Monday, 5 Saturday, 6 Sunday (0001-01-01 was a Monday). */
  function Weekday(d: Date): int
    requires Valid(d)
  {
    DayNumber(d) % 7
  }

  predicate IsWeekend(n: int) {
    n % 7 == Saturday || n % 7 == Sunday
  }

  /** The count of days before a year agrees with the closed form Python's `toordinal` uses. */
  lemma {:induction false} DaysBeforeYearClosedForm(y: int)
    requires y >= 1
    ensures DaysBeforeYear(y) == (y - 1) * 365 + (y - 1) / 4 - (y - 1) / 100 + (y - 1) / 400
  {
    if y > 1 {
      DaysBeforeYearClosedForm(y - 1);
      var p := y - 1;
      LeapCountsStep(p);
    }
  }

  /** Stepping from `p - 1` to `p` adds one multiple of 4, 100 or 400 exactly when `p` is one. */
  lemma LeapCountsStep(p: int)
    requires p >= 1
    ensures p / 4 == (p - 1) / 4 + (if p % 4 == 0 then 1 else 0)
    ensures p / 100 == (p - 1) / 100 + (if p % 100 == 0 then 1 else 0)
    ensures p / 400 == (p - 1) / 400 + (if p % 400 == 0 then 1 else 0)
    ensures DaysInYear(p)
         == 365 + (if p % 4 == 0 then 1 else 0) - (if p % 100 == 0 then 1 else 0) + (if p % 400 == 0 then 1 else 0)
  {
    DivisorsNest(p);
  }

  /** A multiple of 400 is one of 100, and a multiple of 100 is one of 4. */
  lemma DivisorsNest(p: int)
    ensures p % 400 == 0 ==> p % 100 == 0
    ensures p % 100 == 0 ==> p % 4 == 0
  {
    if p % 400 == 0 {
      var t := 4 * (p / 400) - p / 100;
      assert p % 100 == 100 * t;
    }
    if p % 100 == 0 {
      var t := 25 * (p / 100) - p / 4;
      assert p % 4 == 4 * t;
    }
  }

  /** The count of days before a month agrees with the cumulative table Python's `toordinal` uses. */
  lemma DaysBeforeMonthTable(y: int, m: int)
    requires 1 <= m <= 12
    ensures DaysBeforeMonth(y, m)
         == [0, 31, 59, 90, 120, 151, 181, 212, 243, 273, 304, 334][m - 1] + (if m > 2 && IsLeapYear(y) then 1 else 0)
  {
    if m > 1 {
      DaysBeforeMonthTable(y, m - 1);
    }
  }

  lemma {:induction false} DaysBeforeYearGrows(y: int)
    requires y >= 1
    ensures DaysBeforeYear(y) >= 365 * (y - 1)
  {
    if y > 1 {
      DaysBeforeYearGrows(y - 1);
    }
  }

  lemma YearLength(y: int)
    ensures DaysInYear(y) == DaysBeforeMonth(y, 12) + DaysInMonth(y, 12)
  {
    DaysBeforeMonthTable(y, 12);
  }

  lemma {:induction false} DaysBeforeMonthGrows(y: int, m: int)
    requires 1 <= m <= 12
    ensures DaysBeforeMonth(y, m) >= 28 * (m - 1)
  {
    if m > 1 {
      DaysBeforeMonthGrows(y, m - 1);
    }
  }

  /** Day numbers count from 0001-01-01, the only date numbered 0. */
  lemma {:induction false} DayNumberZero(d: Date)
    requires Valid(d)
    ensures DayNumber(d) >= 0
    ensures DayNumber(d) == 0 <==> d == Date(1, 1, 1)
  {
    DaysBeforeYearGrows(d.year);
    DaysBeforeMonthGrows(d.year, d.month);
  }

  /** The date one day earlier: `d - timedelta(days=1)`, which fails before 0001-01-01. */
  function Prev(d: Date): (r: Option<Date>)
    requires Valid(d)
    ensures r.None? <==> DayNumber(d) == 0
    ensures r.Some? ==> Valid(r.value) && DayNumber(r.value) == DayNumber(d) - 1
  {
    DayNumberZero(d);
    if d.day > 1 then Some(Date(d.year, d.month, d.day - 1))
    else if d.month > 1 then
      Some(Date(d.year, d.month - 1, DaysInMonth(d.year, d.month - 1)))
    else if d.year > MinYear then
      YearLength(d.year - 1);
      Some(Date(d.year - 1, 12, 31))
    else None
  }

  /** The date `k` days earlier: `d - timedelta(days=k)`. */
  function Back(d: Date, k: nat): (r: Option<Date>)
    requires Valid(d)
    ensures r.None? <==> DayNumber(d) < k
    ensures r.Some? ==> Valid(r.value) && DayNumber(r.value) == DayNumber(d) - k
    decreases k
  {
    DayNumberZero(d);
    if k == 0 then Some(d)
    else
      match Prev(d)
      case None => None
      case Some(p) => Back(p, k - 1)
  }

  /** Only weekend days lie strictly between `r` and `t` when `t - 1` is a weekday, or is a weekend day rolled back to Friday `r`. */
  lemma RollbackGap(r: int, t: int)
    requires || ((t - 1) % 7 < Saturday && r == t - 1)
             || ((t - 1) % 7 == Saturday && r == t - 2)
             || ((t - 1) % 7 == Sunday && r == t - 3)
    ensures !IsWeekend(r)
    ensures forall n :: r < n < t ==> IsWeekend(n)
  {
  }

  /**
   * `calcular_data_util` with `today` in place of `datetime.now()`: the day
   * before today, moved back to Friday when it is a Saturday or a Sunday.
   * None stands for Python's OverflowError on the first representable day.
   */
  function LastBusinessDay(today: Date): (r: Option<Date>)
    requires Valid(today)
    ensures r.None? <==> DayNumber(today) == 0
    ensures r.Some? ==> Valid(r.value) && !IsWeekend(DayNumber(r.value))
    ensures r.Some? ==> DayNumber(today) - 3 <= DayNumber(r.value) < DayNumber(today)
    ensures r.Some? ==> forall n :: DayNumber(r.value) < n < DayNumber(today) ==> IsWeekend(n)
  {
    var candidate := Back(today, 1);
    if candidate.None? then None
    else
      var yesterday := candidate.value;
      if Weekday(yesterday) == Saturday then
        Rollback(today, yesterday, 1);
        Back(yesterday, 1)
      else if Weekday(yesterday) == Sunday then
        Rollback(today, yesterday, 2);
        Back(yesterday, 2)
      else
        Rollback(today, yesterday, 0);
        Some(yesterday)
  }

  /**
   * Going back `k` days from yesterday, where `k` is 1 for a Saturday, 2 for
   * a Sunday and 0 otherwise, reaches a weekday with only weekend days
   * between it and today.
   */
  lemma Rollback(today: Date, yesterday: Date, k: nat)
    requires Valid(today) && Valid(yesterday) && DayNumber(yesterday) == DayNumber(today) - 1
    requires k == (if Weekday(yesterday) == Saturday then 1 else if Weekday(yesterday) == Sunday then 2 else 0)
    ensures Back(yesterday, k).Some? && (k == 0 ==> Back(yesterday, k) == Some(yesterday))
    ensures var r := Back(yesterday, k).value;
      && Valid(r) && !IsWeekend(DayNumber(r))
      && DayNumber(today) - 3 <= DayNumber(r) < DayNumber(today)
      && forall n :: DayNumber(r) < n < DayNumber(today) ==> IsWeekend(n)
  {
    var t := DayNumber(today);
    DayNumberZero(yesterday);
    assert DayNumber(yesterday) >= k by {
      if k > 0 {
        assert (t - 1) % 7 >= Saturday;
      }
    }
    RollbackGap(t - 1 - k, t);
  }

  /** The days of a year are numbered after those of every earlier year. */
  lemma {:induction false} DaysBeforeYearMonotone(a: int, b: int)
    requires 1 <= a <= b
    ensures DaysBeforeYear(a) + (if a < b then DaysInYear(a) else 0) <= DaysBeforeYear(b)
  {
    if a < b {
      DaysBeforeYearMonotone(a, b - 1);
    }
  }

  /** The days of a month are numbered after those of every earlier month of the year. */
  lemma {:induction false} DaysBeforeMonthMonotone(y: int, a: int, b: int)
    requires 1 <= a <= b <= 12
    ensures DaysBeforeMonth(y, a) + (if a < b then DaysInMonth(y, a) else 0) <= DaysBeforeMonth(y, b)
  {
    if a < b {
      DaysBeforeMonthMonotone(y, a, b - 1);
    }
  }

  /** Every date of a year lies within that year's count of days. */
  lemma DayOfYearBound(d: Date)
    requires Valid(d)
    ensures DaysBeforeMonth(d.year, d.month) + d.day <= DaysInYear(d.year)
  {
    DaysBeforeMonthMonotone(d.year, d.month, 12);
    YearLength(d.year);
  }

  /** Distinct dates have distinct day numbers, so a day number names one date. */
  lemma DayNumberInjective(a: Date, b: Date)
    requires Valid(a) && Valid(b) && DayNumber(a) == DayNumber(b)
    ensures a == b
  {
    DayOfYearBound(a);
    DayOfYearBound(b);
    DaysBeforeMonthGrows(a.year, a.month);
    DaysBeforeMonthGrows(b.year, b.month);
    if a.year < b.year {
      DaysBeforeYearMonotone(a.year, b.year);
    } else if b.year < a.year {
      DaysBeforeYearMonotone(b.year, a.year);
    } else if a.month < b.month {
      DaysBeforeMonthMonotone(a.year, a.month, b.month);
    } else if b.month < a.month {
      DaysBeforeMonthMonotone(a.year, b.month, a.month);
    }
  }

  /**
   * The resolved date is the most recent weekday strictly before today:
   * any weekday before today is on or before it, and a weekday after it is it.
   */
  lemma LastBusinessDayIsLatest(today: Date, e: Date)
    requires Valid(today) && Valid(e)
    requires DayNumber(e) < DayNumber(today) && !IsWeekend(DayNumber(e))
    ensures LastBusinessDay(today).Some?
    ensures DayNumber(e) <= DayNumber(LastBusinessDay(today).value)
    ensures DayNumber(e) == DayNumber(LastBusinessDay(today).value) ==> e == LastBusinessDay(today).value
  {
    var r := LastBusinessDay(today);
    DayNumberZero(e);
    assert r.Some?;
    if DayNumber(e) == DayNumber(r.value) {
      DayNumberInjective(e, r.value);
    }
  }

  /** A weekday yesterday is returned unchanged; a weekend yesterday is replaced by the Friday before it. */
  lemma LastBusinessDayFromYesterday(today: Date, yesterday: Date)
    requires Valid(today) && Prev(today) == Some(yesterday)
    ensures Weekday(yesterday) < Saturday ==> LastBusinessDay(today) == Some(yesterday)
    ensures Weekday(yesterday) == Saturday ==> LastBusinessDay(today) == Prev(yesterday)
    ensures Weekday(yesterday) == Sunday ==> LastBusinessDay(today) == Back(yesterday, 2)
  {
    assert Back(today, 1) == Prev(today);
  }
}
