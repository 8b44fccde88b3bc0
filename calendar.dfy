/**
 * The proleptic Gregorian calendar of Python's datetime.date: years 1 to 9999,
 * a day ordinal counted from 0001-01-01, and the one-day step that
 * `date + timedelta(days=1)` performs.
 */
module Calendar {

  const MIN_YEAR := 1
  const MAX_YEAR := 9999

  datatype Date = Date(year: int, month: int, day: int)

  predicate IsLeap(y: int) {
    y % 4 == 0 && (y % 100 != 0 || y % 400 == 0)
  }

  function YearLength(y: int): int {
    if IsLeap(y) then 366 else 365
  }

  function DaysInMonth(y: int, m: int): int {
    if m == 2 then (if IsLeap(y) then 29 else 28)
    else if m == 4 || m == 6 || m == 9 || m == 11 then 30
    else 31
  }

  /** A date that Python's datetime.date accepts. */
  predicate ValidDate(d: Date) {
    && MIN_YEAR <= d.year <= MAX_YEAR
    && 1 <= d.month <= 12
    && 1 <= d.day <= DaysInMonth(d.year, d.month)
  }

  /** Days in the years 1 .. y-1 (the closed form datetime uses). */
  function DaysBeforeYear(y: int): int {
    var p := y - 1;
    p * 365 + p / 4 - p / 100 + p / 400
  }

  /** Days in the months 1 .. m-1 of year y. */
  function DaysBeforeMonth(y: int, m: int): int {
    var common :=
      if m <= 1 then 0 else if m == 2 then 31 else if m == 3 then 59
      else if m == 4 then 90 else if m == 5 then 120 else if m == 6 then 151
      else if m == 7 then 181 else if m == 8 then 212 else if m == 9 then 243
      else if m == 10 then 273 else if m == 11 then 304 else 334;
    common + (if m > 2 && IsLeap(y) then 1 else 0)
  }

  /** date.toordinal(): 0001-01-01 is day 1. */
  function Ordinal(d: Date): int {
    DaysBeforeYear(d.year) + DaysBeforeMonth(d.year, d.month) + d.day
  }

  /** The calendar day after d, before any range check on the year. */
  function NextDay(d: Date): Date
    requires ValidDate(d)
  {
    if d.day < DaysInMonth(d.year, d.month) then d.(day := d.day + 1)
    else if d.month < 12 then Date(d.year, d.month + 1, 1)
    else Date(d.year + 1, 1, 1)
  }

  lemma DivStep(p: int)
    requires p >= 0
    ensures (p + 1) / 4 - p / 4 == if (p + 1) % 4 == 0 then 1 else 0
    ensures (p + 1) / 100 - p / 100 == if (p + 1) % 100 == 0 then 1 else 0
    ensures (p + 1) / 400 - p / 400 == if (p + 1) % 400 == 0 then 1 else 0
  {
  }

  lemma MultipleOf400(y: int)
    requires y % 400 == 0
    ensures y % 100 == 0
  {
    var m := 4 * (y / 400);
    assert y == 100 * m;
  }

  lemma MultipleOf100(y: int)
    requires y % 100 == 0
    ensures y % 4 == 0
  {
    var m := 25 * (y / 100);
    assert y == 4 * m;
  }

  lemma DivisibilityChain(y: int)
    ensures y % 400 == 0 ==> y % 100 == 0
    ensures y % 100 == 0 ==> y % 4 == 0
  {
    if y % 400 == 0 {
      MultipleOf400(y);
    }
    if y % 100 == 0 {
      MultipleOf100(y);
    }
  }

  lemma DaysBeforeYearStep(y: int)
    requires y >= MIN_YEAR
    ensures DaysBeforeYear(y + 1) == DaysBeforeYear(y) + YearLength(y)
  {
    var p := y - 1;
    DivStep(p);
    DivisibilityChain(y);
    assert DaysBeforeYear(y + 1) - DaysBeforeYear(y)
      == 365 + ((p + 1) / 4 - p / 4) - ((p + 1) / 100 - p / 100) + ((p + 1) / 400 - p / 400);
  }

  /** Adding one day advances the ordinal by exactly one, and stays valid except after 9999-12-31. */
  lemma NextDayOrdinal(d: Date)
    requires ValidDate(d)
    ensures Ordinal(NextDay(d)) == Ordinal(d) + 1
    ensures ValidDate(NextDay(d)) <==> d != Date(MAX_YEAR, 12, 31)
  {
    if d.day == DaysInMonth(d.year, d.month) && d.month == 12 {
      DaysBeforeYearStep(d.year);
    }
  }

  /** Dates are ordered by their ordinals: the ordinal is one-to-one on valid dates. */
  lemma OrdinalInjective(d1: Date, d2: Date)
    requires ValidDate(d1) && ValidDate(d2)
    requires Ordinal(d1) == Ordinal(d2)
    ensures d1 == d2
  {
    if d1.year < d2.year {
      YearOrdinalBound(d1, d2.year);
    } else if d2.year < d1.year {
      YearOrdinalBound(d2, d1.year);
    }
  }

  /** Every day of a year lies before the first day of any later year. */
  lemma YearOrdinalBound(d: Date, y: int)
    requires ValidDate(d) && d.year < y <= MAX_YEAR
    ensures Ordinal(d) <= DaysBeforeYear(y)
    decreases y - d.year
  {
    DaysBeforeYearStep(d.year);
    if d.year + 1 < y {
      YearOrdinalBound(Date(d.year + 1, 1, 1), y);
    }
  }
}
