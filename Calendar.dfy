/**
 * Calendar arithmetic behind `Date.UTC(year, month, date)` as the day
 * resolver uses it: a proleptic Gregorian calendar, months numbered from 0
 * (as `getMonth()` returns them), and whole days counted from 1970-01-01.
 * A time value in milliseconds is this day number times `MsPerDay`.
 */
module Calendar {

  const MsPerMinute: int := 60000
  const MsPerDay: int := 86400000

  /** A calendar date as the `Date` getters report it: `month` is 0-based. */
  datatype CivilDate = CivilDate(year: int, month: int, day: int)

  predicate IsLeapYear(y: int) {
    y % 4 == 0 && (y % 100 != 0 || y % 400 == 0)
  }

  function DaysInYear(y: int): (n: int)
    ensures n == 365 || n == 366
  {
    if IsLeapYear(y) then 366 else 365
  }

  function DaysInMonth(y: int, m: int): (n: int)
    requires 0 <= m < 12
    ensures 28 <= n <= 31
    ensures m == 1 ==> (n == 29 <==> IsLeapYear(y))
  {
    if m == 1 then (if IsLeapYear(y) then 29 else 28)
    else if m == 3 || m == 5 || m == 8 || m == 10 then 30
    else 31
  }

  predicate ValidDate(d: CivilDate) {
    0 <= d.month < 12 && 1 <= d.day <= DaysInMonth(d.year, d.month)
  }

  /** Day number of January 1st of year `y`: the lengths of the years since 1970 added up. */
  function DayFromYear(y: int): int
    decreases if y < 1970 then 1970 - y else y - 1970
  {
    if y == 1970 then 0
    else if y > 1970 then DayFromYear(y - 1) + DaysInYear(y - 1)
    else DayFromYear(y + 1) - DaysInYear(y)
  }

  /** Days in the months of year `y` that come before month `m`. */
  function DaysBeforeMonth(y: int, m: int): (n: int)
    requires 0 <= m <= 12
    ensures 28 * m <= n <= 31 * m
  {
    if m == 0 then 0 else DaysBeforeMonth(y, m - 1) + DaysInMonth(y, m - 1)
  }

  /**
   * Day number of `Date.UTC(year, month, date)`. Like ECMAScript's MakeDay it
   * is total: a month outside 0..11 carries into the year, and `date` is
   * added as an offset from the first of the month.
   */
  function UtcDay(year: int, month: int, date: int): int {
    var y := year + month / 12;
    var m := month % 12;
    DayFromYear(y) + DaysBeforeMonth(y, m) + date - 1
  }

  /** `Date.UTC(year, month, date)`: milliseconds since 1970-01-01T00:00Z. */
  function DateUtc(year: int, month: int, date: int): (ms: int)
    ensures ms % MsPerDay == 0
  {
    UtcDay(year, month, date) * MsPerDay
  }

  /** Day number of a valid date, counted within its year. */
  function DayNumber(d: CivilDate): int
    requires ValidDate(d)
  {
    DayFromYear(d.year) + DaysBeforeMonth(d.year, d.month) + d.day - 1
  }

  /** The calendar date that follows `d`. */
  function NextDate(d: CivilDate): (r: CivilDate)
    requires ValidDate(d)
    ensures ValidDate(r)
  {
    if d.day < DaysInMonth(d.year, d.month) then CivilDate(d.year, d.month, d.day + 1)
    else if d.month < 11 then CivilDate(d.year, d.month + 1, 1)
    else CivilDate(d.year + 1, 0, 1)
  }

  /** The date `k` calendar days after `d`. */
  function AddDays(d: CivilDate, k: nat): (r: CivilDate)
    requires ValidDate(d)
    ensures ValidDate(r)
    decreases k
  {
    if k == 0 then d else AddDays(NextDate(d), k - 1)
  }

  /** Calendar order: `a` falls on an earlier date than `b`. */
  predicate DateBefore(a: CivilDate, b: CivilDate) {
    a.year < b.year ||
    (a.year == b.year && (a.month < b.month || (a.month == b.month && a.day < b.day)))
  }

  lemma YearLengthStep(y: int)
    ensures DayFromYear(y + 1) == DayFromYear(y) + DaysInYear(y)
  {
  }

  /**
   * One year later, a quotient by `n` (for the divisors of the leap-year
   * rule) grows by one exactly when the year is a multiple of `n`; `c` is
   * the offset that the closed form subtracts, one more than a multiple of `n`.
   */
  lemma QuotientStep4(y: int)
    ensures (y - 1968) / 4 == (y - 1969) / 4 + (if y % 4 == 0 then 1 else 0)
  {
    var q, r := (y - 1969) / 4, (y - 1969) % 4;
    if r == 3 {
      assert y == 4 * (q + 493);
    } else {
      assert y == 4 * (q + 492) + (r + 1);
    }
  }

  lemma QuotientStep100(y: int)
    ensures (y - 1900) / 100 == (y - 1901) / 100 + (if y % 100 == 0 then 1 else 0)
  {
    var q, r := (y - 1901) / 100, (y - 1901) % 100;
    if r == 99 {
      assert y == 100 * (q + 20);
    } else {
      assert y == 100 * (q + 19) + (r + 1);
    }
  }

  lemma QuotientStep400(y: int)
    ensures (y - 1600) / 400 == (y - 1601) / 400 + (if y % 400 == 0 then 1 else 0)
  {
    var q, r := (y - 1601) / 400, (y - 1601) % 400;
    if r == 399 {
      assert y == 400 * (q + 5);
    } else {
      assert y == 400 * (q + 4) + (r + 1);
    }
  }

  /** ECMAScript's closed form of DayFromYear. */
  function DayFromYearFormula(y: int): int {
    365 * (y - 1970) + (y - 1969) / 4 - (y - 1901) / 100 + (y - 1601) / 400
  }

  /** The leap-year rule counts +1 per 4 years, -1 per 100 and +1 per 400. */
  lemma DaysInYearByRemainders(y: int)
    ensures DaysInYear(y) == 365 + (if y % 4 == 0 then 1 else 0)
                                 - (if y % 100 == 0 then 1 else 0)
                                 + (if y % 400 == 0 then 1 else 0)
  {
    if y % 100 == 0 {
      CenturyIsMultipleOfFour(y);
    }
    if y % 400 == 0 {
      FourCenturiesIsCentury(y);
    }
  }

  lemma CenturyIsMultipleOfFour(y: int)
    requires y % 100 == 0
    ensures y % 4 == 0
  {
    var k := y / 100;
    assert y == 4 * (25 * k);
  }

  lemma FourCenturiesIsCentury(y: int)
    requires y % 400 == 0
    ensures y % 100 == 0
  {
    var k := y / 400;
    assert y == 100 * (4 * k);
  }

  lemma FormulaStep(y: int)
    ensures DayFromYearFormula(y + 1) == DayFromYearFormula(y) + DaysInYear(y)
  {
    QuotientStep4(y);
    QuotientStep100(y);
    QuotientStep400(y);
    DaysInYearByRemainders(y);
    assert DayFromYearFormula(y + 1)
        == 365 * (y - 1969) + (y - 1968) / 4 - (y - 1900) / 100 + (y - 1600) / 400;
  }

  /** The year count agrees with ECMAScript's closed form for every year. */
  lemma {:induction false} DayFromYearMatchesFormula(y: int)
    ensures DayFromYear(y) == DayFromYearFormula(y)
    decreases if y < 1970 then 1970 - y else y - 1970
  {
    if y > 1970 {
      DayFromYearMatchesFormula(y - 1);
      FormulaStep(y - 1);
    } else if y < 1970 {
      DayFromYearMatchesFormula(y + 1);
      FormulaStep(y);
    }
  }

  lemma MonthsFillYear(y: int)
    ensures DaysBeforeMonth(y, 12) == DaysInYear(y)
  {
    var feb := DaysInMonth(y, 1);
    assert DaysBeforeMonth(y, 2) == 31 + feb;
    assert DaysBeforeMonth(y, 4) == 92 + feb;
    assert DaysBeforeMonth(y, 6) == 153 + feb;
    assert DaysBeforeMonth(y, 8) == 215 + feb;
    assert DaysBeforeMonth(y, 10) == 276 + feb;
    assert DaysBeforeMonth(y, 12) == 337 + feb;
  }

  /** For a valid date, `Date.UTC` needs no carry from the month into the year. */
  lemma UtcDayOfValidDate(d: CivilDate)
    requires ValidDate(d)
    ensures UtcDay(d.year, d.month, d.day) == DayNumber(d)
  {
    assert d.month / 12 == 0 && d.month % 12 == d.month;
  }

  /** The day number of a valid date lies within its own year. */
  lemma DayNumberWithinYear(d: CivilDate)
    requires ValidDate(d)
    ensures DayFromYear(d.year) <= DayNumber(d) < DayFromYear(d.year) + DaysInYear(d.year)
  {
    MonthsBefore(d.year, d.month + 1, 12);
    MonthsFillYear(d.year);
  }

  /** Earlier months of a year end no later than later months begin. */
  lemma {:induction false} MonthsBefore(y: int, m1: int, m2: int)
    requires 0 <= m1 <= m2 <= 12
    ensures DaysBeforeMonth(y, m1) <= DaysBeforeMonth(y, m2)
    decreases m2 - m1
  {
    if m1 < m2 {
      MonthsBefore(y, m1, m2 - 1);
    }
  }

  /** A later year starts after the whole of every earlier year. */
  lemma {:induction false} YearsBefore(y1: int, y2: int)
    requires y1 < y2
    ensures DayFromYear(y1) + DaysInYear(y1) <= DayFromYear(y2)
    decreases y2 - y1
  {
    YearLengthStep(y1);
    if y1 + 1 < y2 {
      YearsBefore(y1 + 1, y2);
    }
  }

  /** Day numbers count consecutive calendar days. */
  lemma DayNumberNext(d: CivilDate)
    requires ValidDate(d)
    ensures DayNumber(NextDate(d)) == DayNumber(d) + 1
  {
    if d.day == DaysInMonth(d.year, d.month) && d.month == 11 {
      YearLengthStep(d.year);
      MonthsFillYear(d.year);
    }
  }

  /** Adding `k` calendar days adds exactly `k` to the day number. */
  lemma {:induction false} DayNumberAddDays(d: CivilDate, k: nat)
    requires ValidDate(d)
    ensures DayNumber(AddDays(d, k)) == DayNumber(d) + k
    decreases k
  {
    if k > 0 {
      DayNumberNext(d);
      DayNumberAddDays(NextDate(d), k - 1);
    }
  }

  /** Day numbers follow calendar order, in both directions. */
  lemma DayNumberOrder(a: CivilDate, b: CivilDate)
    requires ValidDate(a) && ValidDate(b)
    ensures DateBefore(a, b) <==> DayNumber(a) < DayNumber(b)
    ensures a == b <==> DayNumber(a) == DayNumber(b)
  {
    if DateBefore(a, b) {
      DayNumberBefore(a, b);
    } else if DateBefore(b, a) {
      DayNumberBefore(b, a);
    } else {
      assert a == b;
    }
  }

  lemma DayNumberBefore(a: CivilDate, b: CivilDate)
    requires ValidDate(a) && ValidDate(b) && DateBefore(a, b)
    ensures DayNumber(a) < DayNumber(b)
  {
    DayNumberWithinYear(a);
    DayNumberWithinYear(b);
    if a.year < b.year {
      YearsBefore(a.year, b.year);
    } else if a.month < b.month {
      MonthsBefore(a.year, a.month + 1, b.month);
    }
  }
}
