/**
 * Calendar dates as the dashboard's pandas timestamps carry them (midnight
 * of a proleptic Gregorian day), their order, and a day count that gives
 * the number of days between two dates (`(max - min).days`).
 */
module Dates {

  datatype Date = Date(year: int, month: int, day: int)

  predicate IsLeapYear(y: int)
  {
    y % 4 == 0 && (y % 100 != 0 || y % 400 == 0)
  }

  function DaysInMonth(y: int, m: int): (n: int)
    requires 1 <= m <= 12
    ensures 28 <= n <= 31
    ensures m == 2 ==> (n == 29 <==> IsLeapYear(y))
  {
    if m == 2 then (if IsLeapYear(y) then 29 else 28)
    else if m == 4 || m == 6 || m == 9 || m == 11 then 30
    else 31
  }

  /** A day of the proleptic Gregorian calendar (year 1 onwards). */
  predicate IsValidDate(d: Date)
  {
    d.year >= 1 && 1 <= d.month <= 12 && 1 <= d.day <= DaysInMonth(d.year, d.month)
  }

  /** Strict chronological order of two dates. */
  predicate Before(a: Date, b: Date)
  {
    a.year < b.year
    || (a.year == b.year && a.month < b.month)
    || (a.year == b.year && a.month == b.month && a.day < b.day)
  }

  predicate NotAfter(a: Date, b: Date)
  {
    a == b || Before(a, b)
  }

  /**
   * The first and last calendar days a pandas nanosecond timestamp can hold
   * at midnight (`Timestamp.min` is 1677-09-21 00:12:43, so that day's
   * midnight is already out of range).
   */
  const FirstTimestampDay := Date(1677, 9, 22)
  const LastTimestampDay := Date(2262, 4, 11)

  predicate InTimestampRange(d: Date)
  {
    NotAfter(FirstTimestampDay, d) && NotAfter(d, LastTimestampDay)
  }

  function YearLength(y: int): (n: int)
    ensures n == if IsLeapYear(y) then 366 else 365
  {
    if IsLeapYear(y) then 366 else 365
  }

  /** Days in the years 1 .. y-1. */
  function DaysBeforeYear(y: int): (n: nat)
    decreases y
  {
    if y <= 1 then 0 else DaysBeforeYear(y - 1) + YearLength(y - 1)
  }

  /** Days in the months 1 .. m-1 of year y. */
  function DaysBeforeMonth(y: int, m: int): (n: nat)
    requires 1 <= m <= 13
    decreases m
  {
    if m == 1 then 0 else DaysBeforeMonth(y, m - 1) + DaysInMonth(y, m - 1)
  }

  /** Day number counted from 0001-01-01 (day 1). */
  function DayNumber(d: Date): int
    requires IsValidDate(d)
  {
    DaysBeforeYear(d.year) + DaysBeforeMonth(d.year, d.month) + d.day
  }

  /** The twelve months of a year add up to the year's length. */
  lemma MonthsFillYear(y: int)
    ensures DaysBeforeMonth(y, 13) == YearLength(y)
  {
    var feb := if IsLeapYear(y) then 29 else 28;
    assert DaysBeforeMonth(y, 3) == 31 + feb;
    assert DaysBeforeMonth(y, 5) == 31 + feb + 31 + 30;
    assert DaysBeforeMonth(y, 7) == 31 + feb + 31 + 30 + 31 + 30;
    assert DaysBeforeMonth(y, 9) == 31 + feb + 31 + 30 + 31 + 30 + 31 + 31;
    assert DaysBeforeMonth(y, 11) == 31 + feb + 31 + 30 + 31 + 30 + 31 + 31 + 30 + 31;
  }

  /** Months earlier in the same year end before a later month starts. */
  lemma {:induction false} EarlierMonthEndsFirst(y: int, m1: int, m2: int)
    requires 1 <= m1 < m2 <= 13
    ensures DaysBeforeMonth(y, m1) + DaysInMonth(y, m1) <= DaysBeforeMonth(y, m2)
    decreases m2 - m1
  {
    if m1 + 1 < m2 {
      EarlierMonthEndsFirst(y, m1, m2 - 1);
    }
  }

  /** An earlier year ends before a later year starts. */
  lemma {:induction false} EarlierYearEndsFirst(y1: int, y2: int)
    requires 1 <= y1 < y2
    ensures DaysBeforeYear(y1) + YearLength(y1) <= DaysBeforeYear(y2)
    decreases y2 - y1
  {
    if y1 + 1 < y2 {
      EarlierYearEndsFirst(y1, y2 - 1);
    }
  }

  /** The day number is strictly increasing in chronological order. */
  lemma DayNumberIncreasing(a: Date, b: Date)
    requires IsValidDate(a) && IsValidDate(b) && Before(a, b)
    ensures DayNumber(a) < DayNumber(b)
  {
    if a.year < b.year {
      MonthsFillYear(a.year);
      if a.month < 12 {
        EarlierMonthEndsFirst(a.year, a.month, 13);
      }
      EarlierYearEndsFirst(a.year, b.year);
    } else if a.month < b.month {
      EarlierMonthEndsFirst(a.year, a.month, b.month);
    }
  }

  /** Two valid dates with the same day number are the same date. */
  lemma DayNumberInjective(a: Date, b: Date)
    requires IsValidDate(a) && IsValidDate(b) && DayNumber(a) == DayNumber(b)
    ensures a == b
  {
    if Before(a, b) {
      DayNumberIncreasing(a, b);
    } else if Before(b, a) {
      DayNumberIncreasing(b, a);
    }
  }
}
