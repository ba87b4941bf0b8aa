/**
 * The `WeekYear` column: a year, "-W" and a two-digit ISO 8601 week number
 * (ISO 8601:2004, section 3.2.2, "calendar week"). The week number is the
 * one pandas' `isocalendar()` gives; it is computed here from the day
 * number so that the year written next to it can be compared with the
 * ISO week-numbering year it belongs to.
 */
module Weeks {
  import opened Text
  import opened Dates

  /** `str(year) + '-W' + str(week).zfill(2)`. */
  function WeekYearLabel(year: nat, week: nat): string
  {
    Decimal(year) + "-W" + ZeroFill(Decimal(week), 2)
  }

  lemma ZeroFilledValue(w: nat)
    ensures AllDigits(ZeroFill(Decimal(w), 2))
    ensures DigitsValue(ZeroFill(Decimal(w), 2)) == w
  {
    var s := Decimal(w);
    DecimalRoundTrip(w);
    if |s| < 2 {
      PaddedValue(2 - |s|, s);
    }
  }

  /** The label can be read back: distinct (year, week) pairs get distinct labels. */
  lemma {:induction false} WeekYearLabelInjective(y1: nat, w1: nat, y2: nat, w2: nat)
    requires WeekYearLabel(y1, w1) == WeekYearLabel(y2, w2)
    ensures y1 == y2 && w1 == w2
  {
    LabelParts(Decimal(y1), ZeroFill(Decimal(w1), 2), Decimal(y2), ZeroFill(Decimal(w2), 2));
    DecimalRoundTrip(y1);
    DecimalRoundTrip(y2);
    ZeroFilledValue(w1);
    ZeroFilledValue(w2);
  }

  /** A run of digits followed by "-W" splits there in one way only. */
  lemma LabelParts(a: string, z1: string, b: string, z2: string)
    requires AllDigits(a) && AllDigits(b)
    requires a + "-W" + z1 == b + "-W" + z2
    ensures a == b && z1 == z2
  {
    var text := a + "-W" + z1;
    assert |a| == |b| by {
      assert text[|a|] == '-' && text[|b|] == '-';
    }
    assert a == text[..|a|] == b;
    assert z1 == text[|a| + 2..] == z2;
  }

  /** Day `n` (counted from 0001-01-01) falls in year `y`. */
  predicate InYear(n: int, y: int)
  {
    DaysBeforeYear(y) < n <= DaysBeforeYear(y) + YearLength(y)
  }

  /** A day falls in one year only. */
  lemma YearOfDayUnique(n: int, y1: int, y2: int)
    requires y1 >= 1 && y2 >= 1 && InYear(n, y1) && InYear(n, y2)
    ensures y1 == y2
  {
    if y1 < y2 {
      EarlierYearEndsFirst(y1, y2);
    } else if y2 < y1 {
      EarlierYearEndsFirst(y2, y1);
    }
  }

  lemma DayNumberInItsYear(d: Date)
    requires IsValidDate(d)
    ensures InYear(DayNumber(d), d.year)
  {
    MonthsFillYear(d.year);
    if d.month < 12 {
      EarlierMonthEndsFirst(d.year, d.month, 13);
    }
  }

  /** Day of the week, 0 for Monday: 0001-01-01 of the proleptic Gregorian calendar was a Monday. */
  function Weekday(d: Date): (w: int)
    requires IsValidDate(d)
    ensures 0 <= w < 7
  {
    (DayNumber(d) - 1) % 7
  }

  /** The Thursday of the Monday-to-Sunday week holding `d`; it names the ISO week. */
  function ThursdayOf(d: Date): (t: int)
    requires IsValidDate(d)
    ensures DayNumber(d) - 3 <= t <= DayNumber(d) + 3
    ensures t >= 4 && (t - 4) % 7 == 0
  {
    DayNumber(d) - Weekday(d) + 3
  }

  /** The ISO week-numbering year: the year that holds the week's Thursday. */
  function IsoYear(d: Date): (y: int)
    requires IsValidDate(d)
    ensures y >= 1 && InYear(ThursdayOf(d), y)
    ensures d.year - 1 <= y <= d.year + 1
  {
    var t := ThursdayOf(d);
    DayNumberInItsYear(d);
    if t <= DaysBeforeYear(d.year) then
      assert d.year >= 2;
      assert DaysBeforeYear(d.year) == DaysBeforeYear(d.year - 1) + YearLength(d.year - 1);
      d.year - 1
    else if t > DaysBeforeYear(d.year) + YearLength(d.year) then
      assert DaysBeforeYear(d.year + 1) == DaysBeforeYear(d.year) + YearLength(d.year);
      d.year + 1
    else
      d.year
  }

  /** The ISO week number, as `isocalendar().week`. */
  function IsoWeek(d: Date): (w: int)
    requires IsValidDate(d)
    ensures 1 <= w <= 53
  {
    (ThursdayOf(d) - DaysBeforeYear(IsoYear(d)) - 1) / 7 + 1
  }

  /** The `WeekYear` column as written: the calendar year beside the ISO week. */
  function WrittenWeekYear(d: Date): string
    requires IsValidDate(d)
  {
    WeekYearLabel(d.year, IsoWeek(d))
  }

  /** The label the column evidently means: the ISO week-numbering year beside the ISO week. */
  function IsoWeekYear(d: Date): string
    requires IsValidDate(d)
  {
    WeekYearLabel(IsoYear(d), IsoWeek(d))
  }

  /** Two days get the same ISO label exactly when they are in the same Monday-to-Sunday week. */
  lemma IsoWeekYearIdentifiesWeek(a: Date, b: Date)
    requires IsValidDate(a) && IsValidDate(b)
    ensures IsoWeekYear(a) == IsoWeekYear(b) <==> ThursdayOf(a) == ThursdayOf(b)
  {
    if ThursdayOf(a) == ThursdayOf(b) {
      SameThursdaySameIsoWeek(a, b);
    }
    if IsoWeekYear(a) == IsoWeekYear(b) {
      WeekYearLabelInjective(IsoYear(a), IsoWeek(a), IsoYear(b), IsoWeek(b));
      SameIsoWeekSameThursday(a, b);
    }
  }

  lemma SameThursdaySameIsoWeek(a: Date, b: Date)
    requires IsValidDate(a) && IsValidDate(b) && ThursdayOf(a) == ThursdayOf(b)
    ensures IsoYear(a) == IsoYear(b) && IsoWeek(a) == IsoWeek(b)
  {
    YearOfDayUnique(ThursdayOf(a), IsoYear(a), IsoYear(b));
  }

  lemma SameIsoWeekSameThursday(a: Date, b: Date)
    requires IsValidDate(a) && IsValidDate(b) && IsoYear(a) == IsoYear(b) && IsoWeek(a) == IsoWeek(b)
    ensures ThursdayOf(a) == ThursdayOf(b)
  {
    IsoWeekThursday(a);
    IsoWeekThursday(b);
  }

  /** The Thursday of week `w` counted from day `base`: the `w`-th Thursday after it. */
  function BlockThursday(base: int, w: int): (t: int)
    ensures (t - 4) % 7 == 0 && (t - base - 1) / 7 == w - 1
  {
    var r := (3 - base) % 7;
    assert (base - 3 + r) % 7 == 0;
    base + 1 + 7 * (w - 1) + r
  }

  /** The ISO year and week pin down the week's Thursday. */
  lemma IsoWeekThursday(d: Date)
    requires IsValidDate(d)
    ensures ThursdayOf(d) == BlockThursday(DaysBeforeYear(IsoYear(d)), IsoWeek(d))
  {
    var base := DaysBeforeYear(IsoYear(d));
    SameWeekBlock(ThursdayOf(d), BlockThursday(base, IsoWeek(d)), base, IsoWeek(d) - 1);
  }

  /** Two Thursdays in the same seven-day block counted from `base` are the same day. */
  lemma SameWeekBlock(ta: int, tb: int, base: int, k: int)
    requires (ta - 4) % 7 == 0 && (tb - 4) % 7 == 0
    requires (ta - base - 1) / 7 == k && (tb - base - 1) / 7 == k
    ensures ta == tb
  {
    assert -7 < ta - tb < 7;
  }

  /** The written label differs from the ISO one only on the first three and last three days of a year. */
  lemma WrittenDiffersOnlyAtYearEnds(d: Date)
    requires IsValidDate(d) && WrittenWeekYear(d) != IsoWeekYear(d)
    ensures (d.month == 1 && d.day <= 3) || (d.month == 12 && d.day >= 29)
  {
    MonthsFillYear(d.year);
    if d.month < 12 {
      EarlierMonthEndsFirst(d.year, d.month, 12);
    }
    if d.month > 1 {
      EarlierMonthEndsFirst(d.year, 1, d.month);
    }
    assert DaysBeforeMonth(d.year, 12) + 31 == DaysBeforeMonth(d.year, 13);
  }

  /** Days before `y`, in closed form: 365 a year plus the leap days of the Gregorian rule. */
  lemma {:induction false} DaysBeforeYearClosed(y: int)
    requires y >= 1
    ensures DaysBeforeYear(y) == 365 * (y - 1) + (y - 1) / 4 - (y - 1) / 100 + (y - 1) / 400
  {
    if y > 1 {
      DaysBeforeYearClosed(y - 1);
      var p := y - 1;
      LeapDayCounts(p);
    }
  }

  /** Going from `p - 1` to `p`, each count of the Gregorian rule grows by one exactly at its multiples. */
  lemma LeapDayCounts(p: int)
    ensures p / 4 - (p - 1) / 4 == (if p % 4 == 0 then 1 else 0)
    ensures p / 100 - (p - 1) / 100 == (if p % 100 == 0 then 1 else 0)
    ensures p / 400 - (p - 1) / 400 == (if p % 400 == 0 then 1 else 0)
    ensures p % 400 == 0 ==> p % 100 == 0
    ensures p % 100 == 0 ==> p % 4 == 0
  {
    StepBy4(p);
    StepBy100(p);
    StepBy400(p);
    MultiplesNest(p);
  }

  lemma StepBy4(p: int)
    ensures p / 4 - (p - 1) / 4 == (if p % 4 == 0 then 1 else 0)
  {
    var q := (p - 1) / 4;
    if (p - 1) % 4 == 3 {
      assert p == 4 * (q + 1);
    } else {
      assert p == 4 * q + ((p - 1) % 4 + 1);
    }
  }

  lemma StepBy100(p: int)
    ensures p / 100 - (p - 1) / 100 == (if p % 100 == 0 then 1 else 0)
  {
    var q := (p - 1) / 100;
    if (p - 1) % 100 == 99 {
      assert p == 100 * (q + 1);
    } else {
      assert p == 100 * q + ((p - 1) % 100 + 1);
    }
  }

  lemma StepBy400(p: int)
    ensures p / 400 - (p - 1) / 400 == (if p % 400 == 0 then 1 else 0)
  {
    var q := (p - 1) / 400;
    if (p - 1) % 400 == 399 {
      assert p == 400 * (q + 1);
    } else {
      assert p == 400 * q + ((p - 1) % 400 + 1);
    }
  }

  lemma MultiplesNest(p: int)
    ensures p % 400 == 0 ==> p % 100 == 0
    ensures p % 100 == 0 ==> p % 4 == 0
  {
    if p % 400 == 0 {
      CenturyOfFourCenturies(p);
    }
    if p % 100 == 0 {
      LeapOfCentury(p);
    }
  }

  lemma CenturyOfFourCenturies(p: int)
    requires p % 400 == 0
    ensures p % 100 == 0
  {
    var k := p / 400;
    assert p == 400 * k;
    assert p / 100 == 4 * k;
  }

  lemma LeapOfCentury(p: int)
    requires p % 100 == 0
    ensures p % 4 == 0
  {
    var k := p / 100;
    assert p == 100 * k;
    assert p / 4 == 25 * k;
  }

  /**
   * As written, in a leap year that starts on a Monday, January 1 and
   * December 30 get the same label, "<year>-W01", though they are 52 weeks
   * apart: December 30 is in week 1 of the next ISO year, and the ISO
   * labels tell the two apart. 2024 is such a year (`LeapYearOnMonday`).
   */
  lemma YearEndCollision(y: int)
    requires y >= 1 && IsLeapYear(y) && DaysBeforeYear(y) % 7 == 0
    ensures IsValidDate(Date(y, 1, 1)) && IsValidDate(Date(y, 12, 30))
    ensures ThursdayOf(Date(y, 1, 1)) + 364 == ThursdayOf(Date(y, 12, 30))
    ensures WrittenWeekYear(Date(y, 1, 1)) == WrittenWeekYear(Date(y, 12, 30)) == WeekYearLabel(y, 1)
    ensures IsoWeekYear(Date(y, 1, 1)) == WeekYearLabel(y, 1)
    ensures IsoWeekYear(Date(y, 12, 30)) == WeekYearLabel(y + 1, 1)
  {
    YearEndIsoWeeks(y);
  }

  lemma YearEndIsoWeeks(y: int)
    requires y >= 1 && IsLeapYear(y) && DaysBeforeYear(y) % 7 == 0
    ensures IsValidDate(Date(y, 1, 1)) && IsValidDate(Date(y, 12, 30))
    ensures ThursdayOf(Date(y, 1, 1)) + 364 == ThursdayOf(Date(y, 12, 30))
    ensures IsoYear(Date(y, 1, 1)) == y && IsoWeek(Date(y, 1, 1)) == 1
    ensures IsoYear(Date(y, 12, 30)) == y + 1 && IsoWeek(Date(y, 12, 30)) == 1
  {
    NewYearsDay(y);
    LastMonday(y);
  }

  lemma NewYearsDay(y: int)
    requires y >= 1 && DaysBeforeYear(y) % 7 == 0
    ensures IsValidDate(Date(y, 1, 1))
    ensures ThursdayOf(Date(y, 1, 1)) == DaysBeforeYear(y) + 4
    ensures IsoYear(Date(y, 1, 1)) == y && IsoWeek(Date(y, 1, 1)) == 1
  {
    var a := Date(y, 1, 1);
    assert DayNumber(a) - 1 == DaysBeforeYear(y);
    assert Weekday(a) == 0;
  }

  lemma LastMonday(y: int)
    requires y >= 1 && IsLeapYear(y) && DaysBeforeYear(y) % 7 == 0
    ensures IsValidDate(Date(y, 12, 30))
    ensures ThursdayOf(Date(y, 12, 30)) == DaysBeforeYear(y) + 368
    ensures IsoYear(Date(y, 12, 30)) == y + 1 && IsoWeek(Date(y, 12, 30)) == 1
  {
    var b := Date(y, 12, 30);
    DecemberThirtiethMonday(y);
    assert DaysBeforeYear(y + 1) == DaysBeforeYear(y) + 366;
    assert InYear(ThursdayOf(b), y + 1);
    IsoYearHoldsThursday(b, y + 1);
    assert IsoWeek(b) == (ThursdayOf(b) - DaysBeforeYear(y + 1) - 1) / 7 + 1;
  }

  /** The ISO year is the one year that holds the week's Thursday. */
  lemma IsoYearHoldsThursday(d: Date, y: int)
    requires IsValidDate(d) && y >= 1 && InYear(ThursdayOf(d), y)
    ensures IsoYear(d) == y
  {
    YearOfDayUnique(ThursdayOf(d), IsoYear(d), y);
  }

  /** December 30 of a leap year that starts on a Monday is a Monday too. */
  lemma DecemberThirtiethMonday(y: int)
    requires y >= 1 && IsLeapYear(y) && DaysBeforeYear(y) % 7 == 0
    ensures IsValidDate(Date(y, 12, 30))
    ensures ThursdayOf(Date(y, 12, 30)) == DaysBeforeYear(y) + 368
  {
    var start := DaysBeforeYear(y);
    DecemberThirtieth(y);
    assert (start + 364) % 7 == 0 by {
      assert start + 364 == 7 * (start / 7 + 52);
    }
    assert Weekday(Date(y, 12, 30)) == 0;
  }

  /** December 30 of a leap year is its 365th day. */
  lemma DecemberThirtieth(y: int)
    requires y >= 1 && IsLeapYear(y)
    ensures IsValidDate(Date(y, 12, 30))
    ensures DayNumber(Date(y, 12, 30)) == DaysBeforeYear(y) + 365
  {
    MonthsFillYear(y);
    assert DaysBeforeMonth(y, 13) == DaysBeforeMonth(y, 12) + 31;
  }

  /** 2024 is a leap year whose January 1 is a Monday. */
  lemma LeapYearOnMonday(y: int)
    requires y == 2024
    ensures IsLeapYear(y) && DaysBeforeYear(y) % 7 == 0
  {
    DaysBeforeYearClosed(y);
    assert (y - 1) / 4 == 505 && (y - 1) / 100 == 20 && (y - 1) / 400 == 5;
    assert DaysBeforeYear(y) == 7 * 105555;
  }
}
