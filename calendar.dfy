/**
  Proleptic Gregorian calendar on day numbers.

  A date is its ordinal day number, with day 1 = 0001-01-01 (a Monday), the
  numbering Python's `date.toordinal()` uses.  From it the model derives the
  calendar year and month, the weekday (Monday = 0, as pandas' `dt.dayofweek`)
  and the ISO 8601 week number (as pandas' `dt.isocalendar().week`).
*/
module Calendar {

  /** An ordinal day number. */
  type Day = d: int | d >= 1 witness 1

  predicate IsLeap(y: int) {
    y % 4 == 0 && (y % 100 != 0 || y % 400 == 0)
  }

  function DaysInYear(y: int): int {
    if IsLeap(y) then 366 else 365
  }

  /** Number of days in the years 1 .. y-1. */
  function DaysBefore(y: int): nat
    requires y >= 1
  {
    if y == 1 then 0 else DaysBefore(y - 1) + DaysInYear(y - 1)
  }

  /** DaysBefore agrees with the closed form Python's `datetime` module uses
      (365 days a year plus the leap days of the Gregorian rule). */
  lemma {:induction false} DaysBeforeClosedForm(y: int)
    requires y >= 1
    ensures DaysBefore(y) == 365 * (y - 1) + (y - 1) / 4 - (y - 1) / 100 + (y - 1) / 400
  {
    if y > 1 {
      var x := y - 1;
      DaysBeforeClosedForm(x);
      LeapCountStep(x);
      LeapDays(x);
      assert DaysBefore(y) == DaysBefore(x) + DaysInYear(x);
    }
  }

  /** Going from x - 1 to x, each quotient of the leap-day count grows by
      one exactly at a multiple of its divisor. */
  lemma LeapCountStep(x: int)
    requires x >= 1
    ensures x / 4 - (x - 1) / 4 == if x % 4 == 0 then 1 else 0
    ensures x / 100 - (x - 1) / 100 == if x % 100 == 0 then 1 else 0
    ensures x / 400 - (x - 1) / 400 == if x % 400 == 0 then 1 else 0
  {
  }

  /** A year's length as 365 plus the leap-day corrections of the closed form. */
  lemma LeapDays(x: int)
    ensures DaysInYear(x) == 365 + (if x % 4 == 0 then 1 else 0) - (if x % 100 == 0 then 1 else 0) + (if x % 400 == 0 then 1 else 0)
  {
    if x % 400 == 0 {
      assert x == 100 * (4 * (x / 400));
      assert x == 4 * (100 * (x / 400));
    } else if x % 100 == 0 {
      assert x == 4 * (25 * (x / 100));
    }
  }

  /** Day number of January 1st of year y. */
  function Jan1(y: int): Day
    requires y >= 1
  {
    DaysBefore(y) + 1
  }

  /** The k-th day counted from January 1st of year y, as (year, day of year). */
  function YearFrom(y: int, k: int): (r: (int, int))
    requires y >= 1 && k >= 1
    ensures r.0 >= y
    ensures 1 <= r.1 <= DaysInYear(r.0)
    ensures DaysBefore(r.0) + r.1 == DaysBefore(y) + k
    decreases k
  {
    if k <= DaysInYear(y) then (y, k) else YearFrom(y + 1, k - DaysInYear(y))
  }

  /** Calendar year of a day (pandas `dt.year`): the year whose January 1st
      is the last one not after the day. */
  function YearOf(d: Day): (y: int)
    ensures y >= 1 && Jan1(y) <= d < Jan1(y + 1)
  {
    var r := YearFrom(1, d);
    assert DaysBefore(r.0 + 1) == DaysBefore(r.0) + DaysInYear(r.0);
    r.0
  }

  function DayOfYear(d: Day): int {
    YearFrom(1, d).1
  }

  /** The year of a day is the one whose January 1st is the last not after it. */
  lemma YearOfBounds(d: Day)
    ensures YearOf(d) >= 1
    ensures Jan1(YearOf(d)) <= d < Jan1(YearOf(d) + 1)
    ensures d == Jan1(YearOf(d)) + DayOfYear(d) - 1
  {
    var r := YearFrom(1, d);
    assert DaysBefore(r.0 + 1) == DaysBefore(r.0) + DaysInYear(r.0);
  }

  lemma {:induction false} DaysBeforeMonotone(x: int, y: int)
    requires 1 <= x <= y
    ensures DaysBefore(x) + 365 * (y - x) <= DaysBefore(y)
    decreases y - x
  {
    if x < y {
      DaysBeforeMonotone(x, y - 1);
    }
  }

  /** YearOf is the unique year y with Jan1(y) <= d < Jan1(y + 1). */
  lemma YearOfUnique(d: Day, y: int)
    requires y >= 1 && Jan1(y) <= d < Jan1(y + 1)
    ensures YearOf(d) == y
  {
    YearOfBounds(d);
    var z := YearOf(d);
    if z < y {
      DaysBeforeMonotone(z + 1, y);
    } else if z > y {
      DaysBeforeMonotone(y + 1, z);
    }
  }

  /** Days in the months before month m (1 <= m <= 13) of year y. */
  function DaysBeforeMonth(y: int, m: int): int
    requires 1 <= m <= 13
  {
    var table := [0, 31, 59, 90, 120, 151, 181, 212, 243, 273, 304, 334, 365];
    table[m - 1] + (if m > 2 && IsLeap(y) then 1 else 0)
  }

  /** The month holding day `doy` of year y, searching from month m. */
  function MonthFrom(y: int, doy: int, m: int): (r: int)
    requires 1 <= m <= 12
    requires DaysBeforeMonth(y, m) < doy <= DaysInYear(y)
    ensures m <= r <= 12
    ensures DaysBeforeMonth(y, r) < doy <= DaysBeforeMonth(y, r + 1)
    decreases 12 - m
  {
    if doy <= DaysBeforeMonth(y, m + 1) then m else MonthFrom(y, doy, m + 1)
  }

  /** Calendar month 1 .. 12 of a day (pandas `dt.month`): the month whose
      days of the year hold the day's day of the year. */
  function MonthOf(d: Day): (r: int)
    ensures 1 <= r <= 12
    ensures DaysBeforeMonth(YearOf(d), r) < DayOfYear(d) <= DaysBeforeMonth(YearOf(d), r + 1)
  {
    var p := YearFrom(1, d);
    MonthFrom(p.0, p.1, 1)
  }

  /** Day of the week, Monday = 0 .. Sunday = 6 (pandas `dt.dayofweek`); day 1 is a Monday. */
  function Weekday(d: int): (r: int)
    ensures 0 <= r < 7
  {
    (d + 6) % 7
  }

  /** The Monday that starts ISO week 1 of year y: the week holding the year's first Thursday. */
  function Week1Monday(y: int): int
    requires y >= 1
  {
    var first: int := Jan1(y);
    var wd := Weekday(first);
    if wd > 3 then first - wd + 7 else first - wd
  }

  /** ISO 8601 week number of a day (pandas `dt.isocalendar().week`): always
      a week 1 .. 53. */
  function IsoWeek(d: Day): (w: int)
    ensures 1 <= w <= 53
  {
    IsoWeekRange(d);
    IsoWeekNumber(d)
  }

  /** The ISO week number, computed as CPython's `date.isocalendar()` does. */
  function IsoWeekNumber(d: Day): int
  {
    var y := YearOf(d);
    YearOfBounds(d);
    var w1 := Week1Monday(y);
    if d < w1 then
      (d - Week1Monday(y - 1)) / 7 + 1
    else if (d - w1) / 7 >= 52 && d >= Week1Monday(y + 1) then
      1
    else
      (d - w1) / 7 + 1
  }

  /** Week 1 of year y starts on a Monday at most three days away from January 1st,
      and holds the first Thursday of the year. */
  lemma Week1MondayFacts(y: int)
    requires y >= 1
    ensures Weekday(Week1Monday(y)) == 0
    ensures Jan1(y) - 3 <= Week1Monday(y) <= Jan1(y) + 3
    ensures Jan1(y) <= Week1Monday(y) + 3 < Jan1(y) + 7 && Weekday(Week1Monday(y) + 3) == 3
  {
    var first: int := Jan1(y);
    var wd := Weekday(first);
    assert (first + 6) % 7 == wd;
    assert (first - wd + 6) % 7 == 0;
  }

  /** Two Mondays lie a whole number of weeks apart. */
  lemma MondaysApart(a: int, b: int)
    requires Weekday(a) == 0 && Weekday(b) == 0 && b <= a
    ensures (a - b) % 7 == 0
  {
  }

  /** Every ISO week number is between 1 and 53. */
  lemma IsoWeekRange(d: Day)
    ensures 1 <= IsoWeekNumber(d) <= 53
  {
    var y := YearOf(d);
    YearOfBounds(d);
    Week1MondayFacts(y);
    var w1 := Week1Monday(y);
    assert Jan1(y + 1) == Jan1(y) + DaysInYear(y);
    if d < w1 {
      assert y >= 2;
      Week1MondayFacts(y - 1);
      var w0 := Week1Monday(y - 1);
      assert Jan1(y) == Jan1(y - 1) + DaysInYear(y - 1);
      MondaysApart(w1, w0);
      var q := (w1 - w0) / 7;
      assert w1 - w0 == 7 * q;
      assert q <= 53;
      assert 0 <= d - w0 < 7 * 53;
    }
  }
}
