/**
 * Gregorian calendar arithmetic standing in for JavaScript's `Date` in local time.
 * Timestamps are milliseconds of local wall-clock time since 1970-01-01 00:00, so a fixed
 * UTC offset is folded in; day numbers count days since that date. Months are 0-based
 * (0 = January) as `getMonth()` returns them, weekdays 0-based from Sunday as `getDay()`.
 */
module Dates {

  const DayMs: int := 86_400_000

  predicate IsLeapYear(year: int)
  {
    year % 4 == 0 && (year % 100 != 0 || year % 400 == 0)
  }

  /** The number of days in `month` of `year`: the date of `new Date(year, month + 1, 0)`. */
  function DaysInMonth(year: int, month: int): (n: int)
    requires 0 <= month < 12
    ensures 28 <= n <= 31
    ensures n == 28 <==> month == 1 && !IsLeapYear(year)
    ensures n == 29 <==> month == 1 && IsLeapYear(year)
  {
    if month == 1 then (if IsLeapYear(year) then 29 else 28)
    else if month == 3 || month == 5 || month == 8 || month == 10 then 30
    else 31
  }

  /** A running count of leap years: it grows by one exactly after each leap year. */
  function LeapCount(year: int): int
  {
    (year - 1) / 4 - (year - 1) / 100 + (year - 1) / 400
  }

  lemma QuarterStep(year: int)
    ensures year / 4 - (year - 1) / 4 == (if year % 4 == 0 then 1 else 0)
  {
  }

  lemma CenturyStep(year: int)
    ensures year / 100 - (year - 1) / 100 == (if year % 100 == 0 then 1 else 0)
  {
  }

  lemma QuadricentennialStep(year: int)
    ensures year / 400 - (year - 1) / 400 == (if year % 400 == 0 then 1 else 0)
  {
  }

  lemma LeapCountStep(year: int)
    ensures LeapCount(year + 1) == LeapCount(year) + (if IsLeapYear(year) then 1 else 0)
  {
    QuarterStep(year);
    CenturyStep(year);
    QuadricentennialStep(year);
  }

  /** Day number of January 1st of `year`. */
  function YearStart(year: int): int
  {
    365 * (year - 1970) + LeapCount(year) - LeapCount(1970)
  }

  /** Days in the months of `year` before `month`. */
  function DaysBeforeMonth(year: int, month: int): (n: int)
    requires 0 <= month <= 12
    ensures 0 <= n <= 366
    ensures month < 12 ==> n + DaysInMonth(year, month) <= 366
  {
    var cumulative := [0, 31, 59, 90, 120, 151, 181, 212, 243, 273, 304, 334, 365];
    cumulative[month] + (if month >= 2 && IsLeapYear(year) then 1 else 0)
  }

  /** Day number of the 1st of `month` in `year`: `new Date(year, month, 1)`. */
  function MonthStart(year: int, month: int): int
    requires 0 <= month < 12
  {
    YearStart(year) + DaysBeforeMonth(year, month)
  }

  /** The month after (`month`, `year`), rolling into January of the next year. */
  function NextMonthOf(month: int, year: int): (r: (int, int))
    requires 0 <= month < 12
    ensures 0 <= r.0 < 12 && 12 * r.1 + r.0 == 12 * year + month + 1
  {
    if month == 11 then (0, year + 1) else (month + 1, year)
  }

  /** The month before (`month`, `year`), rolling into December of the previous year. */
  function PrevMonthOf(month: int, year: int): (r: (int, int))
    requires 0 <= month < 12
    ensures 0 <= r.0 < 12 && 12 * r.1 + r.0 == 12 * year + month - 1
  {
    if month == 0 then (11, year - 1) else (month - 1, year)
  }

  /** Months are contiguous: the next month starts right after the last day of this one. */
  lemma {:induction false} NextMonthStart(year: int, month: int)
    requires 0 <= month < 12
    ensures var (m, y) := NextMonthOf(month, year); MonthStart(y, m) == MonthStart(year, month) + DaysInMonth(year, month)
  {
    if month < 11 {
      assert DaysBeforeMonth(year, month) + DaysInMonth(year, month) == DaysBeforeMonth(year, month + 1);
    } else {
      LeapCountStep(year);
      assert DaysBeforeMonth(year, 12) == if IsLeapYear(year) then 366 else 365;
    }
  }

  /** So the previous month ends on the day before the 1st. */
  lemma PrevMonthEnd(year: int, month: int)
    requires 0 <= month < 12
    ensures var (m, y) := PrevMonthOf(month, year); MonthStart(y, m) + DaysInMonth(y, m) == MonthStart(year, month)
  {
    var (m, y) := PrevMonthOf(month, year);
    NextMonthStart(y, m);
  }

  /** An earlier month ends no later than a later month begins. */
  lemma {:induction false} MonthsInOrder(y1: int, m1: int, y2: int, m2: int)
    requires 0 <= m1 < 12 && 0 <= m2 < 12 && 12 * y1 + m1 < 12 * y2 + m2
    ensures MonthStart(y1, m1) + DaysInMonth(y1, m1) <= MonthStart(y2, m2)
    decreases 12 * y2 + m2 - (12 * y1 + m1)
  {
    var (m, y) := NextMonthOf(m1, y1);
    NextMonthStart(y1, m1);
    if 12 * y + m < 12 * y2 + m2 {
      MonthsInOrder(y, m, y2, m2);
    } else {
      assert y == y2 && m == m2;
    }
  }

  /** `getDay()` of a day number: 1970-01-01 was a Thursday (4). */
  function Weekday(dayNumber: int): (w: int)
    ensures 0 <= w < 7
  {
    (dayNumber + 4) % 7
  }

  /** A calendar date as a JavaScript `Date` reports it: `getFullYear()`, `getMonth()`, `getDate()`. */
  datatype Date = Date(year: int, month: int, day: int)
  {
    /** Every JavaScript `Date` is normalised, so its fields always name a real day. */
    predicate Valid()
    {
      0 <= month < 12 && 1 <= day <= DaysInMonth(year, month)
    }

    function DayNumber(): int
      requires Valid()
    {
      MonthStart(year, month) + day - 1
    }
  }

  /** Different dates fall on different days. */
  lemma SameDayNumber(a: Date, b: Date)
    requires a.Valid() && b.Valid() && a.DayNumber() == b.DayNumber()
    ensures a == b
  {
    if 12 * a.year + a.month < 12 * b.year + b.month {
      MonthsInOrder(a.year, a.month, b.year, b.month);
    } else if 12 * b.year + b.month < 12 * a.year + a.month {
      MonthsInOrder(b.year, b.month, a.year, a.month);
    }
  }

  /** The day number of a timestamp; its local midnight is `DayOf(t) * DayMs` (`setHours(0, 0, 0, 0)`). */
  function DayOf(t: int): int
  {
    t / DayMs
  }

  /** `new Date(year, month, day, hours, minutes)` as a timestamp. */
  function Timestamp(year: int, month: int, day: int, hours: int, minutes: int): (t: int)
    requires Date(year, month, day).Valid() && 0 <= hours < 24 && 0 <= minutes < 60
    ensures DayOf(t) == Date(year, month, day).DayNumber()
  {
    Date(year, month, day).DayNumber() * DayMs + (hours * 60 + minutes) * 60_000
  }

  /** November 1st, 2023 was a Wednesday. */
  lemma November2023StartsOnWednesday()
    ensures Weekday(MonthStart(2023, 10)) == 3
  {
  }

  /** 2024 is a leap year, 1900 is not, 2000 is. */
  lemma LeapYearExamples()
    ensures DaysInMonth(2024, 1) == 29 && DaysInMonth(1900, 1) == 28 && DaysInMonth(2000, 1) == 29
  {
  }
}
