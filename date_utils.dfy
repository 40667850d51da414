/** `DateUtils` of js/utils.js: relative times and the week and month around a date. */
module DateUtils {
  import opened Wrappers
  import opened Strings
  import opened Dates

  const SecondMs: int := 1000
  const MinuteMs: int := 60_000
  const HourMs: int := 3_600_000

  /** The wording `getRelativeTime` picks; `ShortDate` stands for the locale-formatted date. */
  datatype RelativeTime =
    | ShortDate(at: int)
    | Yesterday
    | DaysAgo(days: int)
    | HoursAgo(hours: int)
    | MinutesAgo(minutes: int)
    | JustNow

  lemma DivUnique(x: int, d: int, q: int, r: int)
    requires d > 0 && x == d * q + r && 0 <= r < d
    ensures x / d == q && x % d == r
  {
    var k := x / d - q;
    assert d * k == r - x % d;
    if k >= 1 {
      MulAtLeast(d, k);
    } else if k <= -1 {
      MulAtLeast(d, -k);
    }
  }

  lemma MulAtLeast(d: int, k: int)
    requires d > 0 && k >= 1
    ensures d * k >= d
  {
  }

  /** A timestamp lies at or after the midnight of `day`, or before the next one, as its own day does. */
  lemma DayOfBounds(t: int, day: int)
    ensures day * DayMs <= t <==> day <= DayOf(t)
    ensures t < (day + 1) * DayMs <==> DayOf(t) <= day
    ensures DayOf(day * DayMs) == day
  {
    DivUnique(day * DayMs, DayMs, day, 0);
  }

  /** Flooring to seconds, then minutes, hours and days is flooring once to each unit. */
  lemma FloorCascade(x: int)
    ensures x / SecondMs / 60 == x / MinuteMs
    ensures x / MinuteMs / 60 == x / HourMs
    ensures x / HourMs / 24 == x / DayMs
  {
    var s := x / SecondMs;
    DivUnique(x, MinuteMs, s / 60, SecondMs * (s % 60) + x % SecondMs);
    var m := x / MinuteMs;
    DivUnique(x, HourMs, m / 60, MinuteMs * (m % 60) + x % MinuteMs);
    var h := x / HourMs;
    DivUnique(x, DayMs, h / 24, HourMs * (h % 24) + x % HourMs);
  }

  /**
   * `getRelativeTime(date)` with the current time `now` passed in: the bucket the elapsed
   * time `now - date` falls into, each cut at a whole minute, hour or day.
   */
  function GetRelativeTime(date: int, now: int): (r: RelativeTime)
    ensures var elapsed := now - date;
      && (r.ShortDate? <==> elapsed >= 31 * DayMs)
      && (r.ShortDate? ==> r.at == date)
      && (r == Yesterday <==> DayMs <= elapsed < 2 * DayMs)
      && (r.DaysAgo? <==> 2 * DayMs <= elapsed < 31 * DayMs)
      && (r.DaysAgo? ==> r.days * DayMs <= elapsed < (r.days + 1) * DayMs)
      && (r.HoursAgo? <==> HourMs <= elapsed < DayMs)
      && (r.HoursAgo? ==> r.hours * HourMs <= elapsed < (r.hours + 1) * HourMs)
      && (r.MinutesAgo? <==> MinuteMs <= elapsed < HourMs)
      && (r.MinutesAgo? ==> r.minutes * MinuteMs <= elapsed < (r.minutes + 1) * MinuteMs)
      && (r == JustNow <==> elapsed < MinuteMs)
  {
    var seconds := (now - date) / SecondMs;
    var minutes := seconds / 60;
    var hours := minutes / 60;
    var days := hours / 24;
    FloorCascade(now - date);
    if days > 30 then ShortDate(date)
    else if days > 0 then (if days == 1 then Yesterday else DaysAgo(days))
    else if hours > 0 then HoursAgo(hours)
    else if minutes > 0 then MinutesAgo(minutes)
    else JustNow
  }

  /** The text shown for a bucket, singular for exactly one; none for a date, whose format is the locale's. */
  function Phrase(r: RelativeTime): (p: Option<string>)
    requires r.DaysAgo? ==> r.days >= 0
    requires r.HoursAgo? ==> r.hours >= 0
    requires r.MinutesAgo? ==> r.minutes >= 0
    ensures p.None? <==> r.ShortDate?
    ensures r == Yesterday ==> p == Some("yesterday")
    ensures r.DaysAgo? ==> p == Some(NatToString(r.days) + " days ago")
    ensures r.HoursAgo? && r.hours == 1 ==> p == Some("1 hour ago")
    ensures r.HoursAgo? && r.hours != 1 ==> p == Some(NatToString(r.hours) + " hours ago")
    ensures r.MinutesAgo? && r.minutes == 1 ==> p == Some("1 minute ago")
    ensures r.MinutesAgo? && r.minutes != 1 ==> p == Some(NatToString(r.minutes) + " minutes ago")
    ensures r == JustNow ==> p == Some("just now")
  {
    match r
    case ShortDate(_) => None
    case Yesterday => Some("yesterday")
    case DaysAgo(n) => Some(NatToString(n) + " days ago")
    case HoursAgo(n) => Some(if n == 1 then "1 hour ago" else NatToString(n) + " hours ago")
    case MinutesAgo(n) => Some(if n == 1 then "1 minute ago" else NatToString(n) + " minutes ago")
    case JustNow => Some("just now")
  }

  /** A relative time for a moment in the past can always be put into words or a date. */
  lemma RelativeTimeHasPhrase(date: int, now: int)
    requires date <= now
    ensures var r := GetRelativeTime(date, now);
      (r.DaysAgo? ==> r.days >= 0) && (r.HoursAgo? ==> r.hours >= 0) && (r.MinutesAgo? ==> r.minutes >= 0)
  {
  }

  /** Three hours and a half after a moment, it is shown as "3 hours ago". */
  lemma ThreeHoursAgoExample(now: int)
    ensures Phrase(GetRelativeTime(now - 3 * HourMs - 30 * MinuteMs, now)) == Some("3 hours ago")
  {
    var r := GetRelativeTime(now - 3 * HourMs - 30 * MinuteMs, now);
    assert r.HoursAgo?;
    assert r.hours == 3;
    assert NatToString(3) == "3";
    assert Phrase(r) == Some(NatToString(3) + " hours ago");
    assert "3" + " hours ago" == "3 hours ago";
  }

  lemma WeekStartIsMonday(n: int, start: int)
    requires start == n - (if Weekday(n) == 0 then 6 else Weekday(n) - 1)
    ensures Weekday(start) == 1
  {
    var day := Weekday(n);
    var k := (n + 4) / 7;
    DivUnique(n + 4, 7, k, day);
    if day == 0 {
      DivUnique(start + 4, 7, k - 1, 1);
    } else {
      DivUnique(start + 4, 7, k, 1);
    }
  }

  /** A span of time in milliseconds, both ends included. */
  datatype Range = Range(start: int, end: int)

  /**
   * `getWeekRange(date)`: from Monday 00:00:00.000 to Sunday 23:59:59.999 of the week
   * holding `date` (a Sunday belongs to the week that began six days before).
   */
  function GetWeekRange(date: Date): (r: Range)
    requires date.Valid()
    ensures r.start % DayMs == 0 && Weekday(r.start / DayMs) == 1
    ensures r.start / DayMs <= date.DayNumber() < r.start / DayMs + 7
    ensures r.end == r.start + 7 * DayMs - 1
  {
    var day := Weekday(date.DayNumber());
    var diff := date.day - day + (if day == 0 then -6 else 1);
    var startDay := MonthStart(date.year, date.month) + diff - 1;
    assert startDay == date.DayNumber() - (if day == 0 then 6 else day - 1);
    WeekStartIsMonday(date.DayNumber(), startDay);
    DivUnique(startDay * DayMs, DayMs, startDay, 0);
    Range(startDay * DayMs, (startDay + 6) * DayMs + DayMs - 1)
  }

  /**
   * `getMonthRange(date)`: from the 1st at 00:00:00.000 to 23:59:59.999 on day 0 of the next
   * month, which is the last day of this one.
   */
  function GetMonthRange(date: Date): (r: Range)
    requires date.Valid()
    ensures r.start == Date(date.year, date.month, 1).DayNumber() * DayMs
    ensures r.end == (Date(date.year, date.month, DaysInMonth(date.year, date.month)).DayNumber() + 1) * DayMs - 1
    ensures r.start <= date.DayNumber() * DayMs && (date.DayNumber() + 1) * DayMs - 1 <= r.end
  {
    var (nextMonth, nextYear) := NextMonthOf(date.month, date.year);
    var lastDay := MonthStart(nextYear, nextMonth) - 1;
    NextMonthStart(date.year, date.month);
    Range(MonthStart(date.year, date.month) * DayMs, lastDay * DayMs + DayMs - 1)
  }
}
