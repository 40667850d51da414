/** js/calendar.js: the `CalendarManager` holding events and the month on display. */
module Calendar {
  import opened Wrappers
  import opened Sequences
  import opened Strings
  import opened Dates
  import DateUtils
  import L = Listeners

  /** An event; `start`, `end` and `createdAt` are timestamps in milliseconds. */
  datatype Event = Event(
    id: string,
    title: string,
    start: int,
    end: int,
    category: string,
    description: string,
    createdAt: int)

  /** The fields a caller passes to `createEvent` or `updateEvent`; `None` is a field left out. */
  datatype EventData = EventData(
    title: Option<string>,
    start: Option<int>,
    end: Option<int>,
    category: Option<string>,
    description: Option<string>)

  /** One square of the month grid. */
  datatype Cell = Cell(day: int, isCurrentMonth: bool, isToday: bool, events: seq<Event>)

  /** What `getCalendarData()` returns: the month shown and its six weeks of seven days. */
  datatype CalendarData = CalendarData(month: int, year: int, weeks: seq<seq<Cell>>)

  /** No two events share an id. */
  predicate UniqueIds(events: seq<Event>)
  {
    forall i, j :: 0 <= i < j < |events| ==> events[i].id != events[j].id
  }

  /** `findIndex(event => event.id === id)`. */
  function IndexOf(events: seq<Event>, id: string): (r: Option<nat>)
    ensures r.Some? ==> r.value < |events| && events[r.value].id == id
    ensures r.Some? ==> forall j :: 0 <= j < r.value ==> events[j].id != id
    ensures r.None? <==> forall j :: 0 <= j < |events| ==> events[j].id != id
  {
    FirstIndex(events, (e: Event) => e.id == id)
  }

  /** The event `createEvent` builds: missing fields take their defaults, times default to `now`. */
  function NewEvent(data: EventData, id: string, now: int): (e: Event)
    ensures e.id == id && e.createdAt == now
    ensures e.title != "" && e.category != ""
    ensures data.title.Some? && data.title.value != "" ==> e.title == data.title.value
    ensures data.category.Some? && data.category.value != "" ==> e.category == data.category.value
    ensures e.start == (if data.start.Some? then data.start.value else now)
    ensures e.end == (if data.end.Some? then data.end.value else now)
    ensures data.description.Some? ==> e.description == data.description.value
    ensures data.title.None? || data.title == Some("") ==> e.title == "Untitled Event"
    ensures data.category.None? || data.category == Some("") ==> e.category == "Personal"
    ensures data.description.None? ==> e.description == ""
  {
    Event(
      id,
      Or(data.title, "Untitled Event"),
      data.start.GetOr(now),
      data.end.GetOr(now),
      Or(data.category, "Personal"),
      Or(data.description, ""),
      now)
  }

  /** `{...event, ...eventData}`: the passed fields replace the stored ones; no time stamp changes. */
  function Merge(e: Event, patch: EventData): (m: Event)
    ensures m.id == e.id && m.createdAt == e.createdAt
    ensures m.title == (if patch.title.Some? then patch.title.value else e.title)
    ensures m.start == (if patch.start.Some? then patch.start.value else e.start)
    ensures m.end == (if patch.end.Some? then patch.end.value else e.end)
    ensures m.category == (if patch.category.Some? then patch.category.value else e.category)
    ensures m.description == (if patch.description.Some? then patch.description.value else e.description)
  {
    e.(title := patch.title.GetOr(e.title),
       start := patch.start.GetOr(e.start),
       end := patch.end.GetOr(e.end),
       category := patch.category.GetOr(e.category),
       description := patch.description.GetOr(e.description))
  }

  /** An update with no fields leaves an event exactly as it was. */
  lemma EmptyPatchChangesNothing(e: Event)
    ensures Merge(e, EventData(None, None, None, None, None)) == e
  {
  }

  /** `events.filter(event => event.id !== id)`. */
  function WithoutId(events: seq<Event>, id: string): (r: seq<Event>)
    ensures forall e :: e in r <==> e in events && e.id != id
    ensures forall e :: multiset(r)[e] == if e.id != id then multiset(events)[e] else 0
    ensures |r| == |events| <==> IndexOf(events, id).None?
    ensures IndexOf(events, id).None? ==> r == events
    ensures Subsequence(r, events)
  {
    var p := (e: Event) => e.id != id;
    FilterKeepsAll(events, p);
    Filter(events, p)
  }

  /**
   * The events starting on day number `day`: `start` at or after that midnight and before the
   * next one (`getEventsForDate`).
   */
  function EventsOnDay(events: seq<Event>, day: int): (r: seq<Event>)
    ensures forall e :: e in r <==> e in events && DayOf(e.start) == day
    ensures Subsequence(r, events)
    ensures forall e :: multiset(r)[e] == if DayOf(e.start) == day then multiset(events)[e] else 0
  {
    var targetDate := day * DayMs;
    var nextDay := targetDate + DayMs;
    forall t ensures targetDate <= t < nextDay <==> DayOf(t) == day {
      DateUtils.DayOfBounds(t, day);
    }
    Filter(events, (e: Event) => targetDate <= e.start < nextDay)
  }

  /** The month `new Date(year, month, 1)` lands in: months past 11 or below 0 roll over. */
  function NormalMonth(month: int): (m: int)
    ensures 0 <= m < 12
    ensures 0 <= month < 12 ==> m == month
  {
    month % 12
  }

  /** The year `new Date(year, month, 1)` lands in. */
  function NormalYear(month: int, year: int): (y: int)
    ensures 12 * y + NormalMonth(month) == 12 * year + month
    ensures 0 <= month < 12 ==> y == year
  {
    year + month / 12
  }

  /** The event starts on one of the days of `month` in `year`. */
  predicate StartsInMonth(e: Event, year: int, month: int)
    requires 0 <= month < 12
  {
    MonthStart(year, month) <= DayOf(e.start) < MonthStart(year, month) + DaysInMonth(year, month)
  }

  /** A time lies in `getMonthRange` of a month exactly when its day is one of the month's days. */
  lemma MonthRangeDays(year: int, month: int)
    requires 0 <= month < 12
    ensures var range := DateUtils.GetMonthRange(Date(year, month, 1));
      forall t :: range.start <= t <= range.end <==>
        MonthStart(year, month) <= DayOf(t) < MonthStart(year, month) + DaysInMonth(year, month)
  {
    var range := DateUtils.GetMonthRange(Date(year, month, 1));
    var first := MonthStart(year, month);
    var last := first + DaysInMonth(year, month) - 1;
    assert range.start == first * DayMs && range.end == (last + 1) * DayMs - 1;
    forall t ensures range.start <= t <= range.end <==> first <= DayOf(t) <= last {
      DateUtils.DayOfBounds(t, first);
      DateUtils.DayOfBounds(t, last);
    }
  }

  /** The day number shown in slot `k` (0 to 41) of the grid: the grid opens on the Sunday before the 1st. */
  function SlotDay(year: int, month: int, k: int): int
    requires 0 <= month < 12
  {
    MonthStart(year, month) - Weekday(MonthStart(year, month)) + k
  }

  /**
   * What slot `k` of the grid for (`month`, `year`) shows: the date of its day in whichever month
   * that day falls, and, for days of the month itself, whether it is `today` and its events.
   */
  function GridCell(year: int, month: int, today: Date, events: seq<Event>, k: int): Cell
    requires 0 <= month < 12 && today.Valid()
  {
    var day := SlotDay(year, month, k);
    var first := MonthStart(year, month);
    var (prevMonth, prevYear) := PrevMonthOf(month, year);
    var (nextMonth, nextYear) := NextMonthOf(month, year);
    if day < first then
      Cell(day - MonthStart(prevYear, prevMonth) + 1, false, false, [])
    else if day < first + DaysInMonth(year, month) then
      Cell(day - first + 1, true, day == today.DayNumber(), EventsOnDay(events, day))
    else
      Cell(day - MonthStart(nextYear, nextMonth) + 1, false, false, [])
  }

  /** The `i`-th last day of the previous month fills slot `lead - 1 - i`. */
  lemma PrevMonthSlot(year: int, month: int, today: Date, events: seq<Event>, i: int)
    requires 0 <= month < 12 && today.Valid() && 0 <= i < Weekday(MonthStart(year, month))
    ensures var (pm, py) := PrevMonthOf(month, year);
      GridCell(year, month, today, events, Weekday(MonthStart(year, month)) - 1 - i)
        == Cell(DaysInMonth(py, pm) - i, false, false, [])
  {
    PrevMonthEnd(year, month);
  }

  /** Day `d` of the month fills slot `lead + d - 1`, marked today as `getCalendarData` decides it. */
  lemma MonthSlot(year: int, month: int, today: Date, events: seq<Event>, d: int)
    requires 0 <= month < 12 && today.Valid() && 1 <= d <= DaysInMonth(year, month)
    ensures GridCell(year, month, today, events, Weekday(MonthStart(year, month)) + d - 1)
      == Cell(d, true, today.month == month && today.year == year && today.day == d,
              EventsOnDay(events, Date(year, month, d).DayNumber()))
  {
    GridToday(year, month, today, events, Weekday(MonthStart(year, month)) + d - 1);
  }

  /** One round of the month loop of `getCalendarData` extends the slots by day `d`. */
  lemma MonthStep(cells: seq<Cell>, year: int, month: int, today: Date, events: seq<Event>,
                  d: int, isToday: bool, dayEvents: seq<Event>)
    requires 0 <= month < 12 && today.Valid() && 1 <= d <= DaysInMonth(year, month)
    requires |cells| == d - 1
    requires Slots(cells, Weekday(MonthStart(year, month)), year, month, today, events)
    requires isToday == (today.month == month && today.year == year && today.day == d)
    requires dayEvents == EventsOnDay(events, DayOf(Date(year, month, d).DayNumber() * DayMs))
    ensures Slots(cells + [Cell(d, true, isToday, dayEvents)], Weekday(MonthStart(year, month)), year, month, today, events)
  {
    DateUtils.DayOfBounds(0, Date(year, month, d).DayNumber());
    MonthSlot(year, month, today, events, d);
    SlotsAppend(cells, Weekday(MonthStart(year, month)), Cell(d, true, isToday, dayEvents), year, month, today, events);
  }

  /** Day `n` of the next month fills slot `lead + days + n - 1`. */
  lemma NextMonthSlot(year: int, month: int, today: Date, events: seq<Event>, n: int)
    requires 0 <= month < 12 && today.Valid() && n >= 1
    ensures GridCell(year, month, today, events, Weekday(MonthStart(year, month)) + DaysInMonth(year, month) + n - 1)
      == Cell(n, false, false, [])
  {
    NextMonthStart(year, month);
  }

  /** Column `k % 7` of the grid is weekday `k % 7`, Sunday first. */
  lemma GridColumnsAreWeekdays(year: int, month: int, k: int)
    requires 0 <= month < 12
    ensures Weekday(SlotDay(year, month, k)) == k % 7
  {
    var first := MonthStart(year, month);
    var w := Weekday(first);
    var q := (first + 4) / 7;
    DateUtils.DivUnique(first + 4, 7, q, w);
    var day := SlotDay(year, month, k);
    DateUtils.DivUnique(day + 4, 7, q + k / 7, k % 7);
  }

  /** Every day of the month has its slot in the six weeks, showing that date. */
  lemma GridShowsWholeMonth(year: int, month: int, today: Date, events: seq<Event>, d: int)
    requires 0 <= month < 12 && today.Valid() && 1 <= d <= DaysInMonth(year, month)
    ensures var k := Weekday(MonthStart(year, month)) + d - 1;
      0 <= k < 42 && GridCell(year, month, today, events, k).day == d
      && GridCell(year, month, today, events, k).isCurrentMonth
      && GridCell(year, month, today, events, k).events == EventsOnDay(events, Date(year, month, d).DayNumber())
  {
  }

  /** A slot is marked today exactly when it is today's date; so there is at most one such slot. */
  lemma {:induction false} GridToday(year: int, month: int, today: Date, events: seq<Event>, k: int)
    requires 0 <= month < 12 && today.Valid() && 0 <= k < 42
    ensures GridCell(year, month, today, events, k).isToday <==>
      today.year == year && today.month == month && k == Weekday(MonthStart(year, month)) + today.day - 1
  {
    var first := MonthStart(year, month);
    var day := SlotDay(year, month, k);
    if first <= day < first + DaysInMonth(year, month) {
      var d := Date(year, month, day - first + 1);
      assert d.Valid() && d.DayNumber() == day;
      if day == today.DayNumber() {
        SameDayNumber(d, today);
      }
    }
  }

  /** Slots outside the month are neither today nor carry events. */
  lemma GridPaddingIsEmpty(year: int, month: int, today: Date, events: seq<Event>, k: int)
    requires 0 <= month < 12 && today.Valid()
    requires !GridCell(year, month, today, events, k).isCurrentMonth
    ensures !GridCell(year, month, today, events, k).isToday && GridCell(year, month, today, events, k).events == []
  {
  }

  /** November 2023 opens on a Wednesday, so its grid starts with October 29, 30 and 31. */
  lemma November2023Grid(today: Date, events: seq<Event>)
    requires today.Valid()
    ensures GridCell(2023, 10, today, events, 0).day == 29
    ensures !GridCell(2023, 10, today, events, 2).isCurrentMonth && GridCell(2023, 10, today, events, 2).day == 31
    ensures GridCell(2023, 10, today, events, 3).isCurrentMonth && GridCell(2023, 10, today, events, 3).day == 1
  {
    November2023StartsOnWednesday();
    PrevMonthEnd(2023, 10);
  }

  /** `cells` are the grid's slots from `offset` on. */
  predicate Slots(cells: seq<Cell>, offset: int, year: int, month: int, today: Date, events: seq<Event>)
    requires 0 <= month < 12 && today.Valid()
  {
    forall k :: 0 <= k < |cells| ==> cells[k] == GridCell(year, month, today, events, offset + k)
  }

  lemma SlotsAppend(cells: seq<Cell>, offset: int, c: Cell, year: int, month: int, today: Date, events: seq<Event>)
    requires 0 <= month < 12 && today.Valid()
    requires Slots(cells, offset, year, month, today, events)
    requires c == GridCell(year, month, today, events, offset + |cells|)
    ensures Slots(cells + [c], offset, year, month, today, events)
  {
  }

  lemma SlotsConcat(a: seq<Cell>, b: seq<Cell>, c: seq<Cell>, year: int, month: int, today: Date, events: seq<Event>)
    requires 0 <= month < 12 && today.Valid()
    requires Slots(a, 0, year, month, today, events)
    requires Slots(b, |a|, year, month, today, events)
    requires Slots(c, |a| + |b|, year, month, today, events)
    ensures Slots(a + b + c, 0, year, month, today, events)
  {
    var all := a + b + c;
    forall k | 0 <= k < |all| ensures all[k] == GridCell(year, month, today, events, k) {
      if k < |a| {
        assert all[k] == a[k];
      } else if k < |a| + |b| {
        assert all[k] == b[k - |a|];
      } else {
        assert all[k] == c[k - |a| - |b|];
      }
    }
  }

  lemma SlotsInWeeks(allDays: seq<Cell>, weeks: seq<seq<Cell>>, year: int, month: int, today: Date, events: seq<Event>)
    requires 0 <= month < 12 && today.Valid()
    requires Slots(allDays, 0, year, month, today, events) && |allDays| == 42
    requires 7 * |weeks| == |allDays|
    requires forall j :: 0 <= j < |weeks| ==> |weeks[j]| == 7
    requires forall j, c :: 0 <= j < |weeks| && 0 <= c < 7 ==> weeks[j][c] == allDays[7 * j + c]
    ensures forall k :: 0 <= k < 42 ==> weeks[k / 7][k % 7] == GridCell(year, month, today, events, k)
  {
    forall k | 0 <= k < 42 ensures weeks[k / 7][k % 7] == GridCell(year, month, today, events, k) {
      assert 7 * (k / 7) + k % 7 == k;
      assert weeks[k / 7][k % 7] == allDays[k];
    }
  }

  /** The first loop of `getCalendarData`: the last days of the previous month, oldest first. */
  method LeadingDays(year: int, month: int, today: Date, events: seq<Event>) returns (cells: seq<Cell>)
    requires 0 <= month < 12 && today.Valid()
    ensures |cells| == Weekday(MonthStart(year, month))
    ensures Slots(cells, 0, year, month, today, events)
  {
    var startingDayOfWeek := Weekday(MonthStart(year, month));
    var (prevMonth, prevYear) := PrevMonthOf(month, year);
    var prevMonthLastDay := DaysInMonth(prevYear, prevMonth);
    cells := [];
    var i := startingDayOfWeek - 1;
    while i >= 0
      invariant -1 <= i < startingDayOfWeek
      invariant |cells| == startingDayOfWeek - 1 - i
      invariant Slots(cells, 0, year, month, today, events)
    {
      PrevMonthSlot(year, month, today, events, i);
      SlotsAppend(cells, 0, Cell(prevMonthLastDay - i, false, false, []), year, month, today, events);
      cells := cells + [Cell(prevMonthLastDay - i, false, false, [])];
      i := i - 1;
    }
  }

  /** The third loop of `getCalendarData`: the first days of the next month, up to 42 slots. */
  method TrailingDays(year: int, month: int, today: Date, events: seq<Event>, totalDaysShown: int)
    returns (cells: seq<Cell>)
    requires 0 <= month < 12 && today.Valid()
    requires totalDaysShown == Weekday(MonthStart(year, month)) + DaysInMonth(year, month)
    ensures |cells| == 42 - totalDaysShown
    ensures Slots(cells, totalDaysShown, year, month, today, events)
  {
    cells := [];
    var daysToAdd := 42 - totalDaysShown;
    var n := 1;
    while n <= daysToAdd
      invariant 1 <= n <= daysToAdd + 1
      invariant |cells| == n - 1
      invariant Slots(cells, totalDaysShown, year, month, today, events)
    {
      NextMonthSlot(year, month, today, events, n);
      SlotsAppend(cells, totalDaysShown, Cell(n, false, false, []), year, month, today, events);
      cells := cells + [Cell(n, false, false, [])];
      n := n + 1;
    }
  }

  /** The grouping step of `getCalendarData`: consecutive slices of seven days, one per week. */
  method GroupIntoWeeks(allDays: seq<Cell>) returns (weeks: seq<seq<Cell>>)
    requires |allDays| % 7 == 0
    ensures 7 * |weeks| == |allDays|
    ensures forall j :: 0 <= j < |weeks| ==> |weeks[j]| == 7
    ensures forall j, c :: 0 <= j < |weeks| && 0 <= c < 7 ==> weeks[j][c] == allDays[7 * j + c]
  {
    weeks := [];
    var i := 0;
    while i < |allDays|
      invariant i == 7 * |weeks| && i <= |allDays|
      invariant forall j :: 0 <= j < |weeks| ==> |weeks[j]| == 7
      invariant forall j, c :: 0 <= j < |weeks| && 0 <= c < 7 ==> weeks[j][c] == allDays[7 * j + c]
    {
      weeks := weeks + [allDays[i..i + 7]];
      i := i + 7;
    }
  }

  /**
   * The four events a first start shows.
   * The source gives these times in UTC (a trailing `Z`); they are written here as wall-clock
   * times, so they are exact only when the fixed UTC offset is 0.
   */
  function SampleEvents(): (events: seq<Event>)
    ensures |events| == 4 && UniqueIds(events)
  {
    [
      Event("event1", "Team Meeting", Timestamp(2023, 10, 14, 14, 0), Timestamp(2023, 10, 14, 15, 30), "Work",
        "Weekly team sync to discuss project progress and roadblocks.", Timestamp(2023, 10, 10, 9, 0)),
      Event("event2", "Project Deadline", Timestamp(2023, 10, 14, 18, 0), Timestamp(2023, 10, 14, 18, 0), "Work",
        "Final submission deadline for the client project.", Timestamp(2023, 10, 1, 10, 30)),
      Event("event3", "Dentist Appointment", Timestamp(2023, 10, 16, 13, 0), Timestamp(2023, 10, 16, 14, 0), "Personal",
        "Regular checkup at Dr. Smith's office.", Timestamp(2023, 10, 5, 11, 15)),
      Event("event4", "Birthday Party", Timestamp(2023, 10, 18, 18, 0), Timestamp(2023, 10, 18, 22, 0), "Personal",
        "Sarah's birthday celebration at Riverfront Restaurant.", Timestamp(2023, 10, 2, 9, 45))
    ]
  }

  class CalendarManager {
    var events: seq<Event>
    /** The month on display, 0-based, and its year. */
    var currentMonth: int
    var currentYear: int
    var listeners: L.ListenerMap

    /** The month on display is a real month. */
    predicate Valid()
      reads this
    {
      0 <= currentMonth < 12
    }

    /** `new CalendarManager()` on `today`: no events yet, showing today's month. */
    constructor(today: Date)
      requires today.Valid()
      ensures Valid()
      ensures events == [] && currentMonth == today.month && currentYear == today.year && listeners == map[]
    {
      events := [];
      currentMonth := today.month;
      currentYear := today.year;
      listeners := map[];
    }

    /** `loadEvents()`: the stored events, or the samples when storage holds none. */
    method LoadEvents(stored: seq<Event>)
      modifies this
      ensures events == if stored == [] then SampleEvents() else stored
      ensures currentMonth == old(currentMonth) && currentYear == old(currentYear) && listeners == old(listeners)
    {
      events := stored;
      if |events| == 0 {
        events := SampleEvents();
      }
    }

    /** `getAllEvents()`: a copy of the list. */
    function GetAllEvents(): (r: seq<Event>)
      reads this
      ensures r == events
    {
      events
    }

    /** `getEventById(id)`: the first event with that id, or none. */
    function GetEventById(id: string): (r: Option<Event>)
      reads this
      ensures r.Some? ==> r.value in events && r.value.id == id
      ensures r.None? <==> forall e :: e in events ==> e.id != id
      ensures r.Some? ==> exists i :: (0 <= i < |events| && events[i] == r.value
        && forall j :: 0 <= j < i ==> events[j].id != id)
    {
      match IndexOf(events, id)
      case None => None
      case Some(i) => Some(events[i])
    }

    /** `createEvent(eventData)` with the generated id and the current time passed in; the event goes last. */
    method CreateEvent(data: EventData, id: string, now: int) returns (event: Event)
      modifies this
      ensures event == NewEvent(data, id, now)
      ensures events == old(events) + [event]
      ensures old(GetEventById(id)).None? ==> GetEventById(id) == Some(event)
      ensures old(UniqueIds(events)) && old(GetEventById(id)).None? ==> UniqueIds(events)
      ensures currentMonth == old(currentMonth) && currentYear == old(currentYear) && listeners == old(listeners)
    {
      event := NewEvent(data, id, now);
      events := events + [event];
      assert events[|events| - 1] == event;
    }

    /** `updateEvent(id, eventData)`; with no such event nothing changes and the result is none. */
    method UpdateEvent(id: string, patch: EventData) returns (r: Option<Event>)
      modifies this
      ensures old(IndexOf(events, id)).None? ==> r.None? && events == old(events)
      ensures old(IndexOf(events, id)).Some? ==>
        var i := old(IndexOf(events, id)).value;
        r == Some(Merge(old(events)[i], patch)) && events == old(events)[i := r.value]
      ensures r.Some? ==> GetEventById(id) == r
      ensures old(UniqueIds(events)) ==> UniqueIds(events)
      ensures currentMonth == old(currentMonth) && currentYear == old(currentYear) && listeners == old(listeners)
    {
      var index := IndexOf(events, id);
      if index.None? {
        return None;
      }
      var updated := Merge(events[index.value], patch);
      var before := events;
      events := events[index.value := updated];
      FirstIndexSameAnswers(before, events, (e: Event) => e.id == id, (e: Event) => e.id == id);
      r := Some(updated);
    }

    /** `deleteEvent(id)`: drops every event with that id; true exactly when there was one. */
    method DeleteEvent(id: string) returns (deleted: bool)
      modifies this
      ensures events == WithoutId(old(events), id)
      ensures deleted <==> old(GetEventById(id)).Some?
      ensures GetEventById(id).None?
      ensures currentMonth == old(currentMonth) && currentYear == old(currentYear) && listeners == old(listeners)
    {
      var initialLength := |events|;
      events := WithoutId(events, id);
      deleted := |events| != initialLength;
    }

    /** `getEventsForDate(date)`: the events starting on the same day as the timestamp `date`. */
    function GetEventsForDate(date: int): (r: seq<Event>)
      reads this
      ensures forall e :: e in r <==> e in events && DayOf(e.start) == DayOf(date)
      ensures Subsequence(r, events)
      ensures forall e :: multiset(r)[e] == if DayOf(e.start) == DayOf(date) then multiset(events)[e] else 0
    {
      EventsOnDay(events, DayOf(date))
    }

    /** `getTodayEvents()` with the current time `now` passed in. */
    function GetTodayEvents(now: int): (r: seq<Event>)
      reads this
      ensures forall e :: e in r <==> e in events && DayOf(e.start) == DayOf(now)
      ensures Subsequence(r, events)
      ensures forall e :: multiset(r)[e] == if DayOf(e.start) == DayOf(now) then multiset(events)[e] else 0
    {
      GetEventsForDate(now)
    }

    /**
     * `getEventsForMonth(month, year)`: events starting between the 1st at 00:00 and the last day
     * at 23:59:59.999; a month outside 0 to 11 rolls into a neighbouring year as `new Date` does.
     */
    function GetEventsForMonth(month: int, year: int): (r: seq<Event>)
      reads this
      ensures forall e :: e in r <==> e in events && StartsInMonth(e, NormalYear(month, year), NormalMonth(month))
      ensures Subsequence(r, events)
      ensures forall e :: multiset(r)[e] ==
                          if StartsInMonth(e, NormalYear(month, year), NormalMonth(month)) then multiset(events)[e] else 0
    {
      var m := NormalMonth(month);
      var y := NormalYear(month, year);
      var range := DateUtils.GetMonthRange(Date(y, m, 1));
      MonthRangeDays(y, m);
      Filter(events, (e: Event) => range.start <= e.start <= range.end)
    }

    /** `getCurrentMonthEvents()`: the events of the month on display. */
    function GetCurrentMonthEvents(): (r: seq<Event>)
      reads this
      requires Valid()
      ensures forall e :: e in r <==> e in events && StartsInMonth(e, currentYear, currentMonth)
      ensures Subsequence(r, events)
      ensures forall e :: multiset(r)[e] == if StartsInMonth(e, currentYear, currentMonth) then multiset(events)[e] else 0
    {
      GetEventsForMonth(currentMonth, currentYear)
    }

    /** `getEventsByCategory(category)`: everything for `''` or `'All'`, otherwise that category's events. */
    function GetEventsByCategory(category: string): (r: seq<Event>)
      reads this
      ensures category == "" || category == "All" ==> r == events
      ensures category != "" && category != "All" ==> forall e :: e in r <==> e in events && e.category == category
      ensures category != "" && category != "All" ==> Subsequence(r, events)
      ensures category != "" && category != "All" ==>
                forall e :: multiset(r)[e] == if e.category == category then multiset(events)[e] else 0
    {
      if category == "" || category == "All" then events
      else Filter(events, (e: Event) => e.category == category)
    }

    /** `previousMonth()`: one month back, from January to December of the year before. */
    method PreviousMonth()
      requires Valid()
      modifies this
      ensures Valid()
      ensures (currentMonth, currentYear) == PrevMonthOf(old(currentMonth), old(currentYear))
      ensures 12 * currentYear + currentMonth == old(12 * currentYear + currentMonth) - 1
      ensures events == old(events) && listeners == old(listeners)
    {
      currentMonth := currentMonth - 1;
      if currentMonth < 0 {
        currentMonth := 11;
        currentYear := currentYear - 1;
      }
    }

    /** `nextMonth()`: one month on, from December to January of the year after. */
    method NextMonth()
      requires Valid()
      modifies this
      ensures Valid()
      ensures (currentMonth, currentYear) == NextMonthOf(old(currentMonth), old(currentYear))
      ensures 12 * currentYear + currentMonth == old(12 * currentYear + currentMonth) + 1
      ensures events == old(events) && listeners == old(listeners)
    {
      currentMonth := currentMonth + 1;
      if currentMonth > 11 {
        currentMonth := 0;
        currentYear := currentYear + 1;
      }
    }

    /** `setCurrentMonth(month, year)`. */
    method SetCurrentMonth(month: int, year: int)
      requires 0 <= month < 12
      modifies this
      ensures Valid()
      ensures currentMonth == month && currentYear == year
      ensures events == old(events) && listeners == old(listeners)
    {
      currentMonth := month;
      currentYear := year;
    }

    /** The second loop of `getCalendarData`: every day of the month, with its events. */
    method MonthDays(year: int, month: int, today: Date) returns (cells: seq<Cell>)
      requires 0 <= month < 12 && today.Valid()
      ensures |cells| == DaysInMonth(year, month)
      ensures Slots(cells, Weekday(MonthStart(year, month)), year, month, today, events)
    {
      var lead := Weekday(MonthStart(year, month));
      var daysInMonth := DaysInMonth(year, month);
      cells := [];
      var isCurrentMonthAndYear := today.month == month && today.year == year;
      var d := 1;
      while d <= daysInMonth
        invariant 1 <= d <= daysInMonth + 1
        invariant |cells| == d - 1
        invariant Slots(cells, lead, year, month, today, events)
      {
        var date := Date(year, month, d);
        var isToday := isCurrentMonthAndYear && today.day == d;
        var dayEvents := GetEventsForDate(date.DayNumber() * DayMs);
        MonthStep(cells, year, month, today, events, d, isToday, dayEvents);
        cells := cells + [Cell(d, true, isToday, dayEvents)];
        d := d + 1;
      }
    }

    /**
     * `getCalendarData()` on `today`: the trailing days of the previous month, the days of this
     * one with today marked and their events, and the leading days of the next, six weeks of
     * seven; slot `k` is exactly `GridCell(.., k)`.
     */
    method GetCalendarData(today: Date) returns (data: CalendarData)
      requires Valid() && today.Valid()
      ensures data.month == currentMonth && data.year == currentYear
      ensures |data.weeks| == 6 && forall w :: 0 <= w < 6 ==> |data.weeks[w]| == 7
      ensures forall k :: 0 <= k < 42 ==> data.weeks[k / 7][k % 7] == GridCell(currentYear, currentMonth, today, events, k)
    {
      var year, month := currentYear, currentMonth;
      var prevMonthDays := LeadingDays(year, month, today, events);
      var currentMonthDays := MonthDays(year, month, today);
      var totalDaysShown := |prevMonthDays| + |currentMonthDays|;
      var nextMonthDays := TrailingDays(year, month, today, events, totalDaysShown);

      var allDays := prevMonthDays + currentMonthDays + nextMonthDays;
      SlotsConcat(prevMonthDays, currentMonthDays, nextMonthDays, year, month, today, events);
      var weeks := GroupIntoWeeks(allDays);
      SlotsInWeeks(allDays, weeks, year, month, today, events);
      data := CalendarData(month, year, weeks);
    }

    /** `on(event, callback)`. */
    method On(event: string, callback: L.HandlerId)
      modifies this
      ensures listeners == L.On(old(listeners), event, callback)
      ensures events == old(events) && currentMonth == old(currentMonth) && currentYear == old(currentYear)
    {
      listeners := L.On(listeners, event, callback);
    }

    /** `off(event, callback)`. */
    method Off(event: string, callback: L.HandlerId)
      modifies this
      ensures listeners == L.Off(old(listeners), event, callback)
      ensures events == old(events) && currentMonth == old(currentMonth) && currentYear == old(currentYear)
    {
      listeners := L.Off(listeners, event, callback);
    }

    /** `trigger(event, data)`: the callbacks it calls with the data, in order. */
    function Trigger(event: string): (hs: seq<L.HandlerId>)
      reads this
      ensures event !in listeners ==> hs == []
      ensures event in listeners ==> hs == listeners[event]
    {
      L.Recipients(listeners, event)
    }
  }

  /** Going forward a month and back again returns to the same month. */
  lemma {:induction false} PreviousUndoesNext(month: int, year: int)
    requires 0 <= month < 12
    ensures var (m, y) := NextMonthOf(month, year); PrevMonthOf(m, y) == (month, year)
  {
  }
}
