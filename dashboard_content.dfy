/**
 * The dashboard's client component: the list filter, the app-badge count,
 * and the month calendar (its grid of cells, the events of each day, and
 * the month navigation).  Local time is taken to be UTC.
 */
module DashboardContent {
  import opened Wrappers
  import opened Seqs
  import opened Calendar
  import opened Store
  import opened DashboardPage

  // ---------------------------------------------------------------------
  // Matching events to days

  /**
   * The day of month on which an event shows in the calendar of
   * `(year, month)`: a recurring event in any year with its month, a
   * one-off event only in its own year and month.
   */
  function GetEventDayInMonth(dateMs: int, recurring: bool, year: int, month: int): (r: Option<int>)
    ensures r.Some? <==> UtcParts(dateMs).month == month && (recurring || UtcParts(dateMs).year == year)
    ensures r.Some? ==> r.value == UtcParts(dateMs).day
  {
    var d := UtcParts(dateMs);
    if recurring then
      if d.month == month then Some(d.day) else None
    else if d.year == year && d.month == month then Some(d.day)
    else None
  }

  /** A one-off event shows on exactly one cell of exactly one month: the cell of its own date. */
  lemma OneOffShownOnItsDate(dateMs: int, year: int, month: int, day: int)
    requires ValidCivil(Civil(year, month, day))
    ensures GetEventDayInMonth(dateMs, false, year, month) == Some(day)
        <==> DaysFromCivil(year, month, day) == DayOf(dateMs)
  {
    var d := UtcParts(dateMs);
    if DaysFromCivil(year, month, day) == DayOf(dateMs) {
      DaysFromCivilInjective(Civil(year, month, day), d);
    }
  }

  /** A recurring event shows on the cell of its anniversary in every year. */
  lemma RecurringShownOnAnniversary(dateMs: int, year: int, month: int)
    requires UtcParts(dateMs).month == month
    ensures GetEventDayInMonth(dateMs, true, year, month) == Some(UtcParts(dateMs).day)
  {
  }

  // ---------------------------------------------------------------------
  // The grid

  /** Weekday (0 = Sunday) of the first of the month: `new Date(year, month, 1).getDay()`. */
  function FirstWeekDay(year: int, month: int): (w: int)
    ensures 0 <= w < 7
  {
    WeekDay(UtcDay(year, month, 1))
  }

  /** Length of the month, read as day 0 of the next: `new Date(year, month + 1, 0).getDate()`. */
  function MonthLength(year: int, month: int): (n: int)
    ensures 1 <= n <= 31
  {
    UtcParts(UtcDay(year, month + 1, 0) * MsPerDay).day
  }

  /** The trick of reading day 0 of the next month does give the month's length. */
  lemma MonthLengthIsDaysInMonth(year: int, month: int)
    requires 0 <= month < 12 && !(0 <= year <= 99)
    ensures MonthLength(year, month) == DaysInMonth(year, month)
  {
    LastDayOfMonth(year, month);
    DayOfMidnight(UtcDay(year, month + 1, 0));
  }

  /** The cells of the month grid: blanks, the days 1..n, blanks up to a whole week. */
  predicate IsGrid(cells: seq<Option<int>>, firstDay: int, n: int)
    requires 0 <= firstDay && 0 <= n
  {
    && |cells| >= firstDay + n
    && |cells| - (firstDay + n) < 7
    && |cells| % 7 == 0
    && (forall i :: 0 <= i < firstDay ==> cells[i] == None)
    && (forall i :: firstDay <= i < firstDay + n ==> cells[i] == Some(i - firstDay + 1))
    && (forall i :: firstDay + n <= i < |cells| ==> cells[i] == None)
  }

  /** The blanks before the first and the days of the month, before the padding. */
  function Leading(firstDay: nat, n: nat): (cells: seq<Option<int>>)
    ensures |cells| == firstDay + n
    ensures forall i :: 0 <= i < firstDay ==> cells[i] == None
    ensures forall i :: firstDay <= i < firstDay + n ==> cells[i] == Some(i - firstDay + 1)
  {
    seq(firstDay, _ => None) + seq(n, i => Some(i + 1))
  }

  /** Blanks appended to the leading cells keep them a grid prefix. */
  lemma PaddedIsGrid(cells: seq<Option<int>>, firstDay: nat, n: nat)
    requires firstDay < 7 && n <= 31
    requires |cells| % 7 == 0 && firstDay + n <= |cells| < firstDay + n + 7
    requires cells[..firstDay + n] == Leading(firstDay, n)
    requires forall i :: firstDay + n <= i < |cells| ==> cells[i] == None
    ensures IsGrid(cells, firstDay, n)
    ensures |cells| <= 42
  {
    var lead := Leading(firstDay, n);
    forall i | 0 <= i < firstDay + n
      ensures cells[i] == lead[i]
    {
      assert cells[..firstDay + n][i] == cells[i];
    }
  }

  /** The next multiple of 7 at or after `b`. */
  lemma NextWeekBoundary(b: nat) returns (t: nat)
    ensures t % 7 == 0 && b <= t < b + 7
  {
    var q, r := b / 7, b % 7;
    assert b == 7 * q + r;
    t := if r == 0 then b else 7 * q + 7;
  }

  /** `buildCalendarDays`: the leading blanks and the days, then blanks pushed one by one. */
  method BuildCalendarDays(year: int, month: int) returns (cells: seq<Option<int>>)
    ensures IsGrid(cells, FirstWeekDay(year, month), MonthLength(year, month))
    ensures |cells| <= 42
  {
    var firstDay := FirstWeekDay(year, month);
    var n := MonthLength(year, month);
    cells := Leading(firstDay, n);
    ghost var target := NextWeekBoundary(firstDay + n);
    while |cells| % 7 != 0
      invariant firstDay + n <= |cells| <= target
      invariant cells[..firstDay + n] == Leading(firstDay, n)
      invariant forall i :: firstDay + n <= i < |cells| ==> cells[i] == None
      decreases target - |cells|
    {
      cells := cells + [None];
    }
    PaddedIsGrid(cells, firstDay, n);
  }

  // ---------------------------------------------------------------------
  // Events by day

  /** The day of the shown month on which a row's event falls, if any. */
  function DayKey(year: int, month: int): Row -> Option<int> {
    (r: Row) => GetEventDayInMonth(r.event.dateMs, r.event.recurring, year, month)
  }

  /** The rows whose key is `Some(d)`. */
  function KeyIs(key: Row -> Option<int>, d: int): Row -> bool {
    (r: Row) => key(r) == Some(d)
  }

  /** The events that show on day `day` of `(year, month)`. */
  function OnDay(year: int, month: int, day: int): Row -> bool {
    KeyIs(DayKey(year, month), day)
  }

  /** One row filed under its key, the key's bucket created first when missing. */
  function AddRow(buckets: map<int, seq<Row>>, e: Row, key: Row -> Option<int>): map<int, seq<Row>> {
    match key(e)
    case Some(day) => buckets[day := (if day in buckets then buckets[day] else []) + [e]]
    case None => buckets
  }

  /** The bucket of one key is exact for `events` (absent when no row has the key). */
  ghost predicate BucketAt(buckets: map<int, seq<Row>>, events: seq<Row>, key: Row -> Option<int>, d: int) {
    && (d in buckets <==> Filter(events, KeyIs(key, d)) != [])
    && (d in buckets ==> buckets[d] == Filter(events, KeyIs(key, d)))
  }

  /** The buckets hold, for each key, the rows of `events` with that key, in order. */
  ghost predicate BucketsOf(buckets: map<int, seq<Row>>, events: seq<Row>, key: Row -> Option<int>) {
    forall d :: BucketAt(buckets, events, key, d)
  }

  /** Filing one more row keeps the bucket of key `d` exact. */
  lemma BucketAtSnoc(buckets: map<int, seq<Row>>, events: seq<Row>, e: Row, key: Row -> Option<int>, d: int)
    requires BucketAt(buckets, events, key, d)
    ensures BucketAt(AddRow(buckets, e, key), events + [e], key, d)
  {
    var next := AddRow(buckets, e, key);
    FilterAppend(events, [e], KeyIs(key, d));
    assert Filter([e], KeyIs(key, d)) == if key(e) == Some(d) then [e] else [];
    if key(e) == Some(d) {
      assert next[d] == (if d in buckets then buckets[d] else []) + [e];
    } else {
      assert (d in next <==> d in buckets) && (d in next ==> next[d] == buckets[d]);
    }
  }

  /** Filing the next row keeps the buckets exact for the longer prefix. */
  lemma BucketsSnoc(buckets: map<int, seq<Row>>, events: seq<Row>, i: nat, key: Row -> Option<int>)
    requires i < |events| && BucketsOf(buckets, events[..i], key)
    ensures BucketsOf(AddRow(buckets, events[i], key), events[..i + 1], key)
  {
    assert events[..i + 1] == events[..i] + [events[i]];
    forall d {
      BucketAtSnoc(buckets, events[..i], events[i], key, d);
    }
  }

  /** Exact buckets under the day key, read in terms of the days of the month. */
  lemma BucketsAreDays(buckets: map<int, seq<Row>>, events: seq<Row>, year: int, month: int)
    requires BucketsOf(buckets, events, DayKey(year, month))
    ensures forall d :: d in buckets <==> Filter(events, OnDay(year, month, d)) != []
    ensures forall d :: d in buckets ==> buckets[d] == Filter(events, OnDay(year, month, d))
  {
    forall d
      ensures d in buckets <==> Filter(events, OnDay(year, month, d)) != []
      ensures d in buckets ==> buckets[d] == Filter(events, OnDay(year, month, d))
    {
      assert BucketAt(buckets, events, DayKey(year, month), d);
    }
  }

  /**
   * `eventsByDay`: a day has a bucket exactly when some event shows on it,
   * and the bucket holds those events in input order.
   */
  method EventsByDay(events: seq<Row>, year: int, month: int) returns (buckets: map<int, seq<Row>>)
    ensures forall d :: d in buckets <==> Filter(events, OnDay(year, month, d)) != []
    ensures forall d :: d in buckets ==> buckets[d] == Filter(events, OnDay(year, month, d))
  {
    ghost var key := DayKey(year, month);
    buckets := map[];
    for i := 0 to |events|
      invariant BucketsOf(buckets, events[..i], key)
    {
      var e := events[i];
      ghost var filed := AddRow(buckets, e, key);
      BucketsSnoc(buckets, events, i, key);
      var day := GetEventDayInMonth(e.event.dateMs, e.event.recurring, year, month);
      assert day == key(e);
      if day.Some? {
        if day.value !in buckets {
          buckets := buckets[day.value := []];
        }
        buckets := buckets[day.value := buckets[day.value] + [e]];
      }
      assert buckets == filed;
    }
    assert events[..|events|] == events;
    BucketsAreDays(buckets, events, year, month);
  }

  /** The events listed under the selected day (none when no day is selected). */
  function DayEvents(buckets: map<int, seq<Row>>, selectedDay: Option<int>): seq<Row> {
    match selectedDay
    case Some(d) => if d in buckets then buckets[d] else []
    case None => []
  }

  /** Under a selected day the list shows exactly that day's events, in input order. */
  lemma DayEventsAreTheDaysEvents(events: seq<Row>, year: int, month: int, buckets: map<int, seq<Row>>, day: int)
    requires BucketsOf(buckets, events, DayKey(year, month))
    ensures DayEvents(buckets, Some(day)) == Filter(events, OnDay(year, month, day))
  {
    assert BucketAt(buckets, events, DayKey(year, month), day);
  }

  // ---------------------------------------------------------------------
  // The list filter and the badge

  /** The filter chips: all events, or one type. */
  datatype TypeFilter = All | Only(eventType: EventType)

  function HasType(t: EventType): Row -> bool {
    (r: Row) => r.event.eventType == t
  }

  function FilterByType(events: seq<Row>, filter: TypeFilter): (r: seq<Row>)
    ensures filter == All ==> r == events
    ensures filter.Only? ==> forall e :: e in r <==> e in events && e.event.eventType == filter.eventType
  {
    match filter
    case All => events
    case Only(t) => Filter(events, HasType(t))
  }

  /** Within the next 30 days, today included. */
  function Upcoming(r: Row): bool {
    0 <= r.days <= 30
  }

  /** What the component asks of the app badge. */
  datatype BadgeUpdate = SetBadge(count: nat) | ClearBadge

  /** The badge shows the number of upcoming events, and is cleared when there is none. */
  function Badge(events: seq<Row>): (b: BadgeUpdate)
    ensures b == ClearBadge <==> forall e :: e in events ==> !Upcoming(e)
    ensures b.SetBadge? ==> 1 <= b.count <= |events| && b.count == |Filter(events, Upcoming)|
  {
    var count := Count(events, Upcoming);
    if count > 0 then SetBadge(count) else ClearBadge
  }

  // ---------------------------------------------------------------------
  // Month navigation

  /** Months counted from year 0; navigation moves this number by one. */
  function MonthIndex(year: int, month: int): int {
    12 * year + month
  }

  /** The month before `(year, month)`, wrapping from January to December of the previous year. */
  function MonthBefore(year: int, month: int): (r: (int, int))
    requires 0 <= month < 12
    ensures 0 <= r.1 < 12
    ensures MonthIndex(r.0, r.1) == MonthIndex(year, month) - 1
  {
    if month == 0 then (year - 1, 11) else (year, month - 1)
  }

  /** The month after `(year, month)`, wrapping from December to January of the next year. */
  function MonthAfter(year: int, month: int): (r: (int, int))
    requires 0 <= month < 12
    ensures 0 <= r.1 < 12
    ensures MonthIndex(r.0, r.1) == MonthIndex(year, month) + 1
  {
    if month == 11 then (year + 1, 0) else (year, month + 1)
  }

  /** Forward then back, or back then forward, returns to the same month. */
  lemma NavigationInverse(year: int, month: int)
    requires 0 <= month < 12
    ensures var (y, m) := MonthAfter(year, month); MonthBefore(y, m) == (year, month)
    ensures var (y, m) := MonthBefore(year, month); MonthAfter(y, m) == (year, month)
  {
  }

  /** The calendar's view state. */
  class CalendarView {
    var calYear: int
    var calMonth: int
    var selectedDay: Option<int>

    ghost predicate Valid()
      reads this
    {
      0 <= calMonth < 12
    }

    /** Opens on today's month with today selected. */
    constructor (nowMs: int)
      ensures Valid()
      ensures calYear == UtcParts(nowMs).year && calMonth == UtcParts(nowMs).month
      ensures selectedDay == Some(UtcParts(nowMs).day)
    {
      var today := UtcParts(nowMs);
      calYear := today.year;
      calMonth := today.month;
      selectedDay := Some(today.day);
    }

    method PrevMonth()
      requires Valid()
      modifies this
      ensures Valid()
      ensures (calYear, calMonth) == MonthBefore(old(calYear), old(calMonth))
      ensures selectedDay == None
    {
      selectedDay := None;
      if calMonth == 0 {
        calYear := calYear - 1;
        calMonth := 11;
      } else {
        calMonth := calMonth - 1;
      }
    }

    method NextMonth()
      requires Valid()
      modifies this
      ensures Valid()
      ensures (calYear, calMonth) == MonthAfter(old(calYear), old(calMonth))
      ensures selectedDay == None
    {
      selectedDay := None;
      if calMonth == 11 {
        calYear := calYear + 1;
        calMonth := 0;
      } else {
        calMonth := calMonth + 1;
      }
    }

    /** Tapping a day selects it, and tapping the selected day again clears the selection. */
    method TapDay(day: int)
      modifies this
      ensures calYear == old(calYear) && calMonth == old(calMonth)
      ensures selectedDay == if old(selectedDay) == Some(day) then None else Some(day)
    {
      selectedDay := if selectedDay == Some(day) then None else Some(day);
    }
  }
}
