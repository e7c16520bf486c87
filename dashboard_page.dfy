/**
 * The dashboard page: each of the user's events gets a countdown in days,
 * and the list is ordered with upcoming events first, nearest first.
 * Local time is taken to be UTC.
 */
module DashboardPage {
  import opened Calendar
  import opened Store
  import opened Sorting

  /**
   * Whole days from today's midnight to the event.  A recurring event
   * counts to its anniversary this year, or next year once this year's has
   * passed; a one-off event counts to its own date and may be negative.
   */
  function DaysUntil(dateMs: int, recurring: bool, nowMs: int): (r: int)
    ensures !recurring ==> r == DayOf(dateMs) - DayOf(nowMs)
  {
    var todayMs := DayOf(nowMs) * MsPerDay;
    if recurring then
      var d := UtcParts(dateMs);
      var ty := UtcParts(nowMs).year;
      var thisYear := UtcDay(ty, d.month, d.day) * MsPerDay;
      var nextMs := if thisYear < todayMs then UtcDay(ty + 1, d.month, d.day) * MsPerDay else thisYear;
      (nextMs - todayMs) / MsPerDay
    else
      var dayMs := DayOf(dateMs) * MsPerDay;
      (dayMs - todayMs) / MsPerDay
  }

  /**
   * The countdown of a recurring event never goes negative: it counts to
   * this year's anniversary unless that has passed, and otherwise to next
   * year's.
   */
  lemma RecurringCountsToNextOccurrence(dateMs: int, nowMs: int)
    requires !(-1 <= UtcParts(nowMs).year <= 99)
    ensures var d := UtcParts(dateMs);
            var ty := UtcParts(nowMs).year;
            var today := DayOf(nowMs);
            var r := DaysUntil(dateMs, true, nowMs);
            && r >= 0
            && (UtcDay(ty, d.month, d.day) >= today ==> r == UtcDay(ty, d.month, d.day) - today)
            && (UtcDay(ty, d.month, d.day) < today ==> r == UtcDay(ty + 1, d.month, d.day) - today)
  {
    NextYearOccurrenceIsLater(dateMs, nowMs);
  }

  /** Next year's anniversary always lies after today. */
  lemma NextYearOccurrenceIsLater(dateMs: int, nowMs: int)
    requires !(-1 <= UtcParts(nowMs).year <= 99)
    ensures UtcDay(UtcParts(nowMs).year + 1, UtcParts(dateMs).month, UtcParts(dateMs).day) > DayOf(nowMs)
  {
    var d := UtcParts(dateMs);
    var t := UtcParts(nowMs);
    DaysFromCivilInYear(t);
    MakeDayInRange(t.year + 1, d.month, d.day);
  }

  /** The countdown of a recurring event is 0 exactly on its anniversary. */
  lemma RecurringZeroOnAnniversary(dateMs: int, nowMs: int)
    requires !(-1 <= UtcParts(nowMs).year <= 99)
    requires ValidCivil(Civil(UtcParts(nowMs).year, UtcParts(dateMs).month, UtcParts(dateMs).day))
    ensures DaysUntil(dateMs, true, nowMs) == 0 <==>
              UtcParts(nowMs).month == UtcParts(dateMs).month && UtcParts(nowMs).day == UtcParts(dateMs).day
  {
    var d := UtcParts(dateMs);
    var t := UtcParts(nowMs);
    var occ := Civil(t.year, d.month, d.day);
    RecurringCountsToNextOccurrence(dateMs, nowMs);
    NextYearOccurrenceIsLater(dateMs, nowMs);
    UtcDayOfValid(occ);
    if DaysFromCivil(occ.year, occ.month, occ.day) == DayOf(nowMs) {
      DaysFromCivilInjective(occ, t);
    }
  }

  /** An event together with its countdown, as the page hands it to the list. */
  datatype Row = Row(event: Event, days: int)

  /** Still to come: recurring, or dated today or later. */
  predicate IsFuture(r: Row) {
    r.event.recurring || r.days >= 0
  }

  /** The page's comparator: future before past, then by ascending countdown. */
  function Compare(a: Row, b: Row): int {
    var aFuture := IsFuture(a);
    var bFuture := IsFuture(b);
    if aFuture && !bFuture then -1
    else if !aFuture && bFuture then 1
    else a.days - b.days
  }

  /** Swapping the arguments negates the comparison. */
  lemma CompareAntisymmetric(a: Row, b: Row)
    ensures Compare(a, b) == -Compare(b, a)
  {
  }

  predicate RowLe(a: Row, b: Row) {
    Compare(a, b) <= 0
  }

  /** The comparator is consistent, so sorting by it is well defined. */
  lemma RowLeTotalPreorder()
    ensures TotalPreorder(RowLe)
  {
    forall a: Row, b: Row, c: Row | RowLe(a, b) && RowLe(b, c)
      ensures RowLe(a, c)
    {
    }
  }

  function Annotate(events: seq<Event>, nowMs: int): (r: seq<Row>)
    ensures |r| == |events|
    ensures forall i :: 0 <= i < |r| ==> r[i] == Row(events[i], DaysUntil(events[i].dateMs, events[i].recurring, nowMs))
  {
    seq(|events|, i requires 0 <= i < |events| =>
      Row(events[i], DaysUntil(events[i].dateMs, events[i].recurring, nowMs)))
  }

  /** The list the page renders: the annotated events, sorted by the comparator. */
  function DashboardRows(events: seq<Event>, nowMs: int): (r: seq<Row>)
    ensures multiset(r) == multiset(Annotate(events, nowMs))
    ensures forall i, j :: 0 <= i < j < |r| ==> (IsFuture(r[j]) ==> IsFuture(r[i]))
    ensures forall i, j :: 0 <= i < j < |r| && IsFuture(r[i]) == IsFuture(r[j]) ==> r[i].days <= r[j].days
  {
    RowLeTotalPreorder();
    SortBy(Annotate(events, nowMs), RowLe)
  }
}
