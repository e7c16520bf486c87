/**
 * The daily notification job (`GET /api/cron/daily`): for every user with at
 * least one push subscription, work out today's date in the user's time
 * zone, pick the events whose alert day is today, and send each of them to
 * every subscription of the user, pruning subscriptions the push service
 * reports gone.
 */
module DailyCron {
  import opened Wrappers
  import opened Seqs
  import opened Calendar
  import opened Text
  import opened Store
  import opened Delivery

  // ---------------------------------------------------------------------
  // Dates

  /** The year, month (1-based, as printed) and day `Intl.DateTimeFormat` reports for an instant in a zone. */
  datatype ZoneParts = ZoneParts(year: int, month: int, day: int)

  /**
   * The time-zone database, seen from outside: the calendar date of an
   * instant in a named zone, or `None` when the zone name is rejected
   * (the formatter throws).
   */
  type ZoneLookup = (string, int) -> Option<ZoneParts>

  /**
   * Midnight UTC of the calendar date it is now in zone `tz`; when the zone
   * is rejected, midnight UTC of the current UTC date.
   */
  function GetTodayInTimezone(tz: string, nowMs: int, lookup: ZoneLookup): (r: int)
    ensures r % MsPerDay == 0
    ensures lookup(tz, nowMs).None? && !(0 <= UtcParts(nowMs).year <= 99) ==> DayOf(r) == DayOf(nowMs)
    ensures lookup(tz, nowMs).Some? ==>
              var p := lookup(tz, nowMs).value;
              ValidCivil(Civil(p.year, p.month - 1, p.day)) && !(0 <= p.year <= 99) ==>
                UtcParts(r) == Civil(p.year, p.month - 1, p.day)
  {
    match lookup(tz, nowMs)
    case Some(p) =>
      var c := Civil(p.year, p.month - 1, p.day);
      assert ValidCivil(c) && !(0 <= p.year <= 99) ==> CivilFromDays(UtcDay(c.year, c.month, c.day)) == c by {
        if ValidCivil(c) && !(0 <= p.year <= 99) {
          UtcDayOfValid(c);
        }
      }
      Midnight(UtcDay(p.year, p.month - 1, p.day))
    case None =>
      var c := UtcParts(nowMs);
      assert !(0 <= c.year <= 99) ==> UtcDay(c.year, c.month, c.day) == DayOf(nowMs) by {
        if !(0 <= c.year <= 99) {
          UtcDayOfValid(c);
        }
      }
      Midnight(UtcDay(c.year, c.month, c.day))
  }

  /**
   * `setUTCDate(getUTCDate() - days)` on a copy of the instant: moves the
   * instant back by whole days, keeping its time of day.
   */
  function SubtractDays(dateMs: int, days: int): (r: int)
    ensures r == dateMs - days * MsPerDay
  {
    var c := UtcParts(dateMs);
    MakeDayInRange(c.year, c.month, c.day - days);
    assert MakeDay(c.year, c.month, c.day - days) == DayOf(dateMs) - days;
    MakeDay(c.year, c.month, c.day - days) * MsPerDay + dateMs % MsPerDay
  }

  /** Equal UTC year, month and day. */
  function SameDay(a: int, b: int): (r: bool)
    ensures r <==> DayOf(a) == DayOf(b)
  {
    UtcParts(a) == UtcParts(b)
  }

  /** Midnight UTC of the date the event falls on in `year`, as `Date.UTC(year, month, day)` computes it. */
  function Occurrence(year: int, date: Civil): int {
    UtcDay(year, date.month, date.day) * MsPerDay
  }

  /** Whether the alert for an occurrence, `daysBeforeAlert` days ahead of it, is due on `todayMs`. */
  function AlertFires(occurrenceMs: int, daysBeforeAlert: int, todayMs: int): (r: bool)
    ensures r <==> DayOf(todayMs) == DayOf(occurrenceMs) - daysBeforeAlert
  {
    SameDay(SubtractDays(occurrenceMs, daysBeforeAlert), todayMs)
  }

  /**
   * Whether the event's reminder goes out on `todayMs`.  A recurring event is
   * tried against its occurrences in today's year and the next one; any
   * other event against its stored date.
   */
  function ShouldNotifyToday(e: Event, todayMs: int): bool {
    var d := UtcParts(e.dateMs);
    if e.recurring then
      var ty := UtcParts(todayMs).year;
      AlertFires(Occurrence(ty, d), e.daysBeforeAlert, todayMs)
      || AlertFires(Occurrence(ty + 1, d), e.daysBeforeAlert, todayMs)
    else
      AlertFires(Occurrence(d.year, d), e.daysBeforeAlert, todayMs)
  }

  /** A one-off event fires on exactly one day: its own date minus the lead time. */
  lemma NonRecurringFiresExactlyOnAlertDay(e: Event, todayMs: int)
    requires !e.recurring && !(0 <= UtcParts(e.dateMs).year <= 99)
    ensures ShouldNotifyToday(e, todayMs) <==> DayOf(todayMs) == DayOf(e.dateMs) - e.daysBeforeAlert
  {
    UtcDayOfValid(UtcParts(e.dateMs));
  }

  /**
   * A recurring event fires exactly when today is the alert day of its
   * anniversary in today's year or in the next year.
   */
  lemma RecurringFiresOnAnniversaryAlertDay(e: Event, todayMs: int)
    requires e.recurring
    ensures var d := UtcParts(e.dateMs);
            var ty := UtcParts(todayMs).year;
            ShouldNotifyToday(e, todayMs) <==>
              DayOf(todayMs) == UtcDay(ty, d.month, d.day) - e.daysBeforeAlert
              || DayOf(todayMs) == UtcDay(ty + 1, d.month, d.day) - e.daysBeforeAlert
  {
  }

  /** Only the month and day of a recurring event's stored date matter, not its year. */
  lemma RecurringIgnoresStoredYear(e: Event, e': Event, todayMs: int)
    requires e.recurring && e'.recurring && e.daysBeforeAlert == e'.daysBeforeAlert
    requires UtcParts(e.dateMs).month == UtcParts(e'.dateMs).month
    requires UtcParts(e.dateMs).day == UtcParts(e'.dateMs).day
    ensures ShouldNotifyToday(e, todayMs) == ShouldNotifyToday(e', todayMs)
  {
  }

  /**
   * Looking at today's year and the next one is enough: for a lead time of
   * 0..365 days, a recurring event fires on the alert day of its anniversary
   * in any year `y` in which that anniversary exists.
   */
  lemma TwoYearWindowIsComplete(e: Event, todayMs: int, y: int)
    requires e.recurring && 0 <= e.daysBeforeAlert <= 365
    requires !(0 <= y <= 99)
    requires ValidCivil(Civil(y, UtcParts(e.dateMs).month, UtcParts(e.dateMs).day))
    requires DayOf(todayMs) == DaysFromCivil(y, UtcParts(e.dateMs).month, UtcParts(e.dateMs).day) - e.daysBeforeAlert
    ensures ShouldNotifyToday(e, todayMs)
  {
    var d := UtcParts(e.dateMs);
    WindowCovers(DayOf(todayMs), UtcParts(todayMs).year, e.daysBeforeAlert, Civil(y, d.month, d.day));
    RecurringFiresOnAnniversaryAlertDay(e, todayMs);
  }

  /** The day-number core of the window argument: `ty` is the year of the alert day `t`. */
  lemma WindowCovers(t: int, ty: int, daysBeforeAlert: int, occ: Civil)
    requires ValidCivil(occ) && !(0 <= occ.year <= 99) && 0 <= daysBeforeAlert <= 365
    requires t == DaysFromCivil(occ.year, occ.month, occ.day) - daysBeforeAlert
    requires ty == CivilFromDays(t).year
    ensures t == UtcDay(ty, occ.month, occ.day) - daysBeforeAlert
            || t == UtcDay(ty + 1, occ.month, occ.day) - daysBeforeAlert
  {
    DaysFromCivilInYear(occ);
    AlertDayYear(DaysFromCivil(occ.year, occ.month, occ.day), t, occ.year);
    UtcDayOfValid(occ);
  }

  /** An alert at most 365 days ahead of a day of year `y` falls in year `y` or the year before. */
  lemma AlertDayYear(n: int, t: int, y: int)
    requires YearStart(y) <= n < YearStart(y + 1) && n - 365 <= t <= n
    ensures CivilFromDays(t).year == y - 1 || CivilFromDays(t).year == y
  {
    YearStartStep(y - 1);
    if t < YearStart(y) {
      YearOfDay(t, y - 1);
    } else {
      YearOfDay(t, y);
    }
  }


  /** A recurring event dated February 29 is celebrated on March 1 in common years. */
  lemma LeapDayAnniversaryMovesToMarchFirst(e: Event, year: int)
    requires e.recurring && UtcParts(e.dateMs).month == 1 && UtcParts(e.dateMs).day == 29
    requires !IsLeapYear(year) && !(0 <= year <= 99)
    ensures UtcParts(Occurrence(year, UtcParts(e.dateMs))) == Civil(year, 2, 1)
  {
    LeapDayOverflow(year);
    DayOfMidnight(UtcDay(year, 1, 29));
  }

  // ---------------------------------------------------------------------
  // The message

  /** The notification body: today, tomorrow, or in N days. */
  function BuildMessage(title: string, daysBeforeAlert: int): string {
    if daysBeforeAlert == 0 then "Hoje é " + title + "!"
    else if daysBeforeAlert == 1 then title + " é amanhã!"
    else title + " em " + IntToString(daysBeforeAlert) + " dias"
  }

  /** Reads the lead time back from a message about `title`; the inverse of `BuildMessage`. */
  function LeadTimeOf(title: string, message: string): Option<int> {
    var n := |title|;
    if message == "Hoje é " + title + "!" then Some(0)
    else if message == title + " é amanhã!" then Some(1)
    else if |message| >= n + 9 && message[..n + 4] == title + " em " && message[|message| - 5..] == " dias" then
      ParseInt(message[n + 4..|message| - 5])
    else None
  }

  /** The message determines the lead time it announces. */
  lemma MessageRoundTrip(title: string, daysBeforeAlert: int)
    ensures LeadTimeOf(title, BuildMessage(title, daysBeforeAlert)) == Some(daysBeforeAlert)
  {
    var n := |title|;
    if daysBeforeAlert != 0 && daysBeforeAlert != 1 {
      var digits := IntToString(daysBeforeAlert);
      var m := title + " em " + digits + " dias";
      assert m[|m| - 1] == 's';
      assert ("Hoje é " + title + "!")[n + 7] == '!';
      assert (title + " é amanhã!")[n + 9] == '!';
      assert m[..n + 4] == title + " em ";
      assert m[|m| - 5..] == " dias";
      assert m[n + 4..|m| - 5] == digits;
      ParseIntOfIntToString(daysBeforeAlert);
    } else if daysBeforeAlert == 1 {
      assert |"Hoje é " + title + "!"| == n + 8;
    }
  }

  /** Different lead times give different messages for the same title. */
  lemma BuildMessageInjective(title: string, a: int, b: int)
    requires BuildMessage(title, a) == BuildMessage(title, b)
    ensures a == b
  {
    MessageRoundTrip(title, a);
    MessageRoundTrip(title, b);
  }

  /** The push payload for a due event. */
  function BuildPayload(e: Event): (p: Payload)
    ensures p.tag == Some("event-" + e.id) && p.url == Some("/dashboard")
    ensures p.body == BuildMessage(e.title, e.daysBeforeAlert)
  {
    Payload("Memodate \U{1F5D3}\U{FE0F}", BuildMessage(e.title, e.daysBeforeAlert), Some("event-" + e.id), Some("/dashboard"))
  }

  /** Different events get different tags, so one notification never replaces another's. */
  lemma PayloadTagsDistinct(e: Event, e': Event)
    requires e.id != e'.id
    ensures BuildPayload(e).tag != BuildPayload(e').tag
  {
    assert ("event-" + e.id)[6..] == e.id;
    assert ("event-" + e'.id)[6..] == e'.id;
  }

  // ---------------------------------------------------------------------
  // The batch

  /** Access control: the header must be `Bearer ` followed by the secret, which reads `undefined` when unset. */
  function ExpectedAuthorization(cronSecret: Option<string>): string {
    "Bearer " + cronSecret.GetOr("undefined")
  }

  predicate Authorized(authorization: Option<string>, cronSecret: Option<string>) {
    authorization == Some(ExpectedAuthorization(cronSecret))
  }

  /** Without the configured secret, the literal header `Bearer undefined` is accepted. */
  lemma UnsetSecretAcceptsUndefined()
    ensures Authorized(Some("Bearer undefined"), None)
    ensures !Authorized(None, None)
  {
    assert "Bearer " + "undefined" == "Bearer undefined";
  }

  /** A user with the user's events and subscriptions, as `findMany({ include })` returns it. */
  datatype UserSnapshot = UserSnapshot(user: User, events: seq<Event>, subscriptions: seq<PushSubscription>)

  function SnapshotOf(u: User, events: seq<Event>, subs: seq<PushSubscription>): (s: UserSnapshot)
    ensures s.user == u
    ensures forall e :: e in s.events <==> e in events && e.userId == u.id
    ensures forall x :: x in s.subscriptions <==> x in subs && x.userId == u.id
  {
    UserSnapshot(u, Filter(events, EventOwnedBy(u.id)), Filter(subs, OwnedBy(u.id)))
  }

  /** Every user with related rows, read once before the loop. */
  function Snapshot(users: seq<User>, events: seq<Event>, subs: seq<PushSubscription>): (r: seq<UserSnapshot>)
    ensures |r| == |users|
    ensures forall i :: 0 <= i < |r| ==> r[i] == SnapshotOf(users[i], events, subs)
  {
    seq(|users|, i requires 0 <= i < |users| => SnapshotOf(users[i], events, subs))
  }

  function DueOn(todayMs: int): Event -> bool {
    (e: Event) => ShouldNotifyToday(e, todayMs)
  }

  /** For each event in turn, one attempt per subscription. */
  function EventAttempts(due: seq<Event>, subs: seq<PushSubscription>): (r: seq<Attempt>)
    ensures |r| == |due| * |subs|
    ensures forall a :: a in r <==> a.sub in subs && exists e :: e in due && a.payload == BuildPayload(e)
  {
    if due == [] then []
    else
      var init, last := due[..|due| - 1], due[|due| - 1];
      assert forall e :: e in due <==> e in init || e == last by {
        assert due == init + [last];
      }
      assert |due| * |subs| == |init| * |subs| + |subs| by {
        assert |due| == |init| + 1;
      }
      EventAttempts(init, subs) + SendToAll(subs, BuildPayload(last))
  }

  lemma EventAttemptsStep(due: seq<Event>, j: int, subs: seq<PushSubscription>)
    requires 0 <= j < |due|
    ensures EventAttempts(due[..j + 1], subs) == EventAttempts(due[..j], subs) + SendToAll(subs, BuildPayload(due[j]))
  {
    assert due[..j + 1][..j] == due[..j];
  }

  /** The attempts one user's iteration makes (none without a subscription). */
  function UserAttempts(u: UserSnapshot, nowMs: int, lookup: ZoneLookup): (r: seq<Attempt>)
    ensures u.subscriptions == [] ==> r == []
  {
    if |u.subscriptions| == 0 then []
    else
      var today := GetTodayInTimezone(u.user.timezone, nowMs, lookup);
      EventAttempts(Filter(u.events, DueOn(today)), u.subscriptions)
  }

  /** The attempts of the whole batch, user after user. */
  function BatchAttempts(users: seq<UserSnapshot>, nowMs: int, lookup: ZoneLookup): seq<Attempt> {
    if users == [] then []
    else BatchAttempts(users[..|users| - 1], nowMs, lookup) + UserAttempts(users[|users| - 1], nowMs, lookup)
  }

  /** Whether `a` sends an event of user `u` that is due today to a subscription of `u`. */
  predicate Justified(a: Attempt, u: UserSnapshot, nowMs: int, lookup: ZoneLookup) {
    var today := GetTodayInTimezone(u.user.timezone, nowMs, lookup);
    a.sub in u.subscriptions
    && exists e :: e in u.events && ShouldNotifyToday(e, today) && a.payload == BuildPayload(e)
  }

  /**
   * The batch sends exactly the due events of each user to exactly that
   * user's subscriptions: every attempt is justified by some user, and
   * every justified pairing is attempted.
   */
  lemma {:induction false} BatchAttemptsExactly(users: seq<UserSnapshot>, nowMs: int, lookup: ZoneLookup)
    ensures forall a :: a in BatchAttempts(users, nowMs, lookup) <==>
                          exists u :: u in users && Justified(a, u, nowMs, lookup)
  {
    if users != [] {
      var init, last := users[..|users| - 1], users[|users| - 1];
      BatchAttemptsExactly(init, nowMs, lookup);
      UserAttemptsExactly(last, nowMs, lookup);
      assert users == init + [last];
    }
  }

  /** A user's iteration sends exactly that user's due events to exactly that user's subscriptions. */
  lemma UserAttemptsExactly(u: UserSnapshot, nowMs: int, lookup: ZoneLookup)
    ensures forall a :: a in UserAttempts(u, nowMs, lookup) <==> Justified(a, u, nowMs, lookup)
  {
    var today := GetTodayInTimezone(u.user.timezone, nowMs, lookup);
    var due := Filter(u.events, DueOn(today));
    forall a | Justified(a, u, nowMs, lookup)
      ensures a in UserAttempts(u, nowMs, lookup)
    {
      var e :| e in u.events && ShouldNotifyToday(e, today) && a.payload == BuildPayload(e);
      assert e in due;
    }
  }

  /** The 200 response `{ sent, removed }`, or 401. */
  datatype CronResponse = Unauthorized | Counts(sent: nat, removed: nat)

  /** The pass the batch makes over the subscription table it starts from. */
  function CronOutcome(users: seq<User>, events: seq<Event>, subs: seq<PushSubscription>,
                       nowMs: int, lookup: ZoneLookup, send: Transport): Tally
  {
    Run(BatchAttempts(Snapshot(users, events, subs), nowMs, lookup), Tally(0, 0, subs), send)
  }

  /**
   * What the response reports: `sent` counts successful sends and `removed`
   * counts 404/410 rejections among the batch's attempts; the table loses
   * the rows whose endpoint was found gone, and keeps endpoints unique.
   */
  lemma CronOutcomeCounts(users: seq<User>, events: seq<Event>, subs: seq<PushSubscription>,
                          nowMs: int, lookup: ZoneLookup, send: Transport)
    requires UniqueEndpoints(subs)
    ensures var attempts := BatchAttempts(Snapshot(users, events, subs), nowMs, lookup);
            var t := CronOutcome(users, events, subs, nowMs, lookup, send);
            && t.sent == Count(attempts, Succeeded(send))
            && t.removed == Count(attempts, WasGone(send))
            && (forall s :: s in t.table <==> s in subs && s.endpoint !in GoneEndpoints(attempts, send))
            && UniqueEndpoints(t.table)
  {
    var attempts := BatchAttempts(Snapshot(users, events, subs), nowMs, lookup);
    RunCounts(attempts, Tally(0, 0, subs), send);
    RunKeepsUnique(attempts, Tally(0, 0, subs), send);
  }

  /** One user's iteration: each due event to each of the user's subscriptions. */
  method NotifyUser(db: Database, user: UserSnapshot, nowMs: int, lookup: ZoneLookup, send: Transport,
                    sent: nat, removed: nat)
    returns (sent': nat, removed': nat)
    requires db.Valid()
    modifies db
    ensures db.Valid() && db.users == old(db.users) && db.events == old(db.events)
    ensures Tally(sent', removed', db.subscriptions)
         == Run(UserAttempts(user, nowMs, lookup), Tally(sent, removed, old(db.subscriptions)), send)
  {
    sent', removed' := sent, removed;
    if |user.subscriptions| == 0 {
      return;
    }
    var today := GetTodayInTimezone(user.user.timezone, nowMs, lookup);
    var toNotify := Filter(user.events, DueOn(today));
    ghost var start := Tally(sent, removed, db.subscriptions);
    for j := 0 to |toNotify|
      invariant db.Valid() && db.users == old(db.users) && db.events == old(db.events)
      invariant Tally(sent', removed', db.subscriptions)
             == Run(EventAttempts(toNotify[..j], user.subscriptions), start, send)
    {
      var payload := BuildPayload(toNotify[j]);
      ghost var before := EventAttempts(toNotify[..j], user.subscriptions);
      sent', removed' := Broadcast(db, user.subscriptions, payload, send, sent', removed');
      EventAttemptsStep(toNotify, j, user.subscriptions);
      RunAppend(before, SendToAll(user.subscriptions, payload), start, send);
    }
    assert toNotify[..|toNotify|] == toNotify;
  }

  /** `GET /api/cron/daily`. */
  method DailyCronGet(db: Database, authorization: Option<string>, cronSecret: Option<string>,
                      nowMs: int, lookup: ZoneLookup, send: Transport)
    returns (response: CronResponse)
    requires db.Valid()
    modifies db
    ensures db.Valid() && db.users == old(db.users) && db.events == old(db.events)
    ensures !Authorized(authorization, cronSecret) ==>
              response == Unauthorized && db.subscriptions == old(db.subscriptions)
    ensures Authorized(authorization, cronSecret) ==>
              var t := CronOutcome(old(db.users), old(db.events), old(db.subscriptions), nowMs, lookup, send);
              response == Counts(t.sent, t.removed) && db.subscriptions == t.table
  {
    if authorization != Some(ExpectedAuthorization(cronSecret)) {
      return Unauthorized;
    }
    var users := Snapshot(db.users, db.events, db.subscriptions);
    ghost var start := Tally(0, 0, db.subscriptions);
    var sent: nat, removed: nat := 0, 0;
    for i := 0 to |users|
      invariant db.Valid() && db.users == old(db.users) && db.events == old(db.events)
      invariant Tally(sent, removed, db.subscriptions) == Run(BatchAttempts(users[..i], nowMs, lookup), start, send)
    {
      ghost var done := BatchAttempts(users[..i], nowMs, lookup);
      sent, removed := NotifyUser(db, users[i], nowMs, lookup, send, sent, removed);
      assert users[..i + 1][..i] == users[..i];
      RunAppend(done, UserAttempts(users[i], nowMs, lookup), start, send);
    }
    assert users[..|users|] == users;
    response := Counts(sent, removed);
  }
}
