/**
 * The server actions on events: validation of the submitted form, and the
 * reads and writes of the Event and User tables, each scoped to the rows of
 * the signed-in user.
 */
module EventActions {
  import opened Wrappers
  import opened Seqs
  import opened Text
  import opened Store
  import opened Sorting

  /** A submitted form: field name to value; a missing field is absent (`formData.get` gives `null`). */
  type Form = map<string, string>

  /**
   * The platform date parser, seen from outside: the time value `Date.parse`
   * (and `new Date(string)`) gives a string, or `None` for NaN.
   */
  type DateParser = string -> Option<int>

  function Field(form: Form, name: string): Option<string> {
    if name in form then Some(form[name]) else None
  }

  /** The validated fields of an event form. */
  datatype EventFields = EventFields(
    title: string,
    date: string,
    eventType: EventType,
    recurring: bool,
    daysBeforeAlert: int,
    notes: Option<string>)

  /** The enum check: one of `BIRTHDAY`, `ANNIVERSARY`, `HOLIDAY`, `OTHER`, spelled exactly. */
  function ParseEventType(t: Option<string>): (r: Option<EventType>)
    ensures r.Some? <==> t.Some? && t.value in {"BIRTHDAY", "ANNIVERSARY", "HOLIDAY", "OTHER"}
  {
    match t
    case Some("BIRTHDAY") => Some(Birthday)
    case Some("ANNIVERSARY") => Some(Anniversary)
    case Some("HOLIDAY") => Some(Holiday)
    case Some("OTHER") => Some(Other)
    case _ => None
  }

  /** The name each type is submitted under. */
  function EventTypeName(t: EventType): string {
    match t
    case Birthday => "BIRTHDAY"
    case Anniversary => "ANNIVERSARY"
    case Holiday => "HOLIDAY"
    case Other => "OTHER"
  }

  /** Every type reads back from its own name. */
  lemma EventTypeRoundTrip(t: EventType)
    ensures ParseEventType(Some(EventTypeName(t))) == Some(t)
  {
  }

  /**
   * The lead time: `parseInt` of the field (a missing field reads as the
   * string `null`), 1 when that is NaN, then clamped to 0..365.
   */
  function LeadTime(raw: Option<string>): (r: int)
    ensures 0 <= r <= 365
    ensures ParseInt(raw.GetOr("null")).None? ==> r == 1
    ensures ParseInt(raw.GetOr("null")).Some? ==>
              var v := ParseInt(raw.GetOr("null")).value;
              (0 <= v <= 365 ==> r == v) && (v < 0 ==> r == 0) && (v > 365 ==> r == 365)
  {
    var parsed := ParseInt(raw.GetOr("null"));
    var v := if parsed.None? then 1 else parsed.value;
    var capped := if v < 365 then v else 365;
    if capped > 0 then capped else 0
  }

  /** The title: trimmed, then cut to 200 characters. */
  function CleanTitle(raw: Option<string>): (r: string)
    ensures var t := Trim(raw.GetOr(""));
            |r| == (if |t| <= 200 then |t| else 200) && r == t[..|r|]
  {
    Take(Trim(raw.GetOr("")), 200)
  }

  /** The notes: `null` when missing or empty, else cut to 1000 characters. */
  function CleanNotes(raw: Option<string>): (r: Option<string>)
    ensures r.None? <==> raw.None? || raw.value == ""
    ensures r.Some? ==>
              && 1 <= |r.value| <= 1000
              && r.value == raw.value[..if |raw.value| <= 1000 then |raw.value| else 1000]
  {
    match raw
    case None => None
    case Some(s) => if s == "" then None else Some(Take(s, 1000))
  }

  /**
   * `parseEventFields`: `None` when the cleaned title is shorter than 2
   * characters, the date is missing, empty or unparseable, or the type is
   * not one of the four; otherwise the cleaned fields.
   */
  function ParseEventFields(form: Form, parseDate: DateParser): (r: Option<EventFields>)
    ensures r.Some? <==>
              && |CleanTitle(Field(form, "title"))| >= 2
              && Field(form, "date").GetOr("") != ""
              && parseDate(Field(form, "date").GetOr("")).Some?
              && ParseEventType(Field(form, "type")).Some?
    ensures r.Some? ==>
              && 2 <= |r.value.title| <= 200
              && 0 <= r.value.daysBeforeAlert <= 365
              && (r.value.recurring <==> Field(form, "recurring") == Some("true"))
              && (r.value.notes.Some? ==> |r.value.notes.value| <= 1000)
    ensures r.Some? ==>
              r.value == EventFields(
                CleanTitle(Field(form, "title")),
                Field(form, "date").value,
                ParseEventType(Field(form, "type")).value,
                Field(form, "recurring") == Some("true"),
                LeadTime(Field(form, "daysBeforeAlert")),
                CleanNotes(Field(form, "notes")))
  {
    var title := CleanTitle(Field(form, "title"));
    var date := Field(form, "date").GetOr("");
    var recurring := Field(form, "recurring") == Some("true");
    var daysBeforeAlert := LeadTime(Field(form, "daysBeforeAlert"));
    var notes := CleanNotes(Field(form, "notes"));
    if |title| < 2 then None
    else if date == "" || parseDate(date).None? then None
    else match ParseEventType(Field(form, "type"))
      case None => None
      case Some(t) => Some(EventFields(title, date, t, recurring, daysBeforeAlert, notes))
  }

  /** Where an action sends the browser (`redirect` ends the action). */
  datatype Outcome = Redirect(path: string) | Done

  // ---------------------------------------------------------------------
  // Reads

  /** `orderBy: { date: 'asc' }`. */
  predicate DateLe(a: Event, b: Event) {
    a.dateMs <= b.dateMs
  }

  lemma DateLeTotalPreorder()
    ensures TotalPreorder(DateLe)
  {
  }

  /** The caller's events by ascending date (`getEvents`). */
  function OwnEventsByDate(events: seq<Event>, userId: string): (r: seq<Event>)
    ensures multiset(r) == multiset(Filter(events, EventOwnedBy(userId)))
    ensures forall i, j :: 0 <= i < j < |r| ==> r[i].dateMs <= r[j].dateMs
    ensures forall e :: e in r <==> e in events && e.userId == userId
  {
    DateLeTotalPreorder();
    var r := SortBy(Filter(events, EventOwnedBy(userId)), DateLe);
    assert forall e :: e in r <==> e in multiset(r);
    r
  }

  /** `getEvents`: nothing without a session, else the caller's events by date. */
  method GetEvents(db: Database, session: Option<string>) returns (events: seq<Event>)
    ensures !SignedIn(session) ==> events == []
    ensures SignedIn(session) ==> events == OwnEventsByDate(db.events, session.value)
  {
    if !SignedIn(session) {
      return [];
    }
    events := OwnEventsByDate(db.events, session.value);
  }

  /** `findFirst({ where: { id, userId } })`. */
  function FindOwned(events: seq<Event>, id: string, userId: string): (r: Option<Event>)
    ensures r.Some? ==> r.value in events && r.value.id == id && r.value.userId == userId
    ensures r.None? ==> forall e :: e in events ==> !(e.id == id && e.userId == userId)
  {
    if events == [] then None
    else if events[0].id == id && events[0].userId == userId then Some(events[0])
    else
      assert forall e :: e in events <==> e == events[0] || e in events[1..];
      FindOwned(events[1..], id, userId)
  }

  /** `getEvent`: the caller's event with that id, if any. */
  method GetEvent(db: Database, session: Option<string>, id: string) returns (event: Option<Event>)
    ensures !SignedIn(session) ==> event == None
    ensures SignedIn(session) ==> event == FindOwned(db.events, id, session.value)
  {
    if !SignedIn(session) {
      return None;
    }
    event := FindOwned(db.events, id, session.value);
  }

  // ---------------------------------------------------------------------
  // Writes

  /** The row `createEvent` inserts. */
  function NewEvent(id: string, userId: string, f: EventFields, dateMs: int): Event {
    Event(id, userId, f.title, dateMs, f.eventType, f.recurring, f.daysBeforeAlert, f.notes)
  }

  /** Appending a row under a fresh id keeps ids unique. */
  lemma AppendFreshKeepsIds(events: seq<Event>, row: Event)
    requires UniqueEventIds(events)
    requires forall e :: e in events ==> e.id != row.id
    ensures UniqueEventIds(events + [row])
  {
    var rows := events + [row];
    forall i, j | 0 <= i < j < |rows|
      ensures EventIdOf(rows[i]) != EventIdOf(rows[j])
    {
      if j == |events| {
        assert rows[i] in events;
      } else {
        assert rows[i] == events[i] && rows[j] == events[j];
      }
    }
  }

  /** `createEvent`; `newId` is the identifier the database assigns. */
  method CreateEvent(db: Database, session: Option<string>, form: Form, parseDate: DateParser, newId: string)
    returns (outcome: Outcome)
    requires db.Valid()
    requires forall e :: e in db.events ==> e.id != newId
    modifies db
    ensures db.Valid() && db.users == old(db.users) && db.subscriptions == old(db.subscriptions)
    ensures !SignedIn(session) ==> outcome == Redirect("/login") && db.events == old(db.events)
    ensures SignedIn(session) && ParseEventFields(form, parseDate).None? ==>
              outcome == Redirect("/dashboard") && db.events == old(db.events)
    ensures SignedIn(session) && ParseEventFields(form, parseDate).Some? ==>
              var f := ParseEventFields(form, parseDate).value;
              outcome == Redirect("/dashboard?toast=saved")
              && db.events == old(db.events) + [NewEvent(newId, session.value, f, parseDate(f.date).value)]
  {
    if !SignedIn(session) {
      return Redirect("/login");
    }
    var fields := ParseEventFields(form, parseDate);
    if fields.None? {
      return Redirect("/dashboard");
    }
    var f := fields.value;
    var row := NewEvent(newId, session.value, f, parseDate(f.date).value);
    AppendFreshKeepsIds(db.events, row);
    db.events := db.events + [row];
    outcome := Redirect("/dashboard?toast=saved");
  }

  /** `update({ where: { id }, data })`: the row with that id takes the new fields; its id and owner stay. */
  function ApplyUpdate(events: seq<Event>, id: string, f: EventFields, dateMs: int): (r: seq<Event>)
    ensures |r| == |events|
    ensures forall i :: 0 <= i < |r| ==>
              r[i] == if events[i].id == id then NewEvent(id, events[i].userId, f, dateMs) else events[i]
  {
    seq(|events|, i requires 0 <= i < |events| =>
      if events[i].id == id then NewEvent(id, events[i].userId, f, dateMs) else events[i])
  }

  /** An update keeps every row's id, so ids stay unique. */
  lemma ApplyUpdateKeepsIds(events: seq<Event>, id: string, f: EventFields, dateMs: int)
    requires UniqueEventIds(events)
    ensures UniqueEventIds(ApplyUpdate(events, id, f, dateMs))
  {
    var r := ApplyUpdate(events, id, f, dateMs);
    assert forall i :: 0 <= i < |r| ==> EventIdOf(r[i]) == EventIdOf(events[i]);
  }

  /**
   * `updateEvent`: without a session, with invalid fields, or for an event
   * the caller does not own, nothing changes; otherwise the event takes the
   * new fields and no other row changes.
   */
  method UpdateEvent(db: Database, session: Option<string>, id: string, form: Form, parseDate: DateParser)
    returns (outcome: Outcome)
    requires db.Valid()
    modifies db
    ensures db.Valid() && db.users == old(db.users) && db.subscriptions == old(db.subscriptions)
    ensures !SignedIn(session) ==> outcome == Redirect("/login") && db.events == old(db.events)
    ensures SignedIn(session) && (ParseEventFields(form, parseDate).None? || FindOwned(old(db.events), id, session.value).None?) ==>
              outcome == Redirect("/dashboard") && db.events == old(db.events)
    ensures SignedIn(session) && ParseEventFields(form, parseDate).Some? && FindOwned(old(db.events), id, session.value).Some? ==>
              var f := ParseEventFields(form, parseDate).value;
              outcome == Redirect("/dashboard?toast=saved")
              && db.events == ApplyUpdate(old(db.events), id, f, parseDate(f.date).value)
  {
    if !SignedIn(session) {
      return Redirect("/login");
    }
    var fields := ParseEventFields(form, parseDate);
    if fields.None? {
      return Redirect("/dashboard");
    }
    var existing := FindOwned(db.events, id, session.value);
    if existing.None? {
      return Redirect("/dashboard");
    }
    var f := fields.value;
    ApplyUpdateKeepsIds(db.events, id, f, parseDate(f.date).value);
    db.events := ApplyUpdate(db.events, id, f, parseDate(f.date).value);
    outcome := Redirect("/dashboard?toast=saved");
  }

  /** The updated row belongs to the caller, so an update never touches another user's event. */
  lemma UpdateOnlyTouchesOwnEvent(events: seq<Event>, id: string, userId: string, f: EventFields, dateMs: int, e: Event)
    requires UniqueEventIds(events) && FindOwned(events, id, userId).Some?
    requires e in events && e.userId != userId
    ensures e in ApplyUpdate(events, id, f, dateMs)
  {
    var k :| 0 <= k < |events| && events[k] == e;
    var owned := FindOwned(events, id, userId).value;
    var j :| 0 <= j < |events| && events[j] == owned;
    assert ApplyUpdate(events, id, f, dateMs)[k] == e;
  }

  function NotOwnedWithId(id: string, userId: string): Event -> bool {
    (e: Event) => !(e.id == id && e.userId == userId)
  }

  /** `deleteMany({ where: { id, userId } })`: removes the caller's row with that id and nothing else. */
  function DeleteOwnedEvent(events: seq<Event>, id: string, userId: string): (r: seq<Event>)
    ensures forall e :: e in r <==> e in events && !(e.id == id && e.userId == userId)
  {
    Filter(events, NotOwnedWithId(id, userId))
  }

  lemma DeleteOwnedEventKeepsIds(events: seq<Event>, id: string, userId: string)
    requires UniqueEventIds(events)
    ensures UniqueEventIds(DeleteOwnedEvent(events, id, userId))
  {
    FilterKeepsUnique(events, NotOwnedWithId(id, userId), EventIdOf);
  }

  /** `deleteEvent`: scoped delete, then back to the dashboard. */
  method DeleteEvent(db: Database, session: Option<string>, id: string) returns (outcome: Outcome)
    requires db.Valid()
    modifies db
    ensures db.Valid() && db.users == old(db.users) && db.subscriptions == old(db.subscriptions)
    ensures !SignedIn(session) ==> outcome == Redirect("/login") && db.events == old(db.events)
    ensures SignedIn(session) ==>
              outcome == Redirect("/dashboard?toast=deleted")
              && db.events == DeleteOwnedEvent(old(db.events), id, session.value)
  {
    if !SignedIn(session) {
      return Redirect("/login");
    }
    DeleteOwnedEventKeepsIds(db.events, id, session.value);
    db.events := DeleteOwnedEvent(db.events, id, session.value);
    outcome := Redirect("/dashboard?toast=deleted");
  }

  /** `deleteEventById`, the undo flow's delete: the same scoped delete, no redirect. */
  method DeleteEventById(db: Database, session: Option<string>, id: string)
    requires db.Valid()
    modifies db
    ensures db.Valid() && db.users == old(db.users) && db.subscriptions == old(db.subscriptions)
    ensures !SignedIn(session) ==> db.events == old(db.events)
    ensures SignedIn(session) ==> db.events == DeleteOwnedEvent(old(db.events), id, session.value)
  {
    if !SignedIn(session) {
      return;
    }
    DeleteOwnedEventKeepsIds(db.events, id, session.value);
    db.events := DeleteOwnedEvent(db.events, id, session.value);
  }

  /** `user.update({ where: { id }, data: { timezone } })`; with no such row nothing changes (Prisma throws). */
  function SetTimezone(users: seq<User>, userId: string, timezone: string): (r: seq<User>)
    ensures |r| == |users|
    ensures forall i :: 0 <= i < |r| ==> r[i].id == users[i].id
    ensures forall i :: 0 <= i < |r| ==> r[i].timezone == if users[i].id == userId then timezone else users[i].timezone
  {
    seq(|users|, i requires 0 <= i < |users| =>
      if users[i].id == userId then users[i].(timezone := timezone) else users[i])
  }

  /** `updateTimezone`: only the caller's own row changes. */
  method UpdateTimezone(db: Database, session: Option<string>, timezone: string)
    requires db.Valid()
    modifies db
    ensures db.Valid() && db.events == old(db.events) && db.subscriptions == old(db.subscriptions)
    ensures !SignedIn(session) ==> db.users == old(db.users)
    ensures SignedIn(session) ==> db.users == SetTimezone(old(db.users), session.value, timezone)
  {
    if !SignedIn(session) {
      return;
    }
    db.users := SetTimezone(db.users, session.value, timezone);
  }
}
