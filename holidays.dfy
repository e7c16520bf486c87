/**
 * The built-in list of Brazilian holidays and `seedHolidaysForUser`, which
 * adds to a user's events every holiday whose title the user does not
 * already have as a HOLIDAY event.
 */
module Holidays {
  import opened Wrappers
  import opened Seqs
  import opened Calendar
  import opened Text
  import opened Store

  /** An entry of the holiday tables; `month` is 1-based, `year` only for moveable feasts. */
  datatype HolidayDef = HolidayDef(
    title: string,
    month: int,
    day: int,
    year: Option<int>,
    recurring: bool,
    daysBeforeAlert: int,
    notes: Option<string>)

  function Fixed(title: string, month: int, day: int, daysBeforeAlert: int): HolidayDef {
    HolidayDef(title, month, day, None, true, daysBeforeAlert, None)
  }

  function Moveable2026(title: string, month: int, day: int, daysBeforeAlert: int, notes: string): HolidayDef {
    HolidayDef(title, month, day, Some(2026), false, daysBeforeAlert, Some(notes))
  }

  const MoveableNote := "Data móvel — varia a cada ano."

  /** Holidays on the same date every year. */
  function FixedHolidays(): seq<HolidayDef> {
    [ Fixed("Ano Novo", 1, 1, 1),
      Fixed("Dia Internacional da Mulher", 3, 8, 1),
      Fixed("Tiradentes", 4, 21, 1),
      Fixed("Dia do Trabalho", 5, 1, 1),
      Fixed("Dia dos Namorados", 6, 12, 7),
      Fixed("Festa Junina", 6, 24, 1),
      Fixed("Independência do Brasil", 9, 7, 1),
      Fixed("Nossa Senhora Aparecida", 10, 12, 1),
      Fixed("Dia das Crianças", 10, 12, 7),
      Fixed("Finados", 11, 2, 1),
      Fixed("Proclamação da República", 11, 15, 1),
      Fixed("Natal", 12, 25, 7),
      Fixed("Réveillon", 12, 31, 1) ]
  }

  /** The moveable feasts, with their 2026 dates. */
  function MoveableHolidays2026(): seq<HolidayDef> {
    [ Moveable2026("Carnaval", 2, 17, 7, MoveableNote),
      Moveable2026("Sexta-feira Santa", 4, 3, 1, MoveableNote),
      Moveable2026("Páscoa", 4, 5, 7, MoveableNote),
      Moveable2026("Dia das Mães", 5, 10, 7, "2º domingo de maio — varia a cada ano."),
      Moveable2026("Corpus Christi", 6, 4, 1, MoveableNote),
      Moveable2026("Dia dos Pais", 8, 9, 7, "2º domingo de agosto — varia a cada ano.") ]
  }

  function AllHolidays(): seq<HolidayDef> {
    FixedHolidays() + MoveableHolidays2026()
  }

  /** The date of a holiday, as a calendar date with a 0-based month, in a given year. */
  function DateIn(h: HolidayDef, year: int): Civil {
    Civil(year, h.month - 1, h.day)
  }

  /** Fixed holidays recur, have no year, and fall on a real date in every year (none is 29 February). */
  lemma FixedHolidaysShape(year: int)
    ensures |FixedHolidays()| == 13
    ensures forall i :: 0 <= i < 13 ==>
              var h := FixedHolidays()[i];
              h.recurring && h.year == None && h.notes == None && ValidCivil(DateIn(h, year))
  {
    var t := FixedHolidays();
    forall i | 0 <= i < 13
      ensures ValidCivil(DateIn(t[i], year))
    {
      assert t[i].month != 2 && 1 <= t[i].day <= 31;
      assert t[i].month in {4, 6, 9, 11} ==> t[i].day <= 30;
    }
  }

  /** Moveable feasts are one-off events of 2026 on real dates, with a note. */
  lemma MoveableHolidaysShape()
    ensures |MoveableHolidays2026()| == 6
    ensures forall i :: 0 <= i < 6 ==>
              var h := MoveableHolidays2026()[i];
              !h.recurring && h.year == Some(2026) && h.notes.Some? && ValidCivil(DateIn(h, 2026))
  {
  }

  /** Every holiday is announced one or seven days ahead. */
  lemma AlertLeadTimes()
    ensures forall i :: 0 <= i < |AllHolidays()| ==>
              AllHolidays()[i].daysBeforeAlert == 1 || AllHolidays()[i].daysBeforeAlert == 7
  {
  }

  /** No two holidays share a title, so a title names one table entry. */
  lemma TitlesDistinct()
    ensures |AllHolidays()| == 19
    ensures forall i, j :: 0 <= i < j < |AllHolidays()| ==> AllHolidays()[i].title != AllHolidays()[j].title
  {
  }

  // ---------------------------------------------------------------------
  // Seeding

  /** The titles of the user's existing HOLIDAY events. */
  function ExistingHolidayTitles(events: seq<Event>, userId: string): (titles: set<string>)
    ensures forall t :: t in titles <==>
              exists e :: e in events && e.userId == userId && e.eventType == Holiday && e.title == t
  {
    set e | e in events && e.userId == userId && e.eventType == Holiday :: e.title
  }

  function TitleNotIn(titles: set<string>): HolidayDef -> bool {
    (h: HolidayDef) => h.title !in titles
  }

  /** The entries of a table to create: those whose title is not yet taken, in table order. */
  function Missing(table: seq<HolidayDef>, titles: set<string>): (r: seq<HolidayDef>)
    ensures forall h :: h in r <==> h in table && h.title !in titles
    ensures |r| <= |table|
  {
    Filter(table, TitleNotIn(titles))
  }

  /** The year a holiday is created in: its own year, else the current one. */
  function SeedYear(h: HolidayDef, currentYear: int): (y: int)
    ensures h.year.Some? ==> y == h.year.value
    ensures h.year.None? ==> y == currentYear
  {
    h.year.GetOr(currentYear)
  }

  /** The date string handed to `new Date`: `YYYY-MM-DDT12:00:00.000Z`, month and day zero-padded. */
  function DateString(year: int, month: nat, day: nat): string {
    IntToString(year) + "-" + PadStart2(NatToString(month)) + "-" + PadStart2(NatToString(day)) + "T12:00:00.000Z"
  }

  /** A number below 100 renders, padded, as its two decimal digits. */
  lemma TwoDigits(n: nat)
    requires n < 100
    ensures PadStart2(NatToString(n)) == [DecimalDigit(n / 10), DecimalDigit(n % 10)]
  {
    if n < 10 {
      assert NatToString(n) == [DecimalDigit(n)];
    } else {
      assert NatToString(n / 10) == [DecimalDigit(n / 10)];
    }
  }

  /** Reads the fixed-width tail `-MM-DDT12:00:00.000Z` back into month and day. */
  function ReadTail(t: string): Option<(int, int)>
    requires |t| == 20
  {
    if t[0] != '-' || t[3] != '-' || t[6..] != "T12:00:00.000Z" then None
    else if !(IsDecimalDigit(t[1]) && IsDecimalDigit(t[2]) && IsDecimalDigit(t[4]) && IsDecimalDigit(t[5])) then None
    else Some((DigitValue(t[1]) * 10 + DigitValue(t[2]), DigitValue(t[4]) * 10 + DigitValue(t[5])))
  }

  /** The two digits of a number below 100 read back as the number. */
  lemma TwoDigitsValue(n: nat)
    requires n < 100
    ensures DigitValue(DecimalDigit(n / 10)) * 10 + DigitValue(DecimalDigit(n % 10)) == n
  {
  }

  /** Reads a date string back into year, month and day. */
  function ReadDateString(s: string): Option<(int, int, int)> {
    if |s| < 20 then None
    else match (ParseInt(s[..|s| - 20]), ReadTail(s[|s| - 20..]))
      case (Some(year), Some((month, day))) => Some((year, month, day))
      case _ => None
  }

  /** The tail of a date string: month and day as two digits each, then noon UTC. */
  function Tail(month: nat, day: nat): (t: string)
    requires month < 100 && day < 100
    ensures |t| == 20
  {
    ['-', DecimalDigit(month / 10), DecimalDigit(month % 10),
     '-', DecimalDigit(day / 10), DecimalDigit(day % 10)] + "T12:00:00.000Z"
  }

  /** The tail reads back as the month and day it was built from. */
  lemma ReadTailOf(month: nat, day: nat)
    requires month < 100 && day < 100
    ensures ReadTail(Tail(month, day)) == Some((month, day))
  {
    var t := Tail(month, day);
    assert t[6..] == "T12:00:00.000Z";
    TwoDigitsValue(month);
    TwoDigitsValue(day);
  }

  /** A year text followed by a readable tail reads back as the pair. */
  lemma ReadDateStringOf(s: string, y: string, t: string, year: int, month: int, day: int)
    requires s == y + t && |t| == 20
    requires ParseInt(y) == Some(year) && ReadTail(t) == Some((month, day))
    ensures ReadDateString(s) == Some((year, month, day))
  {
    assert s[..|s| - 20] == y && s[|s| - 20..] == t;
  }

  /** Appending the separators and digits one by one or as a block is the same. */
  lemma Regroup(y: string, a: char, b: char, c: char, d: char, tail: string)
    ensures y + "-" + [a, b] + "-" + [c, d] + tail == y + (['-', a, b, '-', c, d] + tail)
  {
  }

  /** The date string is the year, then the month and day as two digits each, then the time. */
  lemma DateStringShape(year: int, month: nat, day: nat)
    requires month < 100 && day < 100
    ensures DateString(year, month, day) == IntToString(year) + Tail(month, day)
  {
    TwoDigits(month);
    TwoDigits(day);
    Regroup(IntToString(year), DecimalDigit(month / 10), DecimalDigit(month % 10),
            DecimalDigit(day / 10), DecimalDigit(day % 10), "T12:00:00.000Z");
  }

  /** The date string carries exactly the year, month and day it was built from. */
  lemma DateStringRoundTrip(year: int, month: nat, day: nat)
    requires month < 100 && day < 100
    ensures ReadDateString(DateString(year, month, day)) == Some((year, month, day))
  {
    DateStringShape(year, month, day);
    ParseIntOfIntToString(year);
    ReadTailOf(month, day);
    ReadDateStringOf(DateString(year, month, day), IntToString(year), Tail(month, day), year, month, day);
  }

  /** The instant the date string denotes: noon UTC of that date. */
  function NoonUtc(year: int, month: int, day: int): int {
    MakeDay(year, month - 1, day) * MsPerDay + 12 * 3600000
  }

  /** Noon UTC of a real date falls on that date. */
  lemma NoonUtcOnItsDate(year: int, month: int, day: int)
    requires ValidCivil(Civil(year, month - 1, day))
    ensures UtcParts(NoonUtc(year, month, day)) == Civil(year, month - 1, day)
  {
    MakeDayInRange(year, month - 1, day);
    var n := DaysFromCivil(year, month - 1, day);
    assert DayOf(NoonUtc(year, month, day)) == n;
    CivilRoundTrip(Civil(year, month - 1, day));
  }

  /** The row created for a holiday. */
  function HolidayRow(id: string, userId: string, h: HolidayDef, currentYear: int): Event {
    var year := SeedYear(h, currentYear);
    Event(id, userId, h.title, NoonUtc(year, h.month, h.day), Holiday, h.recurring, h.daysBeforeAlert, h.notes)
  }

  /** `createMany` over the missing holidays, the i-th taking the i-th fresh id. */
  function SeedRows(toCreate: seq<HolidayDef>, userId: string, currentYear: int, ids: seq<string>): (rows: seq<Event>)
    requires |ids| >= |toCreate|
    ensures |rows| == |toCreate|
    ensures forall i :: 0 <= i < |rows| ==> rows[i] == HolidayRow(ids[i], userId, toCreate[i], currentYear)
  {
    seq(|toCreate|, i requires 0 <= i < |toCreate| => HolidayRow(ids[i], userId, toCreate[i], currentYear))
  }

  /** Every created row is a HOLIDAY event of the user, at noon UTC of the holiday's date. */
  lemma SeedRowsAreHolidays(toCreate: seq<HolidayDef>, userId: string, currentYear: int, ids: seq<string>, i: nat)
    requires |ids| >= |toCreate| && i < |toCreate|
    ensures var row, h := SeedRows(toCreate, userId, currentYear, ids)[i], toCreate[i];
      && row.userId == userId && row.eventType == Holiday && row.title == h.title
      && row.recurring == h.recurring && row.daysBeforeAlert == h.daysBeforeAlert && row.notes == h.notes
      && (ValidCivil(DateIn(h, SeedYear(h, currentYear))) ==>
            UtcParts(row.dateMs) == DateIn(h, SeedYear(h, currentYear)))
  {
    var h := toCreate[i];
    var year := SeedYear(h, currentYear);
    if ValidCivil(DateIn(h, year)) {
      NoonUtcOnItsDate(year, h.month, h.day);
    }
  }

  /** Appending rows whose ids are distinct and new keeps event ids unique. */
  lemma AppendFreshRowsKeepIds(events: seq<Event>, rows: seq<Event>)
    requires UniqueEventIds(events) && UniqueEventIds(rows)
    requires forall e, r :: e in events && r in rows ==> e.id != r.id
    ensures UniqueEventIds(events + rows)
  {
    var all := events + rows;
    forall i, j | 0 <= i < j < |all|
      ensures EventIdOf(all[i]) != EventIdOf(all[j])
    {
      if j < |events| {
        assert all[i] == events[i] && all[j] == events[j];
      } else if i < |events| {
        assert all[i] in events && all[j] in rows;
      } else {
        assert all[i] == rows[i - |events|] && all[j] == rows[j - |events|];
      }
    }
  }

  /** Distinct fresh ids give seed rows that keep event ids unique. */
  lemma SeedRowsKeepIds(events: seq<Event>, toCreate: seq<HolidayDef>, userId: string, currentYear: int, ids: seq<string>)
    requires UniqueEventIds(events) && |ids| >= |toCreate|
    requires forall i, j :: 0 <= i < j < |ids| ==> ids[i] != ids[j]
    requires forall e, id :: e in events && id in ids ==> e.id != id
    ensures UniqueEventIds(events + SeedRows(toCreate, userId, currentYear, ids))
  {
    var rows := SeedRows(toCreate, userId, currentYear, ids);
    forall e, r | e in events && r in rows
      ensures e.id != r.id
    {
      var k :| 0 <= k < |rows| && rows[k] == r;
      assert r.id == ids[k] && ids[k] in ids;
    }
    forall i, j | 0 <= i < j < |rows|
      ensures EventIdOf(rows[i]) != EventIdOf(rows[j])
    {
      assert rows[i].id == ids[i] && rows[j].id == ids[j];
    }
    AppendFreshRowsKeepIds(events, rows);
  }

  /**
   * Seeding from a table: creates the entries whose title the user lacks
   * and returns how many; with nothing missing it writes nothing and
   * returns 0.  `nowMs` stands for the clock and `ids` for the ids the
   * database assigns.
   */
  method SeedFrom(db: Database, table: seq<HolidayDef>, userId: string, nowMs: int, ids: seq<string>)
    returns (created: nat)
    requires db.Valid()
    requires |ids| >= |table|
    requires forall i, j :: 0 <= i < j < |ids| ==> ids[i] != ids[j]
    requires forall e, id :: e in db.events && id in ids ==> e.id != id
    modifies db
    ensures db.Valid() && db.users == old(db.users) && db.subscriptions == old(db.subscriptions)
    ensures var toCreate := Missing(table, ExistingHolidayTitles(old(db.events), userId));
      && created == |toCreate|
      && db.events == old(db.events) + SeedRows(toCreate, userId, UtcParts(nowMs).year, ids)
    ensures created == 0 ==> db.events == old(db.events)
  {
    var existingTitles := ExistingHolidayTitles(db.events, userId);
    var toCreate := Missing(table, existingTitles);
    if |toCreate| == 0 {
      return 0;
    }
    var currentYear := UtcParts(nowMs).year;
    var rows := SeedRows(toCreate, userId, currentYear, ids);
    SeedRowsKeepIds(db.events, toCreate, userId, currentYear, ids);
    db.events := db.events + rows;
    created := |toCreate|;
  }

  /** `seedHolidaysForUser`: seeding from the built-in holiday list. */
  method SeedHolidaysForUser(db: Database, userId: string, nowMs: int, ids: seq<string>) returns (created: nat)
    requires db.Valid()
    requires |ids| >= |AllHolidays()|
    requires forall i, j :: 0 <= i < j < |ids| ==> ids[i] != ids[j]
    requires forall e, id :: e in db.events && id in ids ==> e.id != id
    modifies db
    ensures db.Valid() && db.users == old(db.users) && db.subscriptions == old(db.subscriptions)
    ensures var toCreate := Missing(AllHolidays(), ExistingHolidayTitles(old(db.events), userId));
      && created == |toCreate|
      && db.events == old(db.events) + SeedRows(toCreate, userId, UtcParts(nowMs).year, ids)
    ensures created == 0 ==> db.events == old(db.events)
  {
    created := SeedFrom(db, AllHolidays(), userId, nowMs, ids);
  }

  /** After a seed every title of the table is taken, so seeding again creates nothing. */
  lemma SeedIdempotent(table: seq<HolidayDef>, events: seq<Event>, userId: string, currentYear: int, ids: seq<string>)
    requires |ids| >= |table|
    ensures var toCreate := Missing(table, ExistingHolidayTitles(events, userId));
      Missing(table, ExistingHolidayTitles(events + SeedRows(toCreate, userId, currentYear, ids), userId)) == []
  {
    var toCreate := Missing(table, ExistingHolidayTitles(events, userId));
    var rows := SeedRows(toCreate, userId, currentYear, ids);
    var after := ExistingHolidayTitles(events + rows, userId);
    forall h | h in table
      ensures h.title in after
    {
      if h.title in ExistingHolidayTitles(events, userId) {
        var e :| e in events && e.userId == userId && e.eventType == Holiday && e.title == h.title;
        assert e in events + rows;
      } else {
        assert h in toCreate;
        var k :| 0 <= k < |toCreate| && toCreate[k] == h;
        assert rows[k] in events + rows;
      }
    }
    assert Count(table, TitleNotIn(after)) == 0;
  }
}
