/**
 * The UTC calendar arithmetic of the JavaScript `Date` object on the
 * proleptic Gregorian calendar.  A point in time is a number of
 * milliseconds since 1970-01-01T00:00:00Z; the day it falls on is that
 * number divided (rounding down) by the length of a day.  `CivilFromDays`
 * is what the `getUTCFullYear` / `getUTCMonth` / `getUTCDate` getters read,
 * `DaysFromCivil` is its inverse on valid dates, and `UtcDay` is the
 * normalising `Date.UTC(year, month, day)` constructor.
 */
module Calendar {

  /** A calendar date as the UTC getters report it: `month` is 0-based. */
  datatype Civil = Civil(year: int, month: int, day: int)

  const MsPerDay: int := 86400000

  predicate IsLeapYear(y: int) {
    y % 4 == 0 && (y % 100 != 0 || y % 400 == 0)
  }

  function DaysInYear(y: int): int {
    if IsLeapYear(y) then 366 else 365
  }

  function DaysInMonth(y: int, m: int): (n: int)
    requires 0 <= m < 12
    ensures 28 <= n <= 31
    ensures n == 29 <==> m == 1 && IsLeapYear(y)
  {
    if m == 1 then (if IsLeapYear(y) then 29 else 28)
    else if m == 3 || m == 5 || m == 8 || m == 10 then 30
    else 31
  }

  /** Days of year `y` before the first of month `m`; `m == 12` gives the year's length. */
  function DaysBeforeMonth(y: int, m: int): int
    requires 0 <= m <= 12
  {
    [0, 31, 59, 90, 120, 151, 181, 212, 243, 273, 304, 334, 365][m]
      + (if m >= 2 && IsLeapYear(y) then 1 else 0)
  }

  predicate ValidCivil(c: Civil) {
    0 <= c.month < 12 && 1 <= c.day <= DaysInMonth(c.year, c.month)
  }

  /**
   * Day number of January 1 of year `y`, counted from 1970-01-01 (day 0)
   * forward and backward one year length at a time.
   */
  function YearStart(y: int): int
    decreases if y >= 1970 then y - 1970 else 1970 - y
  {
    if y == 1970 then 0
    else if y > 1970 then YearStart(y - 1) + DaysInYear(y - 1)
    else YearStart(y + 1) - DaysInYear(y)
  }

  /** Day number of the date `(y, m, d)`, for a month in 0..11 and any day offset. */
  function DaysFromCivil(y: int, m: int, d: int): int
    requires 0 <= m < 12
  {
    YearStart(y) + DaysBeforeMonth(y, m) + d - 1
  }

  lemma DaysBeforeMonthStep(y: int, m: int)
    requires 0 <= m < 12
    ensures DaysBeforeMonth(y, m + 1) == DaysBeforeMonth(y, m) + DaysInMonth(y, m)
  {
  }

  /** Consecutive years start one year-length apart. */
  lemma YearStartStep(y: int)
    ensures YearStart(y + 1) == YearStart(y) + DaysInYear(y)
  {
  }

  /** Year starts grow by 365 or 366 days per year. */
  lemma {:induction false} YearStartMonotone(a: int, b: int)
    requires a <= b
    ensures YearStart(a) + 365 * (b - a) <= YearStart(b) <= YearStart(a) + 366 * (b - a)
    decreases b - a
  {
    if a < b {
      YearStartMonotone(a, b - 1);
      YearStartStep(b - 1);
    }
  }

  /**
   * The year whose span contains day `n`, searching from year `y` towards
   * `n` one year at a time.
   */
  function FindYear(n: int, y: int): (r: int)
    ensures YearStart(r) <= n < YearStart(r + 1)
    decreases if n < YearStart(y) then YearStart(y) - n
              else if n >= YearStart(y + 1) then n - YearStart(y + 1) + 1
              else 0
  {
    YearStartStep(y - 1);
    YearStartStep(y);
    YearStartStep(y + 1);
    if n < YearStart(y) then FindYear(n, y - 1)
    else if n >= YearStart(y + 1) then FindYear(n, y + 1)
    else y
  }

  /** The month of year `y` containing day `doy` of that year, searching upward from `m`. */
  function FindMonth(y: int, doy: int, m: int): (r: int)
    requires 0 <= m < 12 && DaysBeforeMonth(y, m) <= doy < DaysInYear(y)
    ensures m <= r < 12
    ensures DaysBeforeMonth(y, r) <= doy < DaysBeforeMonth(y, r + 1)
    decreases 12 - m
  {
    if m == 11 || doy < DaysBeforeMonth(y, m + 1) then m else FindMonth(y, doy, m + 1)
  }

  /** The UTC calendar date of day number `n`; `DaysFromCivil` undoes it. */
  function CivilFromDays(n: int): (c: Civil)
    ensures ValidCivil(c)
    ensures DaysFromCivil(c.year, c.month, c.day) == n
  {
    var y := FindYear(n, 1970);
    YearStartStep(y);
    var doy := n - YearStart(y);
    var m := FindMonth(y, doy, 0);
    DaysBeforeMonthStep(y, m);
    Civil(y, m, doy - DaysBeforeMonth(y, m) + 1)
  }

  /** A valid date lies inside its own year. */
  lemma DaysFromCivilInYear(c: Civil)
    requires ValidCivil(c)
    ensures YearStart(c.year) <= DaysFromCivil(c.year, c.month, c.day) < YearStart(c.year + 1)
  {
    DaysBeforeMonthStep(c.year, c.month);
    YearStartStep(c.year);
  }

  /** Later months of a year start no earlier. */
  lemma {:induction false} DaysBeforeMonthMonotone(y: int, m: int, m': int)
    requires 0 <= m <= m' <= 12
    ensures DaysBeforeMonth(y, m) <= DaysBeforeMonth(y, m')
    decreases m' - m
  {
    if m < m' {
      DaysBeforeMonthStep(y, m);
      DaysBeforeMonthMonotone(y, m + 1, m');
    }
  }

  /** Within one year, the offset of a valid date determines its month and day. */
  lemma DayOfYearInjective(y: int, m: int, d: int, m': int, d': int)
    requires ValidCivil(Civil(y, m, d)) && ValidCivil(Civil(y, m', d'))
    requires DaysBeforeMonth(y, m) + d == DaysBeforeMonth(y, m') + d'
    ensures m == m' && d == d'
  {
    if m < m' {
      DaysBeforeMonthStep(y, m);
      DaysBeforeMonthMonotone(y, m + 1, m');
    } else if m' < m {
      DaysBeforeMonthStep(y, m');
      DaysBeforeMonthMonotone(y, m' + 1, m);
    }
  }

  /** Distinct valid dates have distinct day numbers. */
  lemma DaysFromCivilInjective(a: Civil, b: Civil)
    requires ValidCivil(a) && ValidCivil(b)
    requires DaysFromCivil(a.year, a.month, a.day) == DaysFromCivil(b.year, b.month, b.day)
    ensures a == b
  {
    DaysFromCivilInYear(a);
    DaysFromCivilInYear(b);
    YearSpansDisjoint(a.year, b.year, DaysFromCivil(a.year, a.month, a.day));
    DayOfYearInjective(a.year, a.month, a.day, b.month, b.day);
  }

  /** Reading a valid date back from its day number gives the same date. */
  lemma CivilRoundTrip(c: Civil)
    requires ValidCivil(c)
    ensures CivilFromDays(DaysFromCivil(c.year, c.month, c.day)) == c
  {
    var c' := CivilFromDays(DaysFromCivil(c.year, c.month, c.day));
    DaysFromCivilInjective(c, c');
  }

  /** The spans of distinct years do not overlap. */
  lemma YearSpansDisjoint(a: int, b: int, n: int)
    requires YearStart(a) <= n < YearStart(a + 1)
    requires YearStart(b) <= n < YearStart(b + 1)
    ensures a == b
  {
    if a < b {
      YearStartMonotone(a + 1, b);
    } else if b < a {
      YearStartMonotone(b + 1, a);
    }
  }

  /** Day numbers are ordered like years: a day inside year `y`'s span has year `y`. */
  lemma YearOfDay(n: int, y: int)
    requires YearStart(y) <= n < YearStart(y + 1)
    ensures CivilFromDays(n).year == y
  {
    var c := CivilFromDays(n);
    DaysFromCivilInYear(c);
    YearSpansDisjoint(c.year, y, n);
  }

  // ---------------------------------------------------------------------
  // The Date object's own operations

  /** The day a millisecond time value falls on (UTC). */
  function DayOf(ms: int): int {
    ms / MsPerDay
  }

  /** Midnight of day `n` falls on day `n`. */
  lemma DayOfMidnight(n: int)
    ensures DayOf(n * MsPerDay) == n
    ensures (n * MsPerDay) % MsPerDay == 0
  {
  }

  /** The time value of midnight (UTC) starting day `n`. */
  function Midnight(n: int): (ms: int)
    ensures ms % MsPerDay == 0
    ensures DayOf(ms) == n
  {
    DayOfMidnight(n);
    n * MsPerDay
  }

  /** The UTC getters (`getUTCFullYear`, `getUTCMonth`, `getUTCDate`) of a time value. */
  function UtcParts(ms: int): (c: Civil)
    ensures ValidCivil(c)
  {
    CivilFromDays(DayOf(ms))
  }

  /** The year `Date.UTC` and the multi-argument `Date` constructor use: 0..99 means 1900..1999. */
  function FullYear(y: int): int {
    if 0 <= y <= 99 then 1900 + y else y
  }

  /**
   * The ECMAScript MakeDay operation: the day of `(y, m, d)` where the month
   * overflows into the year and the day into the following (or preceding)
   * months.  `setUTCDate` uses it directly.
   */
  function MakeDay(y: int, m: int, d: int): int {
    DaysFromCivil(y + m / 12, m % 12, 1) + d - 1
  }

  /** For an in-range month, `MakeDay` only lets the day overflow. */
  lemma MakeDayInRange(y: int, m: int, d: int)
    requires 0 <= m < 12
    ensures MakeDay(y, m, d) == DaysFromCivil(y, m, d)
  {
    assert m / 12 == 0 && m % 12 == m;
  }

  /** The day `Date.UTC(y, m, d)` (and the multi-argument `Date` constructor) denotes. */
  function UtcDay(y: int, m: int, d: int): int {
    MakeDay(FullYear(y), m, d)
  }

  /** `Date.UTC` of an in-range date outside years 0..99 is that date's day number. */
  lemma UtcDayOfValid(c: Civil)
    requires ValidCivil(c) && !(0 <= c.year <= 99)
    ensures UtcDay(c.year, c.month, c.day) == DaysFromCivil(c.year, c.month, c.day)
    ensures CivilFromDays(UtcDay(c.year, c.month, c.day)) == c
  {
    CivilRoundTrip(c);
  }

  /** `Date.UTC(y, 1, 29)` in a common year overflows to March 1. */
  lemma LeapDayOverflow(y: int)
    requires !IsLeapYear(y) && !(0 <= y <= 99)
    ensures CivilFromDays(UtcDay(y, 1, 29)) == Civil(y, 2, 1)
  {
    CivilRoundTrip(Civil(y, 2, 1));
  }

  /** Day `0` of month `m + 1` is the last day of month `m`, which is how the source gets month lengths. */
  lemma LastDayOfMonth(y: int, m: int)
    requires 0 <= m < 12 && !(0 <= y <= 99)
    ensures CivilFromDays(UtcDay(y, m + 1, 0)) == Civil(y, m, DaysInMonth(y, m))
  {
    var last := Civil(y, m, DaysInMonth(y, m));
    assert UtcDay(y, m + 1, 0) == DaysFromCivil(y, m, DaysInMonth(y, m)) by {
      if m < 11 {
        assert (m + 1) / 12 == 0 && (m + 1) % 12 == m + 1;
        DaysBeforeMonthStep(y, m);
      } else {
        assert (m + 1) / 12 == 1 && (m + 1) % 12 == 0;
        YearStartStep(y);
      }
    }
    CivilRoundTrip(last);
  }

  /** Day of the week (0 = Sunday) of a day number; 1970-01-01 was a Thursday. */
  function WeekDay(n: int): (w: int)
    ensures 0 <= w < 7
  {
    (n + 4) % 7
  }
}
