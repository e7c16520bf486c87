# memodate — a verified model of its core

memodate is a small web app for remembering dates: birthdays, anniversaries,
holidays and other events. Users store events, and each event has:

- a date;
- a "recurring" flag (every year on the same month and day);
- a lead time in days (`daysBeforeAlert`).

Once a day an external scheduler calls the cron route. For every user that
route does the following:

- works out "today" in the user's time zone;
- selects the events whose alert falls on that day;
- sends a Web Push message to each of the user's subscriptions;
- prunes subscriptions that the push service reports as gone (404/410).

The rest of the core has five parts:

- the server actions that create, update, delete and list events (with
  input validation and ownership scoping);
- the dashboard's countdown and ordering, its month grid and day buckets;
- seeding a user's calendar with Brazilian holidays;
- the push-subscription endpoints;
- a few small client-side rules: labels, the swipe-to-delete gesture,
  base64url key decoding and the sign-in gate.

The model is organised by source file. These modules hold shared machinery:

- `Calendar`: proleptic Gregorian day numbers and their civil dates, plus the
  normalising `Date.UTC`.
- `Store`: the three database tables, kept as sequences in one `Database`
  class.
- `Delivery`: the send-and-prune step shared by the cron route and the test
  route.
- `Text`: decimal conversion, trimming and padding.
- `Seqs`: filtering and counting.
- `Sorting`: an insertion sort parameterised by a total preorder.
- `Wrappers`: `Option`.

Each of the other modules models one source file:

| module | source file |
|---|---|
| `DailyCron` | src/app/api/cron/daily/route.ts |
| `EventActions` | src/lib/actions/events.ts |
| `DashboardPage` | src/app/dashboard/page.tsx |
| `DashboardContent` | src/components/DashboardContent.tsx |
| `Holidays` | src/lib/holidays.ts |
| `PushSubscribe` | src/app/api/push/subscribe/route.ts |
| `PushTest` | src/app/api/push/test/route.ts |
| `EventDetailModal` | src/components/EventDetailModal.tsx |
| `EventCard` | src/components/EventCard.tsx |
| `Base64Url` | src/components/NotificationPrompt.tsx |
| `Middleware` | src/middleware.ts |

Parts of the model take a particular form:

- **Dates** are integer milliseconds since the epoch, as in JavaScript. A day
  number is `ms / 86400000`, and the UTC getters are
  `Calendar.CivilFromDays` of that day number.
- **Code that changes state** is written as methods:
  - the route handlers and server actions, on a `Database` object;
  - the calendar's month navigation, as the `CalendarView` class;
  - the swipe gesture, as the `Swipe` class.
- **Loops in the source** are loops in the model:
  - the delivery loops;
  - the grid padding `while` loop;
  - the `eventsByDay` loop;
  - the byte-copy loop.
  
  Each loop carries invariants that tie it to a specification function.
- **Foreign calls** are function parameters:
  - the Intl time-zone lookup (`ZoneLookup`);
  - the web-push transport (`Transport`);
  - `new Date(string)` for form input (`DateParser`);
  - `window.atob` (`Atob`).

Three behaviours of the code are easy to misread; the model follows the code:

- `removed` counts failed 404/410 send attempts, not rows deleted. A
  subscription pruned while sending one event is still in the per-user
  snapshot, so it is attempted again for the next due event. It can then be
  counted again (`DailyCron.CronOutcomeCounts`).
- The title is cut to 200 characters after trimming, so the stored title can
  end in whitespace (`EventActions.CleanTitle`).
- On a time-zone failure, "today" falls back to midnight UTC of the current
  UTC date. It does not fall back to the user's local date
  (`DailyCron.GetTodayInTimezone`).

## Model

| member | source | states |
|---|---|---|
| Calendar.CivilFromDays | src/app/api/cron/daily/route.ts:31-35 | the UTC year, month and day of a day number form a valid civil date that maps back to the same day number |
| Calendar.CivilRoundTrip | src/app/api/cron/daily/route.ts:31-35 | every valid civil date is recovered from its day number |
| Calendar.DaysFromCivilInjective | src/app/api/cron/daily/route.ts:30-36 | two valid civil dates with the same day number are equal |
| Calendar.UtcParts | src/components/DashboardContent.tsx:61-67 | the UTC getters of a timestamp always give a valid civil date |
| Calendar.MakeDayInRange | src/app/api/cron/daily/route.ts:26 | for an in-range month the normalising `Date.UTC` day equals the civil day number |
| Calendar.UtcDayOfValid | src/app/api/cron/daily/route.ts:46-48 | `Date.UTC` of a valid date outside years 0..99 converts back to that date |
| Calendar.LeapDayOverflow | src/app/api/cron/daily/route.ts:46-48 | `Date.UTC(y, 1, 29)` in a non-leap year is March 1 of that year |
| Calendar.LastDayOfMonth | src/components/DashboardContent.tsx:73 | day 0 of the next month is the last day of this month |
| Calendar.DaysInMonth | src/components/DashboardContent.tsx:73 | a month has 28..31 days, and 29 exactly for February of a leap year |
| Calendar.YearStartMonotone | src/app/api/cron/daily/route.ts:44-53 | a span of years has between 365 and 366 days per year |
| Calendar.WeekDay | src/components/DashboardContent.tsx:72 | the weekday is in 0..6 |
| Calendar.DayOfMidnight | src/app/api/cron/daily/route.ts:20 | midnight of day n is on day n and is a whole number of days |
| DailyCron.GetTodayInTimezone | src/app/api/cron/daily/route.ts:5-22 | the result is a UTC midnight; when the zone lookup fails it is today's UTC date; when it succeeds it is the zone's civil date |
| DailyCron.SubtractDays | src/app/api/cron/daily/route.ts:24-28 | subtracting n days moves the timestamp back exactly n whole days, across month and year boundaries |
| DailyCron.SameDay | src/app/api/cron/daily/route.ts:30-36 | two timestamps are the same day iff their UTC day numbers are equal (hence reflexive and symmetric) |
| DailyCron.AlertFires | src/app/api/cron/daily/route.ts:49-58 | an alert fires iff today is the occurrence day minus the lead time |
| DailyCron.NonRecurringFiresExactlyOnAlertDay | src/app/api/cron/daily/route.ts:55-58 | a one-off event notifies exactly on the day that is its date minus the lead time |
| DailyCron.RecurringFiresOnAnniversaryAlertDay | src/app/api/cron/daily/route.ts:44-53 | a recurring event notifies iff today is the alert day of its occurrence in this year or next year |
| DailyCron.RecurringIgnoresStoredYear | src/app/api/cron/daily/route.ts:44-53 | two recurring events with the same month, day and lead time notify on the same days whatever their stored years |
| DailyCron.TwoYearWindowIsComplete | src/app/api/cron/daily/route.ts:44-53 | with a lead time in 0..365, every anniversary whose alert day is today is caught by the two-year window |
| DailyCron.WindowCovers | src/app/api/cron/daily/route.ts:44-53 | an alert day lies in the occurrence's year or the year before it |
| DailyCron.AlertDayYear | src/app/api/cron/daily/route.ts:44-53 | a day at most 365 days before a day of year y lies in year y-1 or y |
| DailyCron.LeapDayAnniversaryMovesToMarchFirst | src/app/api/cron/daily/route.ts:46-48 | a recurring Feb 29 event's occurrence in a non-leap year is March 1 |
| DailyCron.MessageRoundTrip | src/app/api/cron/daily/route.ts:61-69 | the lead time can be read back from the message for every lead time: "Hoje é T!", "T é amanhã!" or "T em N dias" |
| DailyCron.BuildMessageInjective | src/app/api/cron/daily/route.ts:61-69 | different lead times give different messages |
| DailyCron.BuildPayload | src/app/api/cron/daily/route.ts:94-99 | the payload carries the message, the tag `event-<id>` and the url `/dashboard` |
| DailyCron.PayloadTagsDistinct | src/app/api/cron/daily/route.ts:97 | events with different ids get different tags |
| DailyCron.UnsetSecretAcceptsUndefined | src/app/api/cron/daily/route.ts:72-75 | with `CRON_SECRET` unset, the header `Bearer undefined` is accepted and a missing header is not |
| DailyCron.SnapshotOf | src/app/api/cron/daily/route.ts:77-82 | a user's snapshot holds exactly that user's events and subscriptions |
| DailyCron.Snapshot | src/app/api/cron/daily/route.ts:77-82 | one snapshot per user, in user order |
| DailyCron.EventAttempts | src/app/api/cron/daily/route.ts:101-120 | every due event is sent to every snapshot subscription: there are exactly due×subs attempts |
| DailyCron.EventAttemptsStep | src/app/api/cron/daily/route.ts:101-103 | one more due event appends one round of sends to all subscriptions |
| DailyCron.UserAttempts | src/app/api/cron/daily/route.ts:88 | a user without subscriptions is sent nothing |
| DailyCron.UserAttemptsExactly | src/app/api/cron/daily/route.ts:87-103 | an attempt is made for a user iff it pairs a snapshot subscription with the payload of an event due today in the user's zone |
| DailyCron.BatchAttemptsExactly | src/app/api/cron/daily/route.ts:87-121 | the batch attempts exactly the justified (user, subscription, due event) sends |
| DailyCron.CronOutcomeCounts | src/app/api/cron/daily/route.ts:84-124 | `sent` counts successful attempts, `removed` counts 404/410 attempts, the table keeps exactly the rows whose endpoint never came back gone, and endpoints stay unique |
| DailyCron.NotifyUser | src/app/api/cron/daily/route.ts:87-121 | one user's pass updates the counters and the table exactly as the delivery fold over that user's attempts |
| DailyCron.DailyCronGet | src/app/api/cron/daily/route.ts:71-125 | a bad bearer token gives 401 and changes nothing; otherwise the response counts and the new table are those of the batch outcome |
| Delivery.RunSnoc | src/app/api/cron/daily/route.ts:101-120 | the fold over one more attempt is one more step |
| Delivery.RunAppend | src/app/api/cron/daily/route.ts:87-121 | the fold over two runs of attempts is the second fold started from the first's result |
| Delivery.SendToAll | src/app/api/cron/daily/route.ts:103 | one attempt per subscription, in order, all with the same payload |
| Delivery.RunCounts | src/app/api/cron/daily/route.ts:104-119 | after a run, sent has grown by the successes, removed by the gone attempts, and the table has lost exactly the rows with a gone endpoint |
| Delivery.SentAtMostAttempts | src/app/api/cron/daily/route.ts:104-119 | neither counter grows by more than the number of attempts |
| Delivery.EveryGoneAttemptCounts | src/app/api/cron/daily/route.ts:112-118 | when every attempt comes back gone, removed grows by one per attempt, including repeated endpoints, and sent is unchanged |
| Delivery.RunKeepsUnique | src/app/api/cron/daily/route.ts:112-118 | pruning keeps endpoints unique |
| Delivery.Deliver | src/app/api/cron/daily/route.ts:104-119 | one send: success adds one to sent; 404/410 deletes every row with that endpoint and adds one to removed; any other failure changes nothing |
| Delivery.Broadcast | src/app/api/push/test/route.ts:30-49 | sending one payload to a list of subscriptions is the fold of single sends |
| Store.DeleteByEndpoint | src/app/api/cron/daily/route.ts:113-115 | deleting by endpoint keeps exactly the rows with another endpoint |
| Store.DeleteByEndpointKeepsUnique | src/app/api/cron/daily/route.ts:113-115 | the deletion keeps endpoints unique |
| Store.Database.DeleteSubscriptionsByEndpoint | src/app/api/push/test/route.ts:43-45 | the table becomes the deletion and the other tables are unchanged |
| EventActions.ParseEventType | src/lib/actions/events.ts:9-25 | a type is accepted iff it is one of BIRTHDAY, ANNIVERSARY, HOLIDAY, OTHER |
| EventActions.EventTypeRoundTrip | src/lib/actions/events.ts:9 | every event type's name parses back to that type |
| EventActions.LeadTime | src/lib/actions/events.ts:16-20 | the lead time is in 0..365; non-numeric input gives 1; numbers are clamped into range |
| EventActions.CleanTitle | src/lib/actions/events.ts:12 | the title is exactly the first min(length, 200) characters of the trimmed input |
| EventActions.CleanNotes | src/lib/actions/events.ts:21-22 | notes are null iff absent or empty, and otherwise exactly the first min(length, 1000) characters of the input |
| EventActions.ParseEventFields | src/lib/actions/events.ts:11-29 | the fields are accepted iff the title has ≥2 characters, the date is non-empty and parses, and the type is valid; then the title, lead time and notes are in bounds, and recurring holds iff the field is exactly "true"; the accepted record is exactly the cleaned title, the date string, the parsed type, the recurring flag, the clamped lead time and the cleaned notes |
| EventActions.OwnEventsByDate | src/lib/actions/events.ts:31-39 | the list is a permutation of the caller's events, ordered by ascending date |
| EventActions.GetEvents | src/lib/actions/events.ts:31-39 | signed out gives no events; signed in gives the caller's events by date |
| EventActions.FindOwned | src/lib/actions/events.ts:41-48 | the result, if any, is an event with that id owned by the caller; none means no such event exists |
| EventActions.GetEvent | src/lib/actions/events.ts:41-48 | signed out gives nothing; signed in gives the caller's event with that id |
| EventActions.AppendFreshKeepsIds | src/lib/actions/events.ts:57-67 | adding a row with a fresh id keeps ids unique |
| EventActions.CreateEvent | src/lib/actions/events.ts:50-71 | signed out or invalid fields write nothing; otherwise exactly one owned row is appended and "saved" is reported |
| EventActions.ApplyUpdate | src/lib/actions/events.ts:86-96 | exactly the row with that id is rewritten from the fields, keeping its owner |
| EventActions.ApplyUpdateKeepsIds | src/lib/actions/events.ts:86-96 | updating keeps ids unique |
| EventActions.UpdateEvent | src/lib/actions/events.ts:73-100 | signed out, invalid fields or a row the caller does not own change nothing; otherwise only that row is rewritten |
| EventActions.UpdateOnlyTouchesOwnEvent | src/lib/actions/events.ts:77-84 | other users' events survive an update |
| EventActions.DeleteOwnedEvent | src/lib/actions/events.ts:106-108 | exactly the rows matching both the id and the caller are removed |
| EventActions.DeleteOwnedEventKeepsIds | src/lib/actions/events.ts:106-108 | deletion keeps ids unique |
| EventActions.DeleteEvent | src/lib/actions/events.ts:102-112 | signed out changes nothing; signed in removes only the caller's row with that id and reports "deleted" |
| EventActions.DeleteEventById | src/lib/actions/events.ts:115-124 | signed out changes nothing; signed in removes only the caller's row with that id |
| EventActions.SetTimezone | src/lib/actions/events.ts:130-133 | only the caller's user row changes, and only its time zone |
| EventActions.UpdateTimezone | src/lib/actions/events.ts:126-134 | signed out changes nothing; signed in sets the caller's time zone |
| Sorting.Insert | src/app/dashboard/page.tsx:50-56 | insertion adds exactly one element |
| Sorting.InsertSorted | src/app/dashboard/page.tsx:50-56 | inserting into a sorted list keeps it sorted |
| Sorting.SortBy | src/app/dashboard/page.tsx:50-56 | the sort returns a sorted permutation of its input |
| DashboardPage.DaysUntil | src/app/dashboard/page.tsx:39-40 | for a one-off event the countdown is the signed difference of day numbers |
| DashboardPage.RecurringCountsToNextOccurrence | src/app/dashboard/page.tsx:31-36 | a recurring countdown is non-negative, counts to this year's occurrence unless it is past, and then counts to next year's |
| DashboardPage.NextYearOccurrenceIsLater | src/app/dashboard/page.tsx:33-35 | next year's occurrence is always after today |
| DashboardPage.RecurringZeroOnAnniversary | src/app/dashboard/page.tsx:31-36 | a recurring countdown is 0 iff today has the event's month and day |
| DashboardPage.CompareAntisymmetric | src/app/dashboard/page.tsx:50-56 | swapping the arguments negates the comparator |
| DashboardPage.RowLeTotalPreorder | src/app/dashboard/page.tsx:50-56 | the comparator's order is total and transitive |
| DashboardPage.Annotate | src/app/dashboard/page.tsx:49 | each event is paired with its countdown, in order |
| DashboardPage.DashboardRows | src/app/dashboard/page.tsx:48-56 | the list is a permutation of the annotated events, future ones before past ones, and ascending in days within each group |
| DashboardContent.GetEventDayInMonth | src/components/DashboardContent.tsx:56-69 | a day is returned iff the month matches and, for a one-off event, the year too; it is the event's UTC day |
| DashboardContent.OneOffShownOnItsDate | src/components/DashboardContent.tsx:65-67 | a one-off event shows on day d of a month iff that date is its date |
| DashboardContent.RecurringShownOnAnniversary | src/components/DashboardContent.tsx:62-63 | a recurring event shows on its month and day in every year |
| DashboardContent.FirstWeekDay | src/components/DashboardContent.tsx:72 | the first weekday is in 0..6 |
| DashboardContent.MonthLength | src/components/DashboardContent.tsx:73 | the month length is in 1..31 |
| DashboardContent.MonthLengthIsDaysInMonth | src/components/DashboardContent.tsx:73 | the month length equals the calendar's days in that month |
| DashboardContent.PaddedIsGrid | src/components/DashboardContent.tsx:74-79 | the unpadded cells are the leading blanks, then days 1..n, and fit in six weeks |
| DashboardContent.NextWeekBoundary | src/components/DashboardContent.tsx:79 | the padding target is the least multiple of 7 not below the current length |
| DashboardContent.BuildCalendarDays | src/components/DashboardContent.tsx:71-81 | the grid length is a multiple of 7 and at most 42: exactly `firstDay` blanks, then 1..n in order, then fewer than 7 blanks |
| DashboardContent.BucketAtSnoc | src/components/DashboardContent.tsx:120-125 | filing one more event keeps each day's bucket equal to that day's events |
| DashboardContent.BucketsSnoc | src/components/DashboardContent.tsx:120-125 | filing one more event keeps every bucket correct |
| DashboardContent.BucketsAreDays | src/components/DashboardContent.tsx:119-126 | correct buckets are exactly the days that have events, each holding those events in input order |
| DashboardContent.EventsByDay | src/components/DashboardContent.tsx:119-126 | a day has a bucket iff some event falls on it, and the bucket holds exactly that day's events in input order |
| DashboardContent.DayEventsAreTheDaysEvents | src/components/DashboardContent.tsx:128 | the selected day's list is exactly that day's events, in input order |
| DashboardContent.FilterByType | src/components/DashboardContent.tsx:111-112 | ALL keeps every event; a type keeps exactly the events of that type |
| DashboardContent.Badge | src/components/DashboardContent.tsx:103-108 | the badge is cleared iff no event is 0..30 days away, and otherwise set to the number of such events |
| DashboardContent.MonthBefore | src/components/DashboardContent.tsx:130-136 | the previous month is one month earlier, wrapping January to December of the year before |
| DashboardContent.MonthAfter | src/components/DashboardContent.tsx:137-143 | the next month is one month later, wrapping December to January of the next year |
| DashboardContent.NavigationInverse | src/components/DashboardContent.tsx:130-143 | next after previous, and previous after next, return to the same month |
| DashboardContent.CalendarView.constructor | src/components/DashboardContent.tsx:87-90 | the view opens on today's month with today selected |
| DashboardContent.CalendarView.PrevMonth | src/components/DashboardContent.tsx:130-136 | the view moves to the previous month and the selection is cleared |
| DashboardContent.CalendarView.NextMonth | src/components/DashboardContent.tsx:137-143 | the view moves to the next month and the selection is cleared |
| DashboardContent.CalendarView.TapDay | src/components/DashboardContent.tsx:274 | tapping the selected day deselects it; tapping another day selects it |
| Holidays.FixedHolidaysShape | src/lib/holidays.ts:15-95 | the 13 fixed holidays are recurring, have no year and no notes, and fall on valid dates |
| Holidays.MoveableHolidaysShape | src/lib/holidays.ts:98-153 | the 6 moveable holidays are one-off, in 2026, with a note |
| Holidays.AlertLeadTimes | src/lib/holidays.ts:15-153 | every holiday alerts 1 or 7 days ahead |
| Holidays.TitlesDistinct | src/lib/holidays.ts:155 | the 19 holiday titles are pairwise distinct |
| Holidays.ExistingHolidayTitles | src/lib/holidays.ts:158-163 | the set holds exactly the titles of the user's HOLIDAY events |
| Holidays.Missing | src/lib/holidays.ts:164 | a holiday is to be created iff its title is not already taken |
| Holidays.SeedYear | src/lib/holidays.ts:172 | the year is the holiday's own year if it has one, else the current year |
| Holidays.TwoDigitsValue | src/lib/holidays.ts:176 | a month or day below 100 is recovered from the two digits written for it |
| Holidays.DateStringShape | src/lib/holidays.ts:176 | the date string is the year followed by the fixed 20-character `-MM-DDT12:00:00.000Z` tail |
| Holidays.DateStringRoundTrip | src/lib/holidays.ts:176 | year, month and day can be read back from the `YYYY-MM-DDT12:00:00.000Z` string |
| Holidays.NoonUtcOnItsDate | src/lib/holidays.ts:176 | the stored instant is on the holiday's own UTC date |
| Holidays.SeedRows | src/lib/holidays.ts:170-183 | one row per missing holiday, in order |
| Holidays.SeedRowsAreHolidays | src/lib/holidays.ts:170-183 | created rows belong to the user, have type HOLIDAY, keep title, recurrence and lead time, and default notes to null |
| Holidays.SeedRowsKeepIds | src/lib/holidays.ts:170-183 | created rows with fresh ids keep ids unique |
| Holidays.SeedFrom | src/lib/holidays.ts:157-186 | the number created is the number missing; the events gain exactly the seed rows; nothing missing writes nothing |
| Holidays.SeedHolidaysForUser | src/lib/holidays.ts:157-186 | seeding the full table creates exactly the missing holidays and returns their number |
| Holidays.SeedIdempotent | src/lib/holidays.ts:158-166 | after one seed, a second seed finds nothing missing |
| PushSubscribe.UpdateKeys | src/app/api/push/subscribe/route.ts:16 | only the keys of rows with that endpoint change |
| PushSubscribe.UpsertUpdatesInPlace | src/app/api/push/subscribe/route.ts:13-17 | an existing endpoint has its keys replaced in place and keeps its owner |
| PushSubscribe.UpsertCreatesOwnedRow | src/app/api/push/subscribe/route.ts:15 | a new endpoint gets one row, owned by the caller, appended |
| PushSubscribe.UpsertKeepsUnique | src/app/api/push/subscribe/route.ts:13-17 | after the upsert exactly one row has that endpoint |
| PushSubscribe.DeleteOwned | src/app/api/push/subscribe/route.ts:30-32 | exactly the rows matching both the endpoint and the caller are removed |
| PushSubscribe.DeleteOwnedKeepsUnique | src/app/api/push/subscribe/route.ts:30-32 | the deletion keeps endpoints unique |
| PushSubscribe.SubscribePost | src/app/api/push/subscribe/route.ts:5-20 | signed out gives 401 and changes nothing; otherwise the table becomes the upsert |
| PushSubscribe.SubscribeDelete | src/app/api/push/subscribe/route.ts:22-35 | signed out gives 401 and changes nothing; otherwise only the caller's row for that endpoint goes |
| PushTest.TestOutcomeCounts | src/app/api/push/test/route.ts:30-51 | `sent` counts the successes and is at most the caller's subscriptions; gone endpoints are pruned and the rest kept |
| PushTest.TestSendsOnlyToOwner | src/app/api/push/test/route.ts:12-30 | the test payload goes only to the caller's subscriptions |
| PushTest.TestGet | src/app/api/push/test/route.ts:6-52 | signed out gives 401 and no sends; no subscriptions gives 404 and no sends; otherwise it reports sent and total and prunes gone rows |
| EventDetailModal.CountBeforeOf | src/components/EventDetailModal.tsx:24 | the number in front of a suffix is read back |
| EventDetailModal.GeneralLabelIsNotNamed | src/components/EventDetailModal.tsx:19-24 | an "n dias antes" label never equals a named label |
| EventDetailModal.AlertLabelRoundTrip | src/components/EventDetailModal.tsx:18-25 | for every integer the label reads back to it: 0, 1, 7, 14 and 30 have their own labels, and the rest are "n dias antes" |
| EventDetailModal.AlertLabelInjective | src/components/EventDetailModal.tsx:18-25 | different lead times get different labels |
| EventCard.DaysLabel | src/components/EventCard.tsx:19-47 | the label is muted iff the event passed or is more than 7 days away, and marked today iff it is 0 days away |
| EventCard.DaysLabelRoundTrip | src/components/EventCard.tsx:19-47 | a negative count shows "passou", and a non-negative count reads back from "hoje!", "amanhã" or "em N dias" |
| EventCard.ReminderRoundTrip | src/components/EventCard.tsx:157-161 | the reminder text reads back to its lead time: "no dia", "1 dia antes", or "n dias antes" |
| EventCard.SingularIsNotPlural | src/components/EventCard.tsx:159-161 | the singular form is never read as a plural |
| EventCard.ReminderMatchesDetailLabel | src/components/EventCard.tsx:157-161 | for positive lead times other than 7, 14 and 30 the card and the detail sheet say the same |
| EventCard.MoveOffset | src/components/EventCard.tsx:97-102 | the offset follows the drag, clamped to −72..0, and is 0 for a rightward drag |
| EventCard.SnapOffset | src/components/EventCard.tsx:106-111 | releasing snaps to −72 iff the offset reached −48, else to 0 |
| EventCard.SnapIdempotent | src/components/EventCard.tsx:106-111 | snapping a snapped offset changes nothing |
| EventCard.DragThenRelease | src/components/EventCard.tsx:95-111 | a drag of dx followed by release opens the action exactly when dx ≤ −48 |
| EventCard.Swipe.constructor | src/components/EventCard.tsx:60-67 | the card starts closed and not dragging |
| EventCard.Swipe.TouchStart | src/components/EventCard.tsx:90-93 | the start position is recorded and dragging begins |
| EventCard.Swipe.TouchMove | src/components/EventCard.tsx:95-103 | while dragging, the offset becomes the clamped drag distance; otherwise nothing changes |
| EventCard.Swipe.TouchEnd | src/components/EventCard.tsx:105-112 | dragging stops and the offset snaps |
| EventCard.Swipe.OpenDeleteSheet | src/components/EventCard.tsx:71-77 | opening the sheet resets the offset to 0 |
| EventCard.Swipe.CloseDeleteSheet | src/components/EventCard.tsx:79-82 | closing the sheet leaves the offset alone |
| Base64Url.PadCount | src/components/NotificationPrompt.tsx:8 | the padding is 0..3 characters, brings the length to a multiple of 4, and is 0 for aligned input |
| Base64Url.PadCountUnique | src/components/NotificationPrompt.tsx:8 | it is the only such amount |
| Base64Url.Padded | src/components/NotificationPrompt.tsx:8 | the padded string extends the input by '=' only, to a multiple of 4 |
| Base64Url.ToStandard | src/components/NotificationPrompt.tsx:9 | '-' becomes '+', '_' becomes '/', everything else is unchanged, and no '-' or '_' remains |
| Base64Url.ToStandardRoundTrip | src/components/NotificationPrompt.tsx:9 | on url-safe input the mapping is undone by the reverse mapping |
| Base64Url.Base64Of | src/components/NotificationPrompt.tsx:8-9 | the standard string's length is a multiple of 4 and exceeds the input by at most 3 |
| Base64Url.Base64OfShape | src/components/NotificationPrompt.tsx:8-9 | the standard string is the mapped input followed by '=' padding |
| Base64Url.UrlBase64ToUint8Array | src/components/NotificationPrompt.tsx:7-16 | a decoding failure is reported; otherwise a fresh array of the decoded length holds each decoded char code as a byte |
| Middleware.SignedInPasses | src/middleware.ts:20 | a signed-in request always passes |
| Middleware.OpenPathsPass | src/middleware.ts:6-13 | `/`, `/login…` and `/api/auth…` pass whatever the session |
| Middleware.RedirectExactly | src/middleware.ts:4-27 | a request is redirected to /login iff it is signed out, matched and not open |
| Middleware.NoRedirectLoop | src/middleware.ts:17 | the redirect target itself passes |
| Middleware.WorkerAndManifestBypass | src/middleware.ts:25 | the service worker and the manifest are never gated |
| Middleware.SchedulerIsRedirected | src/middleware.ts:4-27 | as written, the scheduler's request to /api/cron/daily, which has no session, is redirected to /login |
| Middleware.CronReachesRoute | src/middleware.ts:4-27 | with /api/cron left open, the scheduler reaches the route and all other requests are gated as before |
| Text.NatToStringRoundTrip | src/app/api/cron/daily/route.ts:68 | a decimal numeral reads back to its number |
| Text.ParseIntOfIntToString | src/lib/actions/events.ts:16 | `parseInt` of the decimal form of an integer is that integer |
| Text.Trim | src/lib/actions/events.ts:12 | the result is the slice of the input between a leading and a trailing run of whitespace, and it neither starts nor ends with whitespace |
| Text.MiddleSlice | src/lib/actions/events.ts:12 | removing a whitespace prefix and then a whitespace suffix leaves the slice between the two runs |
| Text.TrimIdempotent | src/lib/actions/events.ts:12 | trimming twice is trimming once |
| Text.PadStart2 | src/lib/holidays.ts:176 | the result is the input left-padded with '0' to at least two characters |

## Left out

- Invalid dates. `new Date(NaN)`, TimeClip beyond ±8.64e15 ms, and date strings
  that parse to NaN are not modelled; `DateParser` returns `None` for what the
  source rejects at src/lib/actions/events.ts:26.
- Years 0..99. `Date.UTC` and `new Date(y, m, d)` map them to 1900..1999.
  These years are excluded by preconditions wherever the calendar is inverted:
  - DailyCron.NonRecurringFiresExactlyOnAlertDay;
  - DailyCron.TwoYearWindowIsComplete;
  - DashboardPage.RecurringCountsToNextOccurrence;
  - DashboardContent.MonthLengthIsDaysInMonth.
- Host time zone. The dashboard's `new Date()`, `setHours(0,0,0,0)` and
  `new Date(y, m, d)` use the host's local time, which the model takes to be
  UTC. So does the holiday seeding: its default year is `getFullYear()` in
  host-local time (src/lib/holidays.ts:168), and the model takes the UTC year
  of the given instant. Near New Year the two can differ on a host not on UTC.
- DailyCron: the batch reads the clock once. The source calls `new Date()`
  inside `getTodayInTimezone` (src/app/api/cron/daily/route.ts:6), once per
  user (lines 87-90), so a run that crosses midnight in some zone can compute
  "today" from different instants for different users. The model passes one
  instant to the whole run.
- `Math.round` over milliseconds in `daysUntil` equals the exact day
  difference when local time is UTC, which is why the model uses that
  difference.
- The IANA time-zone database, `Intl.DateTimeFormat`, `new Date(string)`,
  `window.atob` and the web-push transport are function parameters. Each
  transport call's outcome depends only on its subscription and payload.
- Sessions (next-auth), Prisma and HTTP. Sessions are reduced to an optional
  user id. The database is three in-memory tables. A response is a datatype.
- Malformed JSON bodies in the subscribe route are not modelled; the route
  would throw before reaching the upsert.
- A `updateTimezone` call for a user row that does not exist throws in Prisma.
  In the model it leaves the table unchanged.
- New row ids are supplied by the caller. Prisma's cuid generation is not
  modelled.
- `JSON.stringify` of the payload is not modelled; the payload is a record.
- String lengths count characters, not UTF-16 code units. The 200/1000
  truncation and the `em N dias` parsing are exact only for BMP text.
- EventActions.LeadTime: `parseInt` yields an unbounded integer. JavaScript
  numbers lose precision beyond 2^53, which is not modelled; the clamp into
  0..365 gives the same result for any such input.
- EventCard.MoveOffset and EventCard.Swipe: `clientX` is a fractional CSS-pixel
  number in the browser (src/components/EventCard.tsx:91 and :97). The model
  takes whole pixels, so sub-pixel drag distances are not modelled.
- Base64Url.UrlBase64ToUint8Array: `atob` is an opaque parameter, so the
  model states the byte copy and the string fed to `atob`. It does not state
  the decoded bytes themselves.
- Concurrent cron runs and parallel sends are not modelled. The source is
  sequential and so is the model.
- The React state in `onTouchEnd` is read from the last render, not after the
  final `onTouchMove`. The model reads the current offset.
- The 300 ms timer in closeDeleteSheet, drag-to-dismiss in the detail modal,
  haptics and all rendering are not modelled. So are `presentTypes` and the
  filter chips, which only feed rendering.
- Holidays.SeedHolidaysForUser: the date string is modelled by its meaning.
  The row's instant is noon UTC of the holiday's date (`Holidays.NoonUtc`).
  The string's format and round trip are proved separately in
  Holidays.DateStringRoundTrip.
- Holidays.SeedFrom takes the holiday table as a parameter so that the same
  method serves the full table.
- DashboardPage.DashboardRows: the order among rows in the same group with equal days
  is not stated. `Array.prototype.sort` is stable, but the model only promises a sorted
  permutation.
- `revalidatePath` and `redirect` are recorded only as the returned outcome.

## Findings

| source | as written | input that shows it | evidently intended | confidence | as-written member | corrected member |
|---|---|---|---|---|---|---|
| src/middleware.ts:23-27 | The matcher sends every path except static assets through the session gate. This includes `/api/cron/daily`. | `GET /api/cron/daily` from the scheduler with `Authorization: Bearer <CRON_SECRET>` and no session cookie is redirected to `/login`, so the route's own bearer check at src/app/api/cron/daily/route.ts:72-75 never runs. | The cron route is reachable without a session and is guarded only by its bearer token. | medium; not executed | Middleware.SchedulerIsRedirected | Middleware.CronReachesRoute |

The same gate shadows the 401 branch of src/app/api/push/test/route.ts:8-10.
A signed-out request is redirected before that branch runs.
