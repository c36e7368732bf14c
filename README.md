# Wasserwacht shift planner: the slot-booking engine

This project models the slot-booking engine of the Wasserwacht shift planner in Dafny and proves properties of the model. The planner is a Streamlit application backed by a Firestore document store. Volunteers book recurring weekly duty slots there: Tuesday and Friday 17:00-20:00, Saturday 14:00-17:00.

The model has three layers.

- **Calendar rules.** These are pure functions.
  - Dates are day numbers counted from 0001-01-01, which was a Monday (`Calendar`), with the conversion to a civil date.
  - ISO `YYYY-MM-DD` strings are formatted and parsed (`IsoDate`). It is proved that string order is day order and that formatting and parsing are inverse.
  - `week_start` and `slot_date` are modelled, and so are the holiday table, the summer break and the block rules (`DateRules`).
- **The document store.** `WasserwachtDB` is a class whose fields hold the `bookings`, `archive` and `users` collections, plus an id counter (`Database`).
  - Its methods stream queries, create, cancel and archive bookings, and register and authenticate users. The free-slot scans of the statistics page and of the free-slot alarm are methods too.
  - Every mutating method keeps the store's invariant. Its main part is that at most one confirmed booking exists per `(slot_date, slot_time)`. This holds as long as the store's queries succeed; see "Left out" for what happens when `get_booking` fails.
  - The queries are `where` clauses over the booking documents (`Records`).
- **Derived views.**
  - The home page's week view and its book and cancel buttons (`Home`).
  - The free-slot scan specification (`Slots`).
  - The German phone-number rewrite applied before an SMS is sent (`Sms`).

These are parameters rather than modelled code:
- "Today" is a day number passed in.
- `hash_pw` (SHA-256) is a function-valued constant of the store.
- Store failures are inputs: whether the range query's index exists, and the document at which `archive_old` fails.

In three places the code does something easy to miss; the model follows the code:
- `cancel_booking` on an id that does not exist returns `False`, because the document update raises.
- `archive_old` returns 0 after a failure, even though the documents moved before the failure stay moved.
- `create_booking` does not check whether the date is blocked; only the page hides the button.

## Model

| member | source | states |
|---|---|---|
| Calendar.FromDay | streamlit_app.py:91-95 | The civil date of a day number is a valid date whose day number is that day. |
| Calendar.DateOf | streamlit_app.py:97-99 | Computes the civil date of a day number: `date` arithmetic followed by reading the fields back. |
| Calendar.FromDayToDay | streamlit_app.py:97-99 | Day numbers and valid civil dates are in one-to-one correspondence. |
| Calendar.CivilOrderIsDayOrder | streamlit_app.py:267 | Chronological order of civil dates is the order of their day numbers. |
| Calendar.InRangeIffFourDigitYear | streamlit_app.py:97-99 | A day number is below `DayCount` exactly when its year is at most 9999, the last year Python's `date` holds. |
| Calendar.DayCountIsYear10000 | streamlit_app.py:97-99 | `DayCount` is the day number of 10000-01-01. |
| IsoDate.Iso | streamlit_app.py:97-99 | `strftime("%Y-%m-%d")` of a day is the format of its civil date. |
| IsoDate.FormatDay | streamlit_app.py:97-99 | Computes the ISO string of a day. |
| IsoDate.ParseIso | streamlit_app.py:114-120 | A string that parses gives a valid date with a four-digit year. |
| IsoDate.ParseFormatCivil | streamlit_app.py:249 | Parsing a formatted date gives the date back. |
| IsoDate.FormatParseIso | streamlit_app.py:249 | Every string that parses is the format of what it parses to. |
| IsoDate.ParseIsoOfIso | streamlit_app.py:249 | The ISO string of a day up to 9999-12-31 parses to that day's date. |
| IsoDate.IsoLength | streamlit_app.py:97-99 | The ISO string has ten characters exactly when the day is at most 9999-12-31. |
| IsoDate.IsoInjective | streamlit_app.py:97-99 | Distinct days in range have distinct ISO strings. |
| IsoDate.IsoDistinct | streamlit_app.py:385-386 | A day in range and any other day have different ISO strings. |
| IsoDate.IsoOrder | streamlit_app.py:409 | For days in range, `<` on ISO strings holds exactly when the first day is earlier. |
| IsoDate.IsoLe | streamlit_app.py:252-253 | For days in range, `<=` on ISO strings holds exactly when the first day is not later. |
| Lexicographic.NotLtIsGe | streamlit_app.py:409 | A string that is not `<` a cutoff is `>=` it, so the archive query splits the bookings. |
| Lexicographic.StrLtTrichotomy | streamlit_app.py:314 | Any two strings are equal or ordered one way, never both ways. |
| Lexicographic.StrLtTransitive | streamlit_app.py:314 | String `<` is transitive. |
| DateRules.WeekStart | streamlit_app.py:91-95 | `week_start(d)` is a Monday with `ws <= d < ws + 7`. |
| DateRules.WeekStartUnique | streamlit_app.py:91-95 | That Monday is the only Monday of `d`'s week. |
| DateRules.WeekStartIdempotent | streamlit_app.py:91-95 | Anchoring an anchor changes nothing. |
| DateRules.DayOffset | streamlit_app.py:97-99 | Weekday names map to offsets 0 to 6, and an unknown name maps to 0. |
| DateRules.SlotDateOf | streamlit_app.py:97-99 | Computes `slot_date(ws, day)`: the ISO string of `ws` plus the day's offset. |
| DateRules.SlotDateInWeek | streamlit_app.py:97-99 | A resolved slot date lies in the anchor's week, on the named weekday; an unknown name resolves to the Monday. |
| DateRules.SlotDateMatches | streamlit_app.py:384-386 | Resolving `day` in the week of `d` gives `d` back exactly when `d` is that weekday. |
| DateRules.OffsetMatches | streamlit_app.py:384-386 | Monday of `d`'s week plus `k` days has `d`'s ISO string exactly when `k` is `d`'s weekday. |
| DateRules.Holidays | streamlit_app.py:49-56 | The holiday table `BAVARIA_HOLIDAYS`: the thirteen public holidays of 2025 and of 2026, keyed by the year's four digits. |
| DateRules.HolidayYears | streamlit_app.py:49-56 | The holiday table lists only the years 2025 and 2026. |
| DateRules.IsHoliday | streamlit_app.py:109-112 | `is_holiday(d)` holds only for a string whose first four characters are a year the table lists, 2025 or 2026. |
| DateRules.HolidayShape | streamlit_app.py:109-112 | A holiday is a ten-character string listed under 2025 or 2026. |
| DateRules.HolidayOnlyInListedYears | streamlit_app.py:109-112 | `is_holiday` is false for every day of a year the table does not list. |
| DateRules.IsSummer | streamlit_app.py:114-120 | A string that does not parse is not summer (the bare `except`); otherwise `is_summer` holds exactly for the months 6 to 9. |
| DateRules.IsSummerOfDay | streamlit_app.py:114-120 | `is_summer` of a day's ISO string holds exactly for the months June to September. |
| DateRules.IsBlocked | streamlit_app.py:122-123 | A blocked string either starts with a listed year (2025 or 2026) or parses to a date in June to September. |
| DateRules.BlockReason | streamlit_app.py:125-130 | `None` exactly when the date is not blocked; a holiday yields Holiday even in summer; the summer break is reported only for summer dates that are not holidays. |
| DateRules.ReasonLabel | streamlit_app.py:125-130 | The labels `Feiertag` and `Sommerpause` name the holiday and the summer break, and tell them apart. |
| DateRules.HolidayWinsInSummer | streamlit_app.py:125-130 | 2025-06-19 is in summer and is reported as a holiday. |
| DateRules.JuneTuesdayIsSummerBreak | streamlit_app.py:114-130 | 2025-06-03 is blocked by the summer break. |
| DateRules.NovemberTuesdayIsOpen | streamlit_app.py:109-123 | 2025-11-04 is not blocked. |
| Records.Select | streamlit_app.py:292-302 | A query streams no more documents than are stored, and exactly the stored documents that match all its clauses. |
| Records.First | streamlit_app.py:293-297 | `.limit(1)` yields a stored matching document, and nothing exactly when no document matches. |
| Records.SelectAppend | streamlit_app.py:251-257 | Streaming a concatenation streams the parts in order. |
| Records.SelectOfSelect | streamlit_app.py:264-269 | Filtering a query's result by a second query equals one query on the conjunction. |
| Records.SelectSameQuery | streamlit_app.py:264-269 | Queries that agree on every document select the same documents. |
| Records.SlotQueryMeans | streamlit_app.py:293-294 | `get_booking`'s query matches exactly the bookings confirmed at that slot. |
| Records.WeekQueryMeans | streamlit_app.py:251-254 | The week query matches the confirmed bookings in the window. The fallback's queries match the confirmed bookings and the date range. |
| Records.FallbackAgreesWithIndex | streamlit_app.py:245-274 | The fallback (all confirmed bookings, then the range test) returns the same bookings as the indexed range query. |
| Records.UserQueryMeans | streamlit_app.py:306-308 | `get_user_bookings`' query matches the user's confirmed bookings, from the given date on when one is given. |
| Records.ArchiveQueryMeans | streamlit_app.py:409 | The archive query matches the bookings dated before the cutoff. |
| Records.AtMostOnePerSlot | streamlit_app.py:292-302 | Under the invariant a slot query finds at most one booking. |
| Records.AppendKeepsInvariants | streamlit_app.py:276-290 | Appending a record with a fresh id that takes no confirmed slot keeps ids distinct and slots singly booked. |
| Records.CancelIn | streamlit_app.py:319-329 | Cancelling keeps the number of documents. |
| Records.CancelChangesOnlyTarget | streamlit_app.py:319-329 | Cancelling changes only record `bid`, setting status cancelled and `cancelled_by`; it keeps the invariants. |
| Records.CancelTwice | streamlit_app.py:319-329 | Cancelling again leaves the booking cancelled and records the later canceller. |
| Records.CancelFreesSlot | streamlit_app.py:319-329 | Cancelling a slot's confirmed booking leaves no confirmed booking there. |
| Records.CancelKeepsIdBound | streamlit_app.py:319-329 | Cancelling keeps every id below the counter. |
| Records.IdsOfMeans | streamlit_app.py:321 | An id is stored exactly when some document carries it. |
| Records.RemoveIds | streamlit_app.py:410-412 | Deleting documents leaves no more documents, and exactly the stored ones whose id was not deleted. |
| Records.RemoveIdsTwice | streamlit_app.py:410-412 | Deleting in two rounds deletes the union. |
| Records.RemoveIdsNone | streamlit_app.py:410-412 | Deleting no ids changes nothing. |
| Records.RemoveEachIsRemoveIds | streamlit_app.py:410-413 | Deleting documents one by one deletes the set of their ids. |
| Records.RemoveIdsKeepsInvariants | streamlit_app.py:410-412 | Deleting documents keeps both invariants. |
| Records.InsertByDate | streamlit_app.py:314 | Insertion adds exactly the one element. |
| Records.InsertByDateSorted | streamlit_app.py:314 | Insertion into a date-sorted list keeps it sorted. |
| Records.SortByDate | streamlit_app.py:314 | `sorted(..., key=slot_date)` is sorted by date and is a permutation of its input. |
| Records.SortByDateMembers | streamlit_app.py:314 | Sorting keeps exactly the same documents. |
| Records.FindUser | streamlit_app.py:178-186 | The found user is stored and has that email; nothing is found exactly when no user has it. |
| Records.AuthResult | streamlit_app.py:203-209 | Login succeeds exactly for a stored, active user whose hash equals `hash_pw(password)`, and yields that user. |
| Records.FindUserAfterAppend | streamlit_app.py:188-201 | A new registration is found by its email afterwards. |
| Records.RegisterThenAuth | streamlit_app.py:188-209 | Registering and then logging in with the same password succeeds. |
| Slots.WeeklySlots | streamlit_app.py:43-47 | The template `WEEKLY_SLOTS` in display order: Tuesday and Friday 17:00-20:00, Saturday 14:00-17:00. |
| Slots.TimeRange | streamlit_app.py:43-47 | `start-end` has the dash right after the start time. |
| Slots.OneSlotPerWeekday | streamlit_app.py:43-47 | The template's slots fall on distinct weekdays. |
| Slots.TemplateWeekdays | streamlit_app.py:43-47 | The template uses Tuesday, Friday and Saturday only. |
| Slots.FreeSlotsInStep | streamlit_app.py:380-391 | One more day of the horizon appends that day's entries. |
| Slots.HorizonMeans | streamlit_app.py:380-391 | When only day `k` can contribute an entry, the horizon lists it exactly when `k` is in the horizon and contributes it. |
| Slots.OpenSlotsOnMeans | streamlit_app.py:383-391 | The inner loop lists `(date, slot)` exactly for the template slots the test accepts. |
| Slots.FreeSlotsInMeans | streamlit_app.py:379-391 | The scan lists `(date, slot)` exactly when the date is in the horizon and not blocked, the slot falls on its weekday, and no confirmed booking holds it. |
| Slots.FreeSlotsInDates | streamlit_app.py:379-391 | Every entry the scan lists is dated on a day of the horizon. |
| Slots.FreeSlotsInSound | streamlit_app.py:379-391 | Every listed entry is a template slot on a horizon day that is not blocked, falls on the slot's weekday and has no confirmed booking: the scans never list a blocked date, a booked slot or a day outside the horizon. |
| Slots.OnlyOwnDay | streamlit_app.py:380-391 | Entries for a date come only from that date's day of the horizon. |
| Slots.DayEntryOther | streamlit_app.py:380-391 | A day of the horizon lists no other date. |
| Slots.FreeOnOtherDay | streamlit_app.py:381-391 | A day's entries carry only its own date. |
| Slots.FreeOnDayMeans | streamlit_app.py:381-391 | A day lists `(date, slot)` exactly when it is that date, is not blocked, and the slot is open. |
| Slots.OpenOnAsWritten | streamlit_app.py:384-388 | The source's test (slot date in the week equals the date, and `get_booking` finds nothing) is the weekday-and-free test. |
| Database.WeekEnd | streamlit_app.py:249 | The week's end, when it can be computed, is a ten-character string. |
| Database.WeekEndOfIso | streamlit_app.py:249 | The end of the week starting on an ISO day is the ISO string six days later. |
| Database.WeekQueryByDay | streamlit_app.py:251-254 | The week query keeps a booking dated on day `e` exactly when it is confirmed and `e` is one of the seven days. |
| Database.WeekBookingsOfDay | streamlit_app.py:245-274 | `get_week_bookings` returns a booking dated on day `e` exactly when it is stored, confirmed, and `e` is in the week. |
| Database.ArchiveCutoff | streamlit_app.py:407 | The cutoff (today minus 360 days) exists exactly from day 360 on. |
| Database.MovedBeforeFailure | streamlit_app.py:409-418 | The number of documents moved is at most the number streamed, and fewer exactly when the store fails on one of them. |
| Database.ArchiveStream | streamlit_app.py:409 | The archive query streams its documents oldest first (ordered by `slot_date`, the field of its range filter). |
| Database.ArchiveSplit | streamlit_app.py:409-412 | Archiving streams exactly the bookings dated before the cutoff and leaves exactly those dated on or after it. |
| Database.ArchivableByDay | streamlit_app.py:403-418 | A booking dated on day `e` is archived exactly when it is stored and more than 360 days before today. |
| Database.ArchiveMatchByDay | streamlit_app.py:409 | The archive query keeps a booking dated on day `e` exactly when `e` is before the cutoff day. |
| Database.LastWeekOverflows | streamlit_app.py:383-386 | The Saturday of a day's week lies past 9999-12-31 exactly for the days 9999-12-27 to 9999-12-31, and none of those days is blocked, so the scan resolves that Saturday and raises on each of them. |
| Database.WasserwachtDB.constructor | streamlit_app.py:152-176 | A fresh store holds only the admin user, with its password hashed, and the invariant holds. |
| Database.WasserwachtDB.Stream | streamlit_app.py:251-257 | The stream loop collects exactly the query's selection, in store order. |
| Database.WasserwachtDB.GetBooking | streamlit_app.py:292-302 | Returns the first booking confirmed at the slot, and nothing exactly when no booking is confirmed there. |
| Database.WasserwachtDB.GetWeekBookings | streamlit_app.py:245-274 | Returns the week's confirmed bookings whether or not the index exists, and none when `ws` does not parse. |
| Database.WasserwachtDB.GetUserBookings | streamlit_app.py:304-317 | Returns the user's confirmed bookings, from today on when asked, sorted by date: a permutation of the query's result. |
| Database.WasserwachtDB.CreateBooking | streamlit_app.py:276-290 | Succeeds exactly when no booking is confirmed at the slot. On success it appends exactly one confirmed record with a fresh id; on refusal ("Slot bereits gebucht") nothing changes. It keeps the invariant. |
| Database.WasserwachtDB.CancelBooking | streamlit_app.py:319-329 | Succeeds exactly when the id is stored. Only that record changes, to cancelled by the canceller; nothing else changes, and the invariant is kept. |
| Database.WasserwachtDB.ArchiveOld | streamlit_app.py:403-418 | Moves the bookings dated before today minus 360 days, oldest first as the query streams them, up to the document at which the store fails. It deletes exactly those from `bookings`, returns their number (0 after a failure) and keeps the invariant. |
| Database.WasserwachtDB.StreamByDate | streamlit_app.py:409 | Streams exactly the bookings dated before the cutoff, ordered by date. |
| Database.WasserwachtDB.MoveToArchive | streamlit_app.py:409-418 | The loop adds each streamed document to the archive and deletes it, stopping at the failing document, and keeps the invariant. |
| Database.WasserwachtDB.MoveStep | streamlit_app.py:409-412 | Moving one more document extends the archive by it and deletes its id. |
| Database.WasserwachtDB.MoveOne | streamlit_app.py:410-411 | One document is added to the archive and deleted from the bookings, keeping the invariant. |
| Database.WasserwachtDB.GetUser | streamlit_app.py:178-186 | Returns the first user with that email. |
| Database.WasserwachtDB.CreateUser | streamlit_app.py:188-201 | Refuses a registered email ("E-Mail bereits registriert") and changes nothing. Otherwise it appends one active user with the hashed password; emails stay distinct. |
| Database.WasserwachtDB.Auth | streamlit_app.py:203-209 | Succeeds exactly for an active user whose password hash matches, and returns that user. |
| Database.WasserwachtDB.ScanFreeSlots | streamlit_app.py:379-401 | The day loop produces the free-slot scan of its horizon. When a scanned day is 9999-12-27 or later, the date arithmetic raises and no free slots are reported. |
| Database.WasserwachtDB.ScanDay | streamlit_app.py:381-391 | One day up to 9999-12-26 yields nothing when blocked, otherwise its open template slots in template order. |
| Database.WasserwachtDB.SlotIsFree | streamlit_app.py:383-388 | The source's per-slot test holds exactly when the slot falls on the date and is not taken. |
| Database.WasserwachtDB.StatsFreeSlots | streamlit_app.py:379-401 | `get_stats` lists the free slots of days 0 to 27 from today, and none when one of those days is 9999-12-27 or later. |
| Database.WasserwachtDB.AlarmFreeSlots | streamlit_app.py:674-689 | The alarm lists the free slots of days 1 to 7 from today, and none when one of those days is 9999-12-27 or later. |
| Home.BookingMap | streamlit_app.py:909 | Every key maps to a booking of that key from the list, and every booking's key is present. |
| Home.Classify | streamlit_app.py:934-955 | Blocked comes before booked, and booked before available, with the block reason and the booking shown. |
| Home.ShowWeek | streamlit_app.py:907-955 | For a week whose Saturday is at most 9999-12-31, the slot loop produces the week view: one card per template slot, in template order. |
| Home.WeekBookingsOfSlot | streamlit_app.py:907-939 | A slot of the shown week is in the booking map exactly when a confirmed booking holds it. |
| Home.WeekViewAgainstStore | streamlit_app.py:907-955 | Each card is dated on its slot's weekday in the week. It is blocked exactly when the date is blocked. It is booked by a stored confirmed booking exactly when the date is not blocked and one holds the slot. Otherwise it is available. |
| Home.BookedCardIsTheBooking | streamlit_app.py:907-955 | Under the invariant a booked card shows the one confirmed booking of its slot. |
| Home.CancelAction | streamlit_app.py:970-979 | The cancel button appears exactly on booked cards, for an admin or the booking's own user, and cancels that booking's id in the name of the acting user. |
| Home.CancelFromWeekView | streamlit_app.py:970-979 | A cancel offered by the week view names a stored booking, so it succeeds; a user who is not an admin is offered only their own bookings. |
| Home.CancelFromHome | streamlit_app.py:974-976 | Pressing the button cancels the card's booking with the acting user's email as `cancelled_by`, exactly when the card offers it and the booking is stored; otherwise nothing changes. The invariant is kept. |
| Home.BookFromHome | streamlit_app.py:980-1016 | The book button books exactly when no confirmed booking holds the slot. Otherwise it reports the holder (as an error to a user, as an override offer to an admin) and changes nothing. The invariant is kept. |
| Sms.NormalizePhone | streamlit_app.py:589-593 | The empty number stays empty. A non-empty result starts with `+`. `+` numbers are unchanged. Others become `+49` followed by the number less a leading `0`. |
| Sms.NormalizePhoneIdempotent | streamlit_app.py:589-593 | Rewriting a rewritten number changes nothing. |
| Sms.TrunkZeroIrrelevant | streamlit_app.py:589-593 | The national form with the trunk `0` and the form without it give the same number. |
| Sms.DigitsKept | streamlit_app.py:589-593 | The result ends with the number as given, less a trunk `0`. |

## Left out

- The Streamlit pages are not modelled (navigation, session state, rendering, CSS and the admin debug panel). The week view's cards stand for the rendered HTML.
- The admin's nested "override" button (990-1004) is not modelled: it is a button inside a button. `Home.BookFromHome` ends at the override offer.
- Firestore itself is not modelled (client setup, network errors, snapshot semantics of streams under concurrent writers). The store is an in-memory class and queries are filters in store order, except the archive query, which is ordered by date. Firestore streams equality-only queries in document-id order and orders ties of a range query by document id; auto-generated ids are random, so the model takes store order for both.
- Generic store exceptions are modelled only where the code reacts to them: the missing index in `get_week_bookings` and the failing document in `archive_old`. A failure of the stream itself in `archive_old` is not modelled. Neither is a failure between the archive write and the delete of one document, nor the store errors that the other methods turn into `False`, `None` or `[]`.
- Concurrency is not modelled: the check-then-write race between `get_booking` and `add` cannot be expressed here. Uniqueness is proved for sequential calls.
- Notifications (SMTP mail, Twilio SMS sending, message templates), the scheduler jobs, the ZIP/CSV backup and the Excel export are I/O and are not modelled. Only the phone-number rewrite of `TwilioSMS.send` is modelled.
- `hash_pw`'s SHA-256 is an uninterpreted function.
- `datetime.now()` and the `pytz` time zone are not modelled: "today" is a day number passed in.
- Timestamps (`created_at`, `cancelled_at`) and the notification flags of users are not stored.
- Archived copies keep the booking's id field; Firestore gives them a new document id.
- `get_all_users`, `update_user`, `delete_user`, the settings store and `fmt_de` are not modelled. They are not part of the booking engine.
- `_init_admin` is modelled for an empty store only. The case where the admin already exists is not modelled.
- Of `get_stats`, only the free-slot list is modelled. The user and booking counters are not.
- The free-slot entries are `(date, template slot)` pairs. The source builds display dictionaries from the same data: a day name plus time range in `get_stats`; a German-formatted date, day name and time in the alarm.
- IsoDate.ParseIso: `strptime` also accepts a month or day without zero padding (`2025-6-3`) and a day padded with a space (`2025-06- 3`). It also accepts non-ASCII decimal digits in the year and in the second digit of days 10 to 29. `IsoDate.ParseIso` accepts only the zero-padded ASCII form that the application itself writes.
- IsoDate.Iso: the model writes years 1 to 999 with four digits. CPython on Linux does not pad `%Y` (it writes `999-12-31`; macOS and Windows pad). So `IsoDate.Iso`, `IsoDate.IsoLength` and `IsoDate.IsoOrder` describe the program on Linux only from year 1000 on.
- Python's `date` ends at 9999-12-31 and the arithmetic raises `OverflowError` beyond it. The model's calendar continues, but writes no year field there (`IsoDate.YearText`). The free-slot scans report nothing once a scanned day reaches 9999-12-27, because that day's Saturday slot resolves past the last date (`Database.LastWeekOverflows`). `get_week_bookings` returns nothing for a week whose end passes 9999-12-31.
- Home.ShowWeek: the page raises `OverflowError` on a week whose Saturday would be 10000-01-01, after drawing the earlier cards. The model requires the Saturday to lie within the calendar and does not model those partial pages.
- Records.SortByDate: the contract states sorted and permutation, not the stability of Python's `sorted` (bookings with equal dates keep their stream order).
- Database.WasserwachtDB.GetBooking: the cited `except` branch that returns `None` on a store error is not modelled.
- Database.WasserwachtDB.CreateBooking: the uniqueness of confirmed bookings per slot assumes `get_booking`'s query succeeds. When it fails, `get_booking` returns `None` and the program books a slot that is already taken.
- Database.WasserwachtDB.GetWeekBookings: both paths return the week's bookings in store order. Firestore orders the indexed range query by `slot_date` and the fallback by document id, so only the set of bookings agrees. The page only builds a map keyed by slot from the result.
