# FitManager core, modelled in Dafny

FitManager is a gym-management dashboard written in React. This project models the logic that sits inside its page components and hooks, and proves properties of it:

- **Subscription end dates** (`calendar.dfy`, `iso_date.dfy`, `member_modal.dfy`). `calculateEndDate` takes a `YYYY-MM-DD` start date and a plan. It adds one month, three months or one year with JavaScript `Date` arithmetic, read in UTC. A day of the month past the target month's length overflows into the next month (2024-01-31 plus one month is 2024-03-02), as ECMA-262's MakeDay operation (section 21.4.1) does. The form handlers keep the end date derived from the start date and the plan.
- **Member directory** (`members_page.dfy`, `search.dfy`, `seqs.dfy`). The list of members is a `seq` field of a class. It covers the name/phone search, add (append), edit (merge by id), delete (with confirmation), the plan labels, and the strict `isExpired` test against the current instant.
- **Attendance log** (`attendance_page.dfy`). The search returns nothing for an empty term. The click guard reads only the `isActive` flag. Check-in puts the new record first and then clears the search.
- **Session** (`auth.dfy`). This is the `{user, isAuthenticated}` state plus one storage slot. It covers restore (the corrected restore; see ## Findings for the one case where the code as written differs), login against the fixed two-entry credential table, and logout.
- **Navigation** (`dashboard.dfy`, `routing.dfy`). The user's role picks the menu entries. The `currentPage` state routes the chosen entry without checking the role.

Inputs that the program reads from its surroundings are method parameters:
- the current instant: an `Instant`, meaning a UTC date and the milliseconds since midnight;
- fresh ids and creation stamps from `Date.now()`;
- the `confirm()` answer;
- the localised check-in time text;
- the content of the storage slot;
- whether the storage write of `login` throws (a full quota, say).

Two members say what the code does where the page's behaviour is easy to misread:

- The member card's badge is computed from `endDate` (`Members.IsExpired`, src/components/MembersPage.tsx:155). Check-in eligibility reads `isActive` instead (src/components/AttendancePage.tsx:134).
- `isActive` is set to true on add, and no handler ever clears it. `Members.MembersPage` keeps `AllActive` through every handler. `Members.ExpiredYetActive` exhibits a member that is expired by its end date and still flagged active.

`login` has one error path: its `catch` returns false. Only `localStorage.setItem` can throw there, and by then the state update has been made. So a login whose storage write fails reports failure to the login form, yet the session is signed in and the slot does not hold the user. `Auth.AuthProvider.Login` models this with its `writeFails` parameter, and `Auth.LoginFailedWriteSignsIn` walks through it.

Elsewhere the code has no error handling, and several cases that could have been errors are not:
- edit and delete of an absent id are no-ops, not errors (`Members.ApplyEditAbsent`, `Members.RemoveByIdAbsent`);
- check-in has no duplicate rejection: a member can be checked in twice on one day (`Attendance.NoDuplicateCheck`);
- eligibility is only the click guard on `isActive` (`Attendance.AttendancePage.Click`); the attendance list itself accepts any record;
- there is no paging: every matching member is listed.

The two pages treat an empty search differently: the member page lists every member (`Members.EmptySearchShowsAll`), the attendance page lists nothing (`Attendance.SearchResults`).

## Model

| member | source | states |
|---|---|---|
| Calendar.Overflow | src/components/MemberModal.tsx:57-63 | a day count past the month's length, carried month by month into later months (and years), always gives a valid calendar date |
| Calendar.OverflowDayNumber | src/components/MemberModal.tsx:57-63 | the overflowing date's day number is the first of the month's plus `d - 1`: days are counted on, never clamped |
| Calendar.MakeDay | src/components/MemberModal.tsx:55-65 | the month index may run past 11 and the day past the month's length; the result is always a valid calendar date |
| Calendar.MakeDayDayNumber | src/components/MemberModal.tsx:55-65 | ECMA-262's definition of MakeDay: the day number of the first of the target month (zero-based month, excess months carried into the year) plus `date - 1` |
| Calendar.AddMonths | src/components/MemberModal.tsx:57-60 | `setMonth(getMonth()+n)` gives a valid calendar date for every valid date and offset |
| Calendar.AddYears | src/components/MemberModal.tsx:63 | `setFullYear(getFullYear()+n)` gives a valid calendar date for every valid date and offset |
| Calendar.MakeDayMonth | src/components/MemberModal.tsx:55-65 | MakeDay lands in month `12*year+month` or later; a day of month up to 28 is kept and lands exactly there |
| Calendar.AddMonthsDayNumber | src/components/MemberModal.tsx:57-60 | `setMonth(getMonth()+n)` lands `day - 1` days after the first of the month `n` months on, whatever that month's length |
| Calendar.AddYearsDayNumber | src/components/MemberModal.tsx:63 | `setFullYear(getFullYear()+n)` lands `day - 1` days after the first of the same month `n` years on |
| Calendar.AddMonthsLater | src/components/MemberModal.tsx:57-60 | `setMonth(getMonth()+n)` with n ≥ 1 gives a strictly later date |
| Calendar.AddYearsLater | src/components/MemberModal.tsx:63 | `setFullYear(getFullYear()+n)` with n ≥ 1 gives a strictly later date |
| Calendar.DayFromYearStep | src/components/MembersPage.tsx:95 | ECMA-262's DayFromYear formula puts consecutive years exactly 365 or 366 days apart, so time values count days correctly |
| Calendar.DayNumberOrder | src/components/MembersPage.tsx:95 | comparing time values of valid dates agrees with calendar order, in both directions, and equal day numbers mean equal dates |
| IsoDate.Format | src/components/MemberModal.tsx:67 | the date part is at least ten characters; a year past 9999 starts with `+` and a negative year with `-` (the expanded-year form) |
| IsoDate.Parse | src/components/MemberModal.tsx:52 | `new Date(s)` on a date-only string yields a valid date of year 0000..9999 or an invalid date |
| IsoDate.ParseThenFormat | src/components/MemberModal.tsx:52-67 | a parsed string is exactly the `toISOString` date part of the date it parses to |
| IsoDate.FormatThenParse | src/components/MemberModal.tsx:67 | the date part of `toISOString` for a year 0000..9999 parses back to the same date |
| MemberModal.CalculateEndDate | src/components/MemberModal.tsx:49-68 | fails exactly for a non-empty start date that does not parse (the RangeError of `toISOString`); a successful non-empty result is a full date text |
| MemberModal.EndDate | src/components/MemberModal.tsx:55-65 | the switch on the plan always yields a valid calendar date |
| MemberModal.EndDateDayNumber | src/components/MemberModal.tsx:55-65 | for `monthly` and `quarterly`, the end date is `day - 1` days after the first of the month 1 or 3 months on; for `yearly`, after the first of the same month a year on; a missing day spills into the next month |
| MemberModal.PlanMonths | src/components/MemberModal.tsx:55-65 | only `monthly`, `quarterly` and `yearly` move the date; any other plan text falls through the switch |
| MemberModal.EmptyStartGivesEmptyEnd | src/components/MemberModal.tsx:50 | an empty start date gives an empty end date for every plan |
| MemberModal.CalculateEndDateOutcome | src/components/MemberModal.tsx:49-68 | a non-empty start date yields an end date exactly when it parses (otherwise `toISOString` throws); the end date text parses back to the computed date |
| MemberModal.EndDateLater | src/components/MemberModal.tsx:55-65 | each of the three plans gives a strictly later date; any other plan text gives the start date itself; never an earlier date |
| MemberModal.EndDateKeepsShortDay | src/components/MemberModal.tsx:55-65 | for a day of month ≤ 28, the end keeps the day and lies exactly 1, 3 or 12 months later: the plan alone decides the offset |
| MemberModal.CalculatedEndIsLater | src/components/MemberModal.tsx:49-68 | for a valid start date text, the three plans give a later date, and any other plan gives back the start text unchanged |
| MemberModal.MonthlyOverflowsIntoMarch | src/components/MemberModal.tsx:56-58 | 2024-01-31 monthly gives 2024-03-02 (overflow, not clamping) |
| MemberModal.QuarterlyCarriesYear | src/components/MemberModal.tsx:59-61 | 2024-11-15 quarterly gives 2025-02-15 (year carry) |
| MemberModal.YearlyFromLeapDay | src/components/MemberModal.tsx:62-64 | 2024-02-29 yearly gives 2025-03-01 |
| MemberModal.LeapDayPlusYear | src/components/MemberModal.tsx:62-64 | February 29, 2024 plus one year is March 1, 2025: the missing day spills over |
| MemberModal.SampleMonthlyMember | src/components/MembersPage.tsx:28-30 | the first sample member: 2024-01-01 monthly gives 2024-02-01 |
| MemberModal.SampleQuarterlyMember | src/components/MembersPage.tsx:39-41 | the second sample member: 2024-01-15 quarterly gives 2024-04-15 |
| MemberModal.FormOf | src/components/MemberModal.tsx:29-36 | the form takes a member's six fields verbatim |
| MemberModal.EmptyFormDerived | src/components/MemberModal.tsx:18-25 | the default form (empty texts, `monthly`, amount 0) already has its end date derived |
| MemberModal.MemberForm.constructor | src/components/MemberModal.tsx:18-25 | the form starts at the defaults |
| MemberModal.MemberForm.Open | src/components/MemberModal.tsx:27-47 | opening with no member resets to the defaults; opening with a member copies its six fields |
| MemberModal.MemberForm.ChangeStartDate | src/components/MemberModal.tsx:70-76 | stores the date and sets the end date to `calculateEndDate(date, plan)`; name, phone, plan and amount unchanged; the end date stays derived |
| MemberModal.MemberForm.ChangeSubscriptionType | src/components/MemberModal.tsx:78-84 | stores the plan and sets the end date to `calculateEndDate(startDate, plan)`; other fields unchanged; the end date stays derived |
| MemberModal.MemberForm.ChangeName | src/components/MemberModal.tsx:113 | replaces the name only |
| MemberModal.MemberForm.ChangePhone | src/components/MemberModal.tsx:125 | replaces the phone only |
| MemberModal.MemberForm.ChangeAmountPaid | src/components/MemberModal.tsx:179 | replaces the amount only |
| Search.ToLower | src/components/MembersPage.tsx:51 | lower-casing keeps the length and lowers each letter in place |
| Search.Includes | src/components/MembersPage.tsx:51-52 | `includes` only holds for a term no longer than the text |
| Search.IncludesAt | src/components/MembersPage.tsx:51-52 | `includes` holds exactly when the term occurs at some position of the text |
| Search.Matches | src/components/MembersPage.tsx:50-53 | name test on lower-cased texts or phone test on the raw term; a match needs a term no longer than the name or the phone |
| Search.EmptyTermMatches | src/components/MembersPage.tsx:50-53 | the empty term matches every member |
| Search.NameTestIgnoresCase | src/components/MembersPage.tsx:51 | the name test gives the same answer whether or not the term, or the name, is lower-cased first: case of ASCII letters is ignored on both sides |
| Members.FilteredMembers | src/components/MembersPage.tsx:50-53 | `filteredMembers` is no longer than the list, and everything in it is a list member that matches the term |
| Members.FilteredMembership | src/components/MembersPage.tsx:50-53 | a member is shown exactly when it is in the list and its lower-cased name includes the lower-cased term or its phone includes the term |
| Members.FilteredKeepsOrder | src/components/MembersPage.tsx:50-53 | filtering a concatenation filters each part: list order is kept |
| Members.EmptySearchShowsAll | src/components/MembersPage.tsx:50-53 | an empty term shows every member in original order |
| Members.NewMember | src/components/MembersPage.tsx:56-61 | the new record has the fresh id, the six form fields, `isActive` true and the creation stamp |
| Members.Merge | src/components/MembersPage.tsx:70 | the edited record takes the six form fields and keeps its id, `isActive` and `createdAt` |
| Members.ApplyEdit | src/components/MembersPage.tsx:68-72 | the `map` keeps the list's length and every record's id at its position |
| Members.ApplyEditAt | src/components/MembersPage.tsx:68-72 | edit keeps length and order, merges into every record with the edited id and leaves the others unchanged |
| Members.ApplyEditAbsent | src/components/MembersPage.tsx:68-72 | editing an id no record has changes nothing |
| Members.RemoveById | src/components/MembersPage.tsx:81 | the filtered list is no longer than the original |
| Members.RemoveByIdSpec | src/components/MembersPage.tsx:81 | delete keeps exactly the records with another id and removes as many records as had the id |
| Members.RemoveByIdAbsent | src/components/MembersPage.tsx:81 | deleting an absent id changes nothing |
| Members.RemoveByIdKeepsOrder | src/components/MembersPage.tsx:81 | delete keeps the order of the remaining records |
| Members.SubscriptionText | src/components/MembersPage.tsx:85-92 | the three plans map to their Arabic labels; any other text is returned unchanged |
| Members.SubscriptionTextsDistinct | src/components/MembersPage.tsx:86-90 | the three labels are distinct |
| Members.IsExpired | src/components/MembersPage.tsx:94-96 | an end date that does not parse (NaN) is never expired |
| Members.IsExpiredMonotone | src/components/MembersPage.tsx:94-96 | once expired, a member stays expired at every later instant |
| Members.IsExpiredCalendar | src/components/MembersPage.tsx:94-96 | expired exactly when the end date is before today, or is today and midnight has passed (strict `<`) |
| Members.FreshSubscriptionNotExpired | src/components/MembersPage.tsx:94-96 | an end date just computed from a start date is not expired on the start day |
| Members.ExpiredYetActive | src/components/MembersPage.tsx:155 | a sample member flagged active is shown as expired once its end date has passed |
| Members.MembersPage.constructor | src/components/MembersPage.tsx:16-48 | the page holds the loaded members, an empty search and a closed dialog |
| Members.MembersPage.Shown | src/components/MembersPage.tsx:50-53 | the members displayed are exactly the list members matching the current search term |
| Members.MembersPage.SetSearchTerm | src/components/MembersPage.tsx:139 | sets the term and nothing else |
| Members.MembersPage.OpenForAdd | src/components/MembersPage.tsx:116-119 | opens the dialog with no member being edited |
| Members.MembersPage.OpenForEdit | src/components/MembersPage.tsx:184-187 | opens the dialog on the chosen member |
| Members.MembersPage.CloseModal | src/components/MembersPage.tsx:220-223 | closes the dialog and forgets the edited member |
| Members.MembersPage.AddMember | src/components/MembersPage.tsx:55-64 | appends exactly the new record and closes the dialog; earlier records unchanged; all-active is kept |
| Members.MembersPage.EditMember | src/components/MembersPage.tsx:66-77 | with a member being edited, merges by its id and closes; without one, changes nothing; length and all-active kept |
| Members.MembersPage.Submit | src/components/MembersPage.tsx:224 | the dialog submits to edit when a member is being edited (merge by its id), to add otherwise (append the new record); either way the dialog closes, no member stays in edit, the search term is kept and all-active is kept |
| Members.MembersPage.DeleteMember | src/components/MembersPage.tsx:79-83 | confirmed: removes the records with that id; declined: changes nothing |
| Attendance.SearchResults | src/components/AttendancePage.tsx:27-37 | an empty term gives no results |
| Attendance.SearchResultsMembership | src/components/AttendancePage.tsx:28-32 | a non-empty term finds exactly the matching members, and an inactive member is found like an active one |
| Attendance.SearchResultsKeepOrder | src/components/AttendancePage.tsx:29-32 | results keep the member list's order |
| Attendance.NewRecord | src/components/AttendancePage.tsx:68-74 | the record copies the member's id and name and the given time; its date is the current instant's UTC date |
| Attendance.NoDuplicateCheck | src/components/AttendancePage.tsx:60-82 | checking a member in twice adds two records for that member |
| Attendance.AttendancePage.constructor | src/components/AttendancePage.tsx:15-58 | empty search, no results, today's loaded records |
| Attendance.AttendancePage.SetSearchTerm | src/components/AttendancePage.tsx:27-37 | the results follow the term; today's list is untouched |
| Attendance.AttendancePage.CheckIn | src/components/AttendancePage.tsx:60-82 | prepends exactly the new record, keeps the older ones in order, clears term and results |
| Attendance.AttendancePage.Click | src/components/AttendancePage.tsx:134 | an active member is checked in; a click on an inactive member changes nothing |
| Auth.Credentials | src/hooks/useAuth.tsx:37-51 | a user exactly for `admin/admin123` and `employee/emp123`, with the matching username and role |
| Auth.RestoreAsWritten | src/hooks/useAuth.tsx:18-28 | as written: the state becomes authenticated exactly when it was already, or the slot holds a user or `null`; only unparsable text changes the slot |
| Auth.RestoreAsWrittenBreaksConsistency | src/hooks/useAuth.tsx:18-28 | as written, a stored `null` makes the state authenticated without a user |
| Auth.Restore | src/hooks/useAuth.tsx:18-28 | a stored user is adopted; unparsable text (and a stored `null`) is removed without changing the state; a missing or empty slot changes nothing |
| Auth.RestoreAgreesOtherwise | src/hooks/useAuth.tsx:18-28 | the corrected restore differs from the written one only on a stored `null`, and keeps `isAuthenticated == (user != null)` |
| Auth.AuthProvider.constructor | src/hooks/useAuth.tsx:13-16 | the state starts with no user, unauthenticated |
| Auth.AuthProvider.RestoreSession | src/hooks/useAuth.tsx:18-28 | applies the corrected restore (see ## Findings) to the state and slot and keeps the invariant; on a stored `null` the code as written would instead set `{user: null, isAuthenticated: true}` |
| Auth.AuthProvider.Login | src/hooks/useAuth.tsx:30-64 | true exactly for a table entry whose storage write succeeds. A table entry authenticates the state with that user even when the write throws; the `catch` then returns false and the slot keeps its old content. Otherwise the slot holds the user. A pair outside the table changes neither state nor slot |
| Auth.AuthProvider.Logout | src/hooks/useAuth.tsx:66-69 | no user, unauthenticated, empty slot, whatever the prior state (hence idempotent) |
| Dashboard.ActionsFor | src/components/Dashboard.tsx:52 | an admin is offered `members`, `attendance`, `reports` in that order; anyone else, a missing user included, only `attendance` |
| Dashboard.OfferedIds | src/components/Dashboard.tsx:14-52 | offered ids are distinct and all among the admin's |
| Dashboard.Choose | src/components/Dashboard.tsx:98-102 | choosing card `k` navigates exactly when there is such a card, and then to that card's own id, which is an offered id |
| Routing.PageFor | src/pages/Index.tsx:14-35 | unauthenticated: the login page whatever `currentPage` is; otherwise `members`, `attendance`, `reports` pick their pages and anything else the dashboard |
| Routing.Step | src/pages/Index.tsx:18-35 | one event leaves the page, returns to `dashboard` or moves to an offered id; a back button always lands on the dashboard |
| Routing.NonAdminReach | src/pages/Index.tsx:18-35 | a non-admin moving only through the menu and back buttons reaches only `dashboard` and `attendance` |
| Routing.MenuReach | src/pages/Index.tsx:18-35 | any user moving through the menu and back buttons stays on the dashboard and the three menu pages |
| Routing.AppContent.constructor | src/pages/Index.tsx:12 | the initial page is `dashboard` |
| Routing.AppContent.HandleNavigate | src/pages/Index.tsx:18-20 | sets `currentPage` to exactly the given text, with no role check |
| Routing.AppContent.HandleBack | src/pages/Index.tsx:22-24 | sets `currentPage` to `dashboard` |
| Routing.AppContent.Handle | src/components/Dashboard.tsx:102 | a card choice on the dashboard navigates to its id; a back button elsewhere returns to the dashboard |

## Findings

| source | as written | input that shows it | evidently intended | confidence | as-written member | corrected member |
|---|---|---|---|---|---|---|
| src/hooks/useAuth.tsx:18-28 | any stored text that `JSON.parse` accepts becomes the user, and the state is marked authenticated | the slot `fitmanager_user` holds the text `null`: the state becomes `{user: null, isAuthenticated: true}` | a stored value that is not a user is discarded like unparsable text, so `isAuthenticated == (user != null)` always holds | medium, not executed; `Auth.RestoreAsWrittenBreaksConsistency` exhibits it and `Auth.RestoreAgreesOtherwise` proves the fix | Auth.RestoreAsWritten | Auth.Restore |

## Left out

- Rendering: JSX, styling, icons, dialogs and charts are presentation only.
- src/components/ReportsPage.tsx: it holds fixed sample statistics and chart data; its only computation is a rounded average of constants.
- src/components/LoginPage.tsx: form UI around the awaited `login` call.
- The one-second simulated delay and the `async`/`await` of `login`: `login` is a synchronous transition here.
- `localStorage`, `JSON.parse` and `JSON.stringify`: the slot is an abstract `Auth.Stored` value. A missing item, empty text, a user, `null` and unparsable text are modelled. Other JSON values (numbers, strings, objects not shaped like a user) are not.
- `Date.now()` ids, creation stamps and the current instant are parameters; no uniqueness of ids is promised.
- Locale formatting: `toLocaleTimeString('ar-EG')` and `toLocaleDateString` are not modelled. The check-in time is opaque text.
- Time zones: all `Date` arithmetic is read in UTC. `new Date('YYYY-MM-DD')` is UTC midnight, but `getMonth`, `setMonth` and `setFullYear` work on local time (ECMA-262 LocalTime and UTC). Then `toISOString` prints the result back in UTC. Two things move the end date away from the UTC result:
  - West of UTC, the local date of the start is the previous day, so the month is added to that day.
  - The UTC offset at the start and at the end can differ across a daylight-saving change. That shifts the printed end date even at or east of UTC.

  For example, at UTC−5 without daylight saving, `2023-03-01` monthly gives `2023-03-29`, where UTC gives `2023-04-01`. No fixed bound on the shift is claimed.
- The `confirm()` dialog is a boolean argument of `Members.MembersPage.DeleteMember`.
- `console.log` is not modelled.
- The sample arrays are constructor arguments of the pages. They appear only as worked cases.
- `subscriptionPrices` is display text next to the plan choice.
- src/types/attendance.ts is not part of this model; the attendance record's fields are taken from their use in src/components/AttendancePage.tsx.
- IsoDate.Parse: only the full `YYYY-MM-DD` form is accepted, and a month or day out of range for its month is an invalid date, as some engines do; the format itself bounds the day only to 01..31, and other engines roll a date such as `2024-02-30` over into the next month. The shorter date-only forms `YYYY` and `YYYY-MM`, expanded six-digit years, and the other formats that engines accept beyond the standard are all read as invalid dates. A date input produces only `YYYY-MM-DD`, except for years past 9999, which some browsers allow (for example `20000-01-01`). V8 reads those as local dates, where this model reads them as invalid.
- IsoDate.Format: the range limit of time values (±8.64e15 ms) is not modelled; years here stay within 0..10000.
- MemberModal.MemberForm.ChangeStartDate: on a start date text that does not parse, the source's state updater throws a RangeError. The model reports failure and leaves the form unchanged. This also covers a start date with a year past 9999 (for example `20000-01-01`), which a date input can produce. V8 parses such a date and the source then computes an end date, but here it is an invalid date.
- MemberModal.MemberForm.ChangeSubscriptionType: when the form's start date text does not parse, the source's state updater throws a RangeError. The model reports failure and leaves the form unchanged.
- MemberModal.MemberForm.ChangeAmountPaid: the `Number(...)` conversion of the input text is not modelled. The amount is a `real`, and no floating-point behaviour is modelled.
- Members.SubscriptionText: the lookup is on a plain object. A plan text that names an inherited property (`toString`, `constructor`, …) would return that property, not the text. This is not modelled.
- Search.ToLower: only ASCII letters are lowered. JavaScript's full Unicode case mapping is not modelled; the sample names are Arabic, which has no case.
