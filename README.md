# A Dafny model of my-schedule-app's event pipeline

my-schedule-app is a small Next.js scheduling application. A signed-in
user keeps timed events in an `events` table. This project models the
logic of the app in Dafny and proves properties about it:

- **`Schema`** (`schema.dfy`):
  - the insert validator of the `events` table: the per-key checks followed by the refinement "start strictly before end", reported on `endTime`;
  - `parseDate`;
  - the conversions `toClientEvent` and `toClientProfile` from the storage form (native dates, nullable columns) to the wire form (ISO 8601 strings, absent instead of null).
- **`EventForm`** (`event_form.dfy`):
  - the event form's client-side validation (`validateForm`);
  - `formatDateTimeForInput`;
  - `formatToISOString` with its manual fallback parser;
  - the submit dispatch to create or update, and which error message is shown.
  
  The form is a class. Its fields are the component's state, and the methods that change that state carry `modifies` clauses.
- **`Dashboard`** (`dashboard.dfy`): the dashboard page. It redirects when there is no user. Otherwise it filters the table by owner, sorts by start time and converts each row with `toClientEvent`.
- **`CalendarView`** (`calendar_view.dfy`):
  - the day bucketing `getEventsForDate`;
  - the month tile count `tileContent`;
  - the `Calendar` state (selected date, selected event) and `handleDateClick`.
- **`EventList`** (`event_list.dfy`):
  - the list state (`events`, `deletingId`);
  - the `handleDelete` flow;
  - the rule that disables a delete button.
- **`Header`** (`header.dfy`):
  - the navigation predicate `isActive`;
  - the border-class ternaries that use it;
  - the mobile menu toggle.
- **`Common`** (`common.dfy`):
  - `Option`;
  - instants, as `int` milliseconds;
  - the JavaScript `Date` value, which may be the invalid date (NaN);
  - the whitespace class of JavaScript strings;
  - the "subsequence in original order" relation that `Array.filter` establishes.

Whatever the environment supplies is a function-valued parameter. This covers:

- `new Date(string)` (`parse`);
- `toISOString` (`toIso`);
- the local-time day key `format(d, 'yyyy-MM-dd')` (`dayKey`);
- Zod's uuid and datetime string checks (`Checks`);
- "now", given as calendar fields;
- the outcome of the awaited delete request;
- the answer of the confirm dialog.

The properties hold for every choice of these functions, unless a lemma
states a hypothesis about them (the round trip assumes that parsing an ISO
string gives back its instant).

The dashboard query is a function of the table, so reading cannot change
the table.

The model follows the code, which differs from what the data model suggests:

- **Title.** The insert schema checks only that the title is present and a string. It does not reject an empty title. `Schema.TitleContentNotChecked` states this. The API's own request schema (outside this model) requires at least one character, untrimmed; the form requires a non-whitespace character.
- **`createdAt` / `updatedAt`.** These are optional `Date` objects (`z.date()`); a string there is rejected.
- **`startTime` / `endTime`.** A string that fails the datetime check is recorded as an issue, but the range refinement still runs on it. A missing key, a missing title or an invalid `Date` object stops validation before the refinement.

## Model

| member | source | states |
|---|---|---|
| Schema.OrUndefined | src/lib/db/schema.ts:113 | The description's falsy-to-`undefined` fallback: absent exactly when the text is null or empty, otherwise the text itself. |
| Schema.OptionalIso | src/lib/db/schema.ts:116-117 | `date?.toISOString()`: present exactly when the date is, and then the ISO string of that date. |
| Schema.ToClientEvent | src/lib/db/schema.ts:110-119 | `id`, `title` and `userId` are copied unchanged. `description` is absent exactly when it is null or empty, and otherwise unchanged. `startTime`/`endTime` are always the ISO strings of the stored instants. `createdAt`/`updatedAt` are absent exactly when null, and otherwise ISO strings. |
| Schema.FromClientEvent | src/lib/db/schema.ts:110-119 | The model's own inverse of `toClientEvent`, written for the round trip (the source has no such function; its target shape is the `EventClient` type). It succeeds exactly when every date string parses, and copies `id`, `title`, `userId` and `description`. |
| Schema.ClientEventRoundTrip | src/lib/db/schema.ts:110-119 | When parsing an ISO string yields its instant, converting a row to the wire form and reading it back gives the row. The one loss: an empty description becomes absent. |
| Schema.ToClientProfile | src/lib/db/schema.ts:53-61 | A falsy `fullName`/`avatarUrl` becomes absent, and a non-empty one is kept. The timestamps become optional ISO strings, absent exactly when null. `id` and `username` are copied. |
| Schema.ParseDate | src/lib/db/schema.ts:122-124 | A Date argument is returned unchanged; a string goes through `new Date`. |
| Schema.ParseDateIdempotent | src/lib/db/schema.ts:122-124 | Applying `parseDate` to its own result changes nothing. |
| Schema.IssuesFor | src/lib/db/schema.ts:69-77 | Every issue names a key of the list that fails its check, and every failing key of the list has its issue. The result is empty exactly when every listed key passes. |
| Schema.FieldIssues | src/lib/db/schema.ts:69-77 | The per-key issues of the schema's keys: each names a failing key, every failing key has its issue, and there are none exactly when every key passes (optional uuid `id`/`userId`, required title, Date-or-datetime-string start/end, optional Date `createdAt`/`updatedAt`). |
| Schema.StrictlyOrdered | src/lib/db/schema.ts:79-88 | The refinement holds exactly when both normalised dates are valid and the start's instant is below the end's; equal dates never satisfy it. |
| Schema.Conclude | src/lib/db/schema.ts:69-94 | When a key aborted, the result is the per-key issues alone (the refinement does not run). Otherwise the refinement's issue is added after them exactly when it fails. Accepted exactly when there are no issues and the refinement held. The per-key issues of a rejection are exactly the given ones. |
| Schema.ValidateInsert | src/lib/db/schema.ts:69-94 | Accepted exactly when every key passes and the parsed start is strictly before the parsed end; an accepted payload is returned unchanged. A rejection always carries issues, and its per-key issues name exactly the failing keys. When a key aborts, the rejection holds per-key issues only. When none aborts (so both dates are present), the range issue is in the rejection exactly when the parsed start is not before the parsed end, even if a date string failed its format check. When the keys are fine, a rejection is the single issue on `endTime` with the fixed message. Any range issue is on `endTime`. |
| Schema.DirtyStillRangeChecked | src/lib/db/schema.ts:76-93 | A start string that fails the datetime check but does not abort, and is not before the end, gets both the start issue and the range issue. |
| Schema.EqualInstantsRejected | src/lib/db/schema.ts:78-93 | Equal instants are rejected with exactly the `endTime` issue and its message, whether the times are given as Dates or strings. |
| Schema.UnparsableStartRejected | src/lib/db/schema.ts:76-88 | A start string that `new Date` cannot read is never accepted, even when the datetime check passed it. |
| Schema.TitleContentNotChecked | src/lib/db/schema.ts:69-74 | The verdict does not depend on what the title string contains. |
| EventForm.TrimStart | src/components/events/EventForm.tsx:54 | Drops a whitespace prefix: the result is a suffix of the input, everything dropped is whitespace, and the result does not start with whitespace. |
| EventForm.TrimEnd | src/components/events/EventForm.tsx:54 | Drops a whitespace suffix: the result is a prefix of the input, everything dropped is whitespace, and the result does not end with whitespace. |
| EventForm.Trim | src/components/events/EventForm.tsx:54 | `trim()`: the result is a slice of the input with only whitespace before and after it, and it neither starts nor ends with whitespace. |
| EventForm.TrimEmptyIffAllWhitespace | src/components/events/EventForm.tsx:54 | `!title.trim()` holds exactly when every character of the title is JavaScript whitespace. |
| EventForm.ValidationError | src/components/events/EventForm.tsx:51-75 | The message set is one of the four fixed messages, chosen in the source's order. It is the title message exactly when the title is whitespace only. It is the start message exactly when the title is not whitespace only and the start is empty, and the end message exactly when, in addition, the start is non-empty and the end is empty. It is the range message exactly when the title has a non-whitespace character, both times are non-empty and both parse with the start at or after the end. |
| EventForm.ValidationPassesIff | src/components/events/EventForm.tsx:51-75 | Validation passes exactly when all of these hold: the title has a non-whitespace character, both times are non-empty, and it is not the case that both parse with the start at or after the end. |
| EventForm.EqualTimesRejected | src/components/events/EventForm.tsx:69-72 | Equal parsable start and end are rejected with the range message. |
| EventForm.UnparsableTimePasses | src/components/events/EventForm.tsx:69-72 | When either time does not parse, the comparison is false and validation passes (rejection is left to the server). |
| EventForm.NatToDecimal | src/components/events/EventForm.tsx:43-46 | `String(n)` of a non-negative integer is a non-empty run of digits with no leading zero (it starts with `0` only for 0): one digit exactly when `n < 10`, at most two when `n < 100`. |
| EventForm.NatToDecimalValue | src/components/events/EventForm.tsx:43-46 | `String(n)` of a non-negative integer reads back as `n`. |
| EventForm.IntToDecimal | src/components/events/EventForm.tsx:42-48 | The year as interpolated, never zero-padded: digits only for a non-negative year, a `-` followed by digits for a negative one, and no leading zero except for the year 0. |
| EventForm.IntToDecimalRoundTrip | src/components/events/EventForm.tsx:42-48 | The unpadded year, signed or not, reads back as the year. |
| EventForm.Pad2 | src/components/events/EventForm.tsx:43-46 | `padStart(2, '0')` yields at least two characters. It ends with the input and everything before it is `'0'`. |
| EventForm.TwoDigitsValue | src/components/events/EventForm.tsx:43-46 | A field below 100, stringified and padded, is two digits denoting the field. |
| EventForm.FormatDateTimeForInput | src/components/events/EventForm.tsx:40-49 | The string begins with the unpadded year numeral and has exactly twelve characters after it. |
| EventForm.FormatDateTimeForInputRoundTrip | src/components/events/EventForm.tsx:40-49 | Reading the `year-MM-DDThh:mm` string back gives exactly the calendar fields it was built from: month as `getMonth()+1`, day, hours and minutes each padded to two digits. |
| EventForm.Split | src/components/events/EventForm.tsx:97 | `split(/[\/\s:]/)` yields at least one part, and no part contains a separator. |
| EventForm.SplitRejoins | src/components/events/EventForm.tsx:97 | There is one more part than separators, and joining the parts with the separators gives the input back. |
| EventForm.Fallback | src/components/events/EventForm.tsx:97-103 | With at least five parts the result ends in `:00.000Z`. |
| EventForm.FallbackKeepsShortInput | src/components/events/EventForm.tsx:98-103 | With fewer than four separators (fewer than five parts) the input is returned unchanged. |
| EventForm.FallbackRewritesDateTime | src/components/events/EventForm.tsx:97-101 | `Y/M/D h:m`, with any four separators, becomes `Y-MM-DDThh:mm:00.000Z` with the month, day, hour and minute padded. |
| EventForm.FallbackIgnoresExtraParts | src/components/events/EventForm.tsx:97-101 | With a fifth separator and anything after it, the rewrite is the same as for the first five parts alone: the rest is dropped. |
| EventForm.FallbackExample | src/components/events/EventForm.tsx:95-101 | `"2025/03/21 13:32"` becomes `"2025-03-21T13:32:00.000Z"`. |
| EventForm.FormatToIsoString | src/components/events/EventForm.tsx:85-105 | A string that `new Date` reads is serialised with `toISOString`. Any other string is the fallback rewrite's result, so one with fewer than four separators is returned as it is. |
| EventForm.FormatToIsoStringRewritesDateTime | src/components/events/EventForm.tsx:87-101 | A `Y/M/D h:m` string (any four separators) that `new Date` rejects is submitted as `Y-MM-DDThh:mm:00.000Z`, month, day, hour and minute padded. |
| EventForm.Form.constructor | src/components/events/EventForm.tsx:18-26 | The fields start as the initial data's, or as empty strings without initial data. There is no local error. |
| EventForm.Form.ApplyDefaultTimes | src/components/events/EventForm.tsx:29-37 | Without initial data, start and end become the input strings of now and of one hour later; with initial data nothing changes. |
| EventForm.Form.Validate | src/components/events/EventForm.tsx:51-75 | The error is cleared and then set to the first failing check's message. The method returns true exactly when no error is left. |
| EventForm.Form.EditsExisting | src/components/events/EventForm.tsx:116 | `isEditing && initialData?.id`: it holds only when editing with initial data that has an id, and an empty id never counts. |
| EventForm.Form.HandleSubmit | src/components/events/EventForm.tsx:77-125 | A failed validation issues no request. An update is issued exactly when validation passed and the form edits an event with a non-empty id, and it carries that id. A passing form issues a create otherwise. Each request carries the title, the description and both times through `formatToISOString`. |
| EventForm.Form.ErrorMessage | src/components/events/EventForm.tsx:129 | The local error whenever it is a non-empty string; only otherwise the API error, when that is non-empty. |
| EventForm.LocalErrorWins | src/components/events/EventForm.tsx:51-75 | Every message validation can set is non-empty, so after a failed validation the local error is shown rather than the API error. |
| Dashboard.OwnedBy | src/app/dashboard/page.tsx:22-24 | Every kept row belongs to the user. Each of the user's rows is kept exactly as often as it is stored; no other row is kept. |
| Dashboard.OwnedByIsSubsequence | src/app/dashboard/page.tsx:22-24 | The filter keeps table order. |
| Dashboard.InsertByStart | src/app/dashboard/page.tsx:25 | Inserting into a start-ordered list keeps it ordered and adds exactly the one row. |
| Dashboard.SortByStart | src/app/dashboard/page.tsx:25 | The result is non-decreasing by start and a permutation of the input. |
| Dashboard.SortSortedIsIdentity | src/app/dashboard/page.tsx:25 | Rows already in start order come back unchanged. |
| Dashboard.SortByStartIdempotent | src/app/dashboard/page.tsx:25 | Sorting the sorted result changes nothing: sorting twice equals sorting once. |
| Dashboard.ListEvents | src/app/dashboard/page.tsx:22-25 | The query result is non-decreasing by start and holds only the user's rows. It is a permutation of the user's stored rows: each appears as often as it is stored, and a row appears exactly when it is one of the user's stored rows. |
| Dashboard.ToClientEvents | src/app/dashboard/page.tsx:28 | The element-wise `toClientEvent` image, with the same length and order. |
| Dashboard.Dashboard | src/app/dashboard/page.tsx:17-28 | No user: a redirect to `/login`. Otherwise it renders as many events as the query returns, each the converted row at the same position and each owned by the user. |
| Dashboard.RedirectIgnoresTable | src/app/dashboard/page.tsx:17-19 | The redirect happens before the query: it is the same whatever the table holds. |
| Dashboard.DashboardComplete | src/app/dashboard/page.tsx:22-28 | Every stored row of the user is rendered. |
| Dashboard.DashboardSound | src/app/dashboard/page.tsx:22-28 | Every rendered event is the conversion of a stored row of the user. |
| CalendarView.StartsOn | src/components/events/CalendarView.tsx:32-34 | An event starts on a day only when its start parses, and an event whose start is the date's own instant starts on that day. |
| CalendarView.EventsForDate | src/components/events/CalendarView.tsx:28-36 | It fails exactly when some start does not parse, since formatting the invalid date throws. Otherwise an event is listed exactly when its start falls on the day of `date`, each as often as it occurs. |
| CalendarView.EventsForDateIsSubsequence | src/components/events/CalendarView.tsx:31 | The day's events keep their original order. |
| CalendarView.EndTimeIgnored | src/components/events/CalendarView.tsx:32-34 | Changing an event's end does not change whether it is listed on a day. |
| CalendarView.TileContent | src/components/events/CalendarView.tsx:39-51 | Outside the month view the tile is empty. In the month view it fails exactly when the bucketing throws. A count is shown only in the month view, is at least one and equals the number of the day's events. An empty month tile means no event starts that day. |
| CalendarView.Calendar.constructor | src/components/events/CalendarView.tsx:24-25 | The date starts as now, with no event selected. |
| CalendarView.Calendar.HandleDateClick | src/components/events/CalendarView.tsx:54-59 | A single date becomes the selected date and clears the selected event. A range or no value changes nothing. |
| CalendarView.Calendar.SelectEvent | src/components/events/CalendarView.tsx:99 | Clicking an event shows it and keeps the date. |
| CalendarView.Calendar.SelectedDateEvents | src/components/events/CalendarView.tsx:62 | The selected day's list holds exactly the events starting on the selected date. |
| EventList.WithoutId | src/components/events/EventList.tsx:28 | No remaining event has the id. Every other event is kept as often as it occurred. |
| EventList.WithoutIdIsSubsequence | src/components/events/EventList.tsx:28 | The remaining events keep their order. |
| EventList.WithoutAbsentId | src/components/events/EventList.tsx:28 | Removing an id no event carries changes nothing. |
| EventList.WithoutIdIdempotent | src/components/events/EventList.tsx:28 | Removing the same id twice equals removing it once. |
| EventList.ListState.constructor | src/components/events/EventList.tsx:14-16 | The list starts as `initialEvents`, with nothing being deleted. |
| EventList.ListState.DeleteDisabled | src/components/events/EventList.tsx:100 | Every button is disabled while the hook is loading and the button of the event being deleted is disabled; otherwise no button is. |
| EventList.ListState.BeginDelete | src/components/events/EventList.tsx:19-21 | A declined dialog issues no delete and leaves `deletingId` alone. A confirmed one marks the id, so that event's button is disabled. |
| EventList.ListState.FinishDelete | src/components/events/EventList.tsx:23-37 | A successful delete removes the events of that id; a false result or a throw keeps the list. In every case `deletingId` is null afterwards, so no button is disabled unless the hook is loading. |
| EventList.ListState.HandleDelete | src/components/events/EventList.tsx:19-38 | Declined: nothing changes and nothing is pending. Confirmed: the id is pending during the await, `deletingId` is null afterwards, and the list loses exactly that id's events on success and is unchanged otherwise. |
| Header.UnderPathIsPrefixTest | src/components/layout/Header.tsx:21 | `pathname === path` or `pathname.startsWith(path + '/')` holds exactly when the pathname is the path or lies below it. |
| Header.IsActive | src/components/layout/Header.tsx:20-24 | The result is one of the two non-empty classes. It is the active one exactly when the pathname is present and is the path or lies below it. |
| Header.SiblingNotActive | src/components/layout/Header.tsx:21 | A pathname that extends the path without a `/` boundary is not active. |
| Header.NewerIsNotNew | src/components/layout/Header.tsx:21 | `/events/newer` does not activate the `/events/new` link. |
| Header.NullPathnameNeverActive | src/components/layout/Header.tsx:21 | A null pathname makes no link active. |
| Header.DesktopBorderClass | src/components/layout/Header.tsx:45-47 | The desktop ternary as written picks one of its two border classes (`Header.BorderAlwaysActive` shows which). |
| Header.MobileBorderClass | src/components/layout/Header.tsx:145-147 | The mobile ternary as written picks one of its two border classes (`Header.BorderAlwaysActive` shows which). |
| Header.BorderAlwaysActive | src/components/layout/Header.tsx:45-47 | As written, the desktop and mobile border ternaries choose the active border for every pathname and link. |
| Header.BorderActiveOnOtherPage | src/components/layout/Header.tsx:145-147 | On `/dashboard` the `/events/new` link has the inactive text class and still gets the active border. |
| Header.IntendedDesktopBorderClass | src/components/layout/Header.tsx:45-47 | The corrected desktop border is active exactly when the link is active. |
| Header.IntendedMobileBorderClass | src/components/layout/Header.tsx:145-147 | The corrected mobile border is active exactly when the link is active. |
| Header.ToggleMenu | src/components/layout/Header.tsx:100 | The toggle always flips the menu state. |
| Header.ToggleTwiceRestores | src/components/layout/Header.tsx:100 | Toggling twice restores the menu state. |

## Left out

- Authentication (the Supabase clients, middleware, OAuth callback, session hooks, sign-out and sign-up) is I/O against an external service. The dashboard receives the user as an `Option`.
- The `/api/events` handlers and the `useEvents` hook are network code. They are outside this model. The requests a submit issues are returned as values, and the result of a delete is a parameter.
- Database access is left out; the table is a sequence of rows. PostgreSQL gives no order among rows with equal start times. The model's sort keeps table order among them, so the proved facts (ordered, a permutation, exactly the user's rows) hold for any tie order, but the exact sequence is one choice among several.
- JavaScript `Date` parsing, `toISOString`, date-fns `format` and the local time zone, and `Intl.DateTimeFormat` are parameters, or are not modelled where they are only display formatting.
- Floating-point time arithmetic (`now.getTime() + 60 * 60 * 1000`) is left out: the two calendar readings are parameters of `EventForm.Form.ApplyDefaultTimes`.
- EventForm.FormatToIsoString: the source catches the thrown error, logs it and falls back; the logging is left out.
- EventForm.Fallback: its own contract states only the `:00.000Z` suffix for five or more parts; the exact rewrite is stated by `EventForm.FallbackRewritesDateTime` (five parts) and `EventForm.FallbackIgnoresExtraParts` (six or more).
- Strings are sequences of Unicode code points. JavaScript strings are UTF-16 code units, which differs only for characters outside the Basic Multilingual Plane.
- EventForm.Form.ErrorMessage: the API error is modelled as an optional string. The `JSON.stringify` branch for a non-string error is left out.
- EventList.ListState.HandleDelete: the `confirm` and `alert` dialogs, `console.error` and `isLoading` are left out, except that `isLoading` is a parameter of the disabled rule. The filter reads the list at the time of the call and so ignores stale closures and React's batching of state updates.
- React rendering and every CSS string other than the `isActive` classes and the border classes are left out.
- CalendarView: `handleDateClick` treats any `Date` value as valid, since react-calendar emits valid dates.

## Findings

| source | as written | input that shows it | evidently intended | confidence | as-written member | corrected member |
|---|---|---|---|---|---|---|
| src/components/layout/Header.tsx:45-47 | The border ternaries test `isActive(path)`. That is always one of two non-empty class strings, so it is always truthy and every link gets `border-blue-500` (mobile: `border-blue-500 bg-blue-50`), including at lines 53-55, 61-63 and 145-163. | pathname `/dashboard`, link `/events/new`: text class `text-gray-600 hover:text-gray-900`, border `border-blue-500` | the active border only on the active link, i.e. testing `isActive(path) === 'text-blue-600'` | high (not executed) | Header.BorderAlwaysActive | Header.IntendedDesktopBorderClass |
