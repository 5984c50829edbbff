# gcalmcp "today's events" engine, modelled in Dafny

gcalmcp is an MCP server that reads the user's Google Calendar for the
current day and hands back a list of normalised, numbered events. The
schedule widget then shows them in a table. This project models the part of
it that holds real logic, once the provider's items are in hand. It then
proves what that logic promises.

- `GoogleCalendar` (`google_calendar.dfy`) covers the body of `fetchTodayEvents` after the fetch:
  - the filter, which drops items with no id or no title and, on request, items without a timed start;
  - the map, which builds records with `start`, `end`, `isAllDay`, a 1-based `priority`, and an `isNext` flag for every event whose window, widened by 60 000 ms on each side, holds `now`;
  - the fallback, which flags the first event starting after `now` when no window holds it;
  - the summary line and the `prioritized` copy.

  It also models `parseEventStart` and the `trim` helper. The fallback, which changes one record of the events array in place, is a method over an `array` (`MarkFirstUpcoming`) proved against the value-level `ApplyFallback`. `FetchTodayEvents` runs the steps in the source's order.
- `ScheduleTable` (`schedule_table.dfy`) covers `formatDuration` from a whole number of minutes and the table's "Duration" cell. That cell shows an em dash for all-day records.
- `Decimal` (`decimal.dfy`) is how a template literal prints a number (`${n}`) below 1e21 in magnitude, together with the parser that reads such a numeral back. Both the summary line and the duration text use it.
- `Scenarios` (`scenarios.dfy`) holds worked days: during a meeting, between meetings, after the last one, overlapping meetings, equal starts, an empty day and an item with no start.
- `Wrappers` (`wrappers.dfy`) holds `Option`.

Instants are integer milliseconds. `new Date(s).getTime()` is a parameter `parse: string -> Option<int>`, where `None` stands for NaN. The model itself fixes only that `new Date("")` is NaN. Every comparison with NaN is false. A missing start makes `parseEventStart` return the epoch (0).

Some behaviours of the code are easy to get wrong when reading it; the model states them as the code has them:

- The code never re-sorts the items. It relies on the provider's `orderBy: "startTime"`, so the output keeps the provider's order (`FilterKeepsOrder`).
- Every event whose window holds `now` is flagged, so several can be flagged at once (`OverlappingMeetingsBothFlagged`); the fallback alone flags at most one.
- A missing end leaves `end` as `""`. Only the window check falls back to the start time.
- An item with an empty or missing title never reaches the map, so the `"(No title)"` placeholder never shows (`TodayEventsRecords`).

## Model

| member | source | states |
|---|---|---|
| Decimal.NatToDecimal | lib/google-calendar.ts:175 | the numeral of a count is non-empty, all digits, and has no leading zero |
| Decimal.IntToDecimal | gcalmcp/resources/today-schedule/components/ScheduleTable.tsx:13 | the numeral of an integer starts with `-` exactly when it is negative, digits follow, and its digits carry no padding zero (0 is `"0"`, never `"-0"`) |
| Decimal.NatRoundTrip | lib/google-calendar.ts:175 | reading the numeral of `n` back gives `n` |
| Decimal.IntRoundTrip | gcalmcp/resources/today-schedule/components/ScheduleTable.tsx:13 | reading the numeral of any integer (negatives included) back gives it |
| Decimal.ParseNatCanonical | lib/google-calendar.ts:175 | the reader accepts only unpadded numerals, so the one text that reads back as `n` is the numeral of `n`: "reads back as `n`" fixes the exact text |
| Decimal.ParseIntCanonical | gcalmcp/resources/today-schedule/components/ScheduleTable.tsx:13 | the one text that reads back as an integer `i` (no padding zero, no `-0`) is the numeral of `i` |
| GoogleCalendar.Nullish | lib/google-calendar.ts:111 | `a ?? b` is `a` whenever `a` is present (even `""`) and `b` when `a` is missing, so it is missing only when both are |
| GoogleCalendar.Time | lib/google-calendar.ts:167 | `new Date(s).getTime()` is NaN for the empty string and the parsed instant otherwise |
| GoogleCalendar.JsTrim | lib/google-calendar.ts:51 | `.trim()` keeps a contiguous piece of the input with no white space at its ends, dropping only white space before and after it |
| GoogleCalendar.StripQuotes | lib/google-calendar.ts:51 | the quote-removing `.replace` gives the input less its first character when that is a quote, and less its last character when that is a quote not already removed |
| GoogleCalendar.StripQuotesShape | lib/google-calendar.ts:51 | the quote regex removes at most one quote at each end and nothing else, removes both when both ends are quotes, and changes the text exactly when an end is a quote |
| GoogleCalendar.StrippedPiece | lib/google-calendar.ts:51 | quote stripping a piece of a text leaves a piece of that text, at most 2 shorter, unchanged exactly when no end is a quote |
| GoogleCalendar.Trim | lib/google-calendar.ts:50-52 | `trim(s)` is the white-space-trimmed form of `s ?? ""` less one leading and one trailing quote where present: a contiguous piece of that form and of the input, at most 2 characters shorter than the form, and equal to it exactly when neither end of it is a quote |
| GoogleCalendar.FilterItems | lib/google-calendar.ts:140-144 | the filter keeps only items that pass its predicate and never adds any |
| GoogleCalendar.Keep | lib/google-calendar.ts:141-144 | the filter callback holds exactly for a truthy id and a truthy title, with a truthy `start.dateTime` also needed when all-day items are unwanted |
| GoogleCalendar.FilterMembership | lib/google-calendar.ts:140-144 | an item is in the output exactly when it is an input item that passes the filter |
| GoogleCalendar.FilterAppend | lib/google-calendar.ts:140-144 | filtering a concatenation is the concatenation of the filtered parts, so relative order is kept |
| GoogleCalendar.FilterKeepsOrder | lib/google-calendar.ts:134-144 | if the provider's items are ordered by a key, the kept items are ordered by that key |
| GoogleCalendar.ParseEventStart | lib/google-calendar.ts:110-113 | the start instant is the epoch when `dateTime ?? date` is missing or empty, otherwise the parsed start |
| GoogleCalendar.StartString | lib/google-calendar.ts:146 | `start` is `start.dateTime` when present (even `""`), else `start.date` when present, else `""` |
| GoogleCalendar.EndString | lib/google-calendar.ts:147 | `end` is `end.dateTime` when present, else `end.date` when present, else `""`; it is not defaulted to the start |
| GoogleCalendar.EndTime | lib/google-calendar.ts:150 | the end instant is the parsed `end`, or the start instant when `end` is `""` |
| GoogleCalendar.InActiveWindow | lib/google-calendar.ts:151 | a record is active only when its start and end instants are numbers; an item with neither start nor end is active exactly within 60 000 ms of the epoch |
| GoogleCalendar.Normalize | lib/google-calendar.ts:145-163 | each record gets its id, title, location, `start`/`end` (`dateTime`, else `date`, else `""`), `isAllDay` iff a non-empty `date` and no non-empty `dateTime`, `priority` = index + 1, and `isNext` iff `now` lies in the window widened by 60 000 ms |
| GoogleCalendar.NormalizeAll | lib/google-calendar.ts:145-163 | the map yields one record per kept item, at the same position, with that position as index |
| GoogleCalendar.HasActive | lib/google-calendar.ts:166 | `events.some(e => e.isNext)` holds exactly when some record is flagged, and then the list is non-empty |
| GoogleCalendar.Upcoming | lib/google-calendar.ts:167 | a record is upcoming only when its `start` is non-empty and parses to an instant after `now` |
| GoogleCalendar.FirstUpcoming | lib/google-calendar.ts:167 | `find` gives the first record whose start parses to an instant after `now`, or none when no record does |
| GoogleCalendar.ApplyFallback | lib/google-calendar.ts:165-169 | the fallback changes no record when one is already flagged; otherwise it flags exactly the first upcoming record and changes nothing else |
| GoogleCalendar.FallbackFlagsAtMostOne | lib/google-calendar.ts:165-169 | when no record was flagged, at most one is flagged afterwards |
| GoogleCalendar.FallbackFlagsExactlyOne | lib/google-calendar.ts:165-169 | when no record was flagged and some record starts after `now`, exactly one is flagged afterwards |
| GoogleCalendar.FindFirstUpcoming | lib/google-calendar.ts:167 | the left-to-right scan of the events array returns the first upcoming record's index, or none when there is no upcoming record |
| GoogleCalendar.MarkFirstUpcoming | lib/google-calendar.ts:165-169 | the in-place fallback leaves the array equal to `ApplyFallback` of its old contents |
| GoogleCalendar.SummaryLine | lib/google-calendar.ts:171-175 | the summary is `"No events for <day>"` for 0 records; otherwise it ends with `" event(s) for <day>"` and what precedes that reads back as the count, so with ParseNatCanonical it is exactly the count's unpadded numeral |
| GoogleCalendar.SummaryLineDeterminesCount | lib/google-calendar.ts:171-175 | different counts give different summary lines |
| GoogleCalendar.TodayEvents | lib/google-calendar.ts:137-181 | one record per kept item, `prioritized` equal to `events`, the "No events" line exactly when there are no records, and in every case the summary line of the number of records |
| GoogleCalendar.FetchTodayEvents | lib/google-calendar.ts:137-181 | running filter, map, in-place fallback and summary in sequence gives exactly `TodayEvents` |
| GoogleCalendar.TodayEventsRecords | lib/google-calendar.ts:140-169 | record i comes from kept item i, which is an input item: same id and non-empty title (never the placeholder), `start`, `end`, location, priority i + 1, `isAllDay` iff a truthy `date` and no truthy `dateTime`; it is flagged iff its window holds `now`, or no window does and it is the first upcoming record |
| GoogleCalendar.PrioritiesAreDense | lib/google-calendar.ts:145-160 | priorities strictly increase along the list and are exactly 1..N |
| GoogleCalendar.UnshowableItemDropped | lib/google-calendar.ts:141-143 | an item with no id or no title never reaches the output |
| GoogleCalendar.AllDaySuppressed | lib/google-calendar.ts:141-148 | with all-day items unwanted, every kept item has a timed start and no record is all-day |
| GoogleCalendar.PastDayHasNoNext | lib/google-calendar.ts:149-169 | when every kept item has a parsable start no later than its end, and ended more than 60 000 ms before `now`, no record is flagged |
| ScheduleTable.HoursText | gcalmcp/resources/today-schedule/components/ScheduleTable.tsx:16 | the digits before the first `h` read as `h` (unpadded, so exactly its numeral); what follows it is empty exactly for `m == 0` and reads as `m`, again unpadded; the text ends in `h` for whole hours and in `m` otherwise |
| ScheduleTable.FormatDuration | gcalmcp/resources/today-schedule/components/ScheduleTable.tsx:9-17 | below an hour the text before the final `m` reads as `mins` (by ParseIntCanonical exactly its numeral, no padding, no `-0`); from an hour up the part before the `h` reads as `floor(mins / 60) >= 1` and the part after it is empty for whole hours and otherwise reads as `mins % 60 < 60`; the text holds an `h` exactly when `mins >= 60` |
| ScheduleTable.HoursMinutesSplit | gcalmcp/resources/today-schedule/components/ScheduleTable.tsx:14-15 | for `mins >= 60`, `h = floor(mins / 60) >= 1`, `0 <= m < 60` and `h * 60 + m == mins` |
| ScheduleTable.ShortDurationRoundTrip | gcalmcp/resources/today-schedule/components/ScheduleTable.tsx:13 | below an hour (zero and negatives too) the text `"<mins>m"` reads back as `mins` |
| ScheduleTable.ReadLongDuration | gcalmcp/resources/today-schedule/components/ScheduleTable.tsx:14-16 | a text whose hours part reads as `floor(mins / 60)` and whose minutes part reads as `mins % 60` reads back as `mins` |
| ScheduleTable.LongDurationRoundTrip | gcalmcp/resources/today-schedule/components/ScheduleTable.tsx:14-16 | from an hour up, the text reads back as `mins` |
| ScheduleTable.FormatDurationRoundTrip | gcalmcp/resources/today-schedule/components/ScheduleTable.tsx:9-17 | for every integer `mins`, the text reads back as `mins` |
| ScheduleTable.FormatDurationInjective | gcalmcp/resources/today-schedule/components/ScheduleTable.tsx:9-17 | different minute counts never give the same text |
| ScheduleTable.DurationCell | gcalmcp/resources/today-schedule/components/ScheduleTable.tsx:107 | the cell is the em dash exactly for all-day records, and otherwise `formatDuration` of the minutes, a text that reads back as them |
| Scenarios.DuringFirstMeeting | lib/google-calendar.ts:140-169 | meetings 09:00-09:30 and 10:00-10:30 at 09:15: the first is flagged, the second is not |
| Scenarios.BetweenMeetings | lib/google-calendar.ts:140-169 | the same meetings at 09:45: no window holds `now`, so only the 10:00 meeting is flagged |
| Scenarios.AfterLastMeeting | lib/google-calendar.ts:140-169 | one meeting 09:00-09:30 at 10:00: nothing is flagged |
| Scenarios.OverlappingMeetingsBothFlagged | lib/google-calendar.ts:149-151 | meetings 09:00-10:00 and 09:30-10:30 at 09:45: both are flagged |
| Scenarios.EqualStartsKeepProviderOrder | lib/google-calendar.ts:140-160 | two meetings with equal starts keep the provider's order, with priorities 1 and 2 |
| Scenarios.TwoEventsLine | lib/google-calendar.ts:175 | two records give the line `"2 event(s) for <day>"` |
| Scenarios.EmptyDay | lib/google-calendar.ts:137-181 | no items give no records, an empty copy and `"No events for <day>"` |
| Scenarios.StartlessItem | lib/google-calendar.ts:141-143 | an item with no start at all is dropped when all-day items are unwanted and kept otherwise |

## Left out

- OAuth and credential loading (`loadFromFiles`, `getAuthClient`, `hasGoogleCredentials`, `getCalendarClient`, lib/google-calendar.ts:28-108) are left out. They read files, environment variables and JSON and build API clients. `trim` is modelled on its own.
- The `calendar.events.list` request (lib/google-calendar.ts:119-135) is a network call. Its items are the `items` input, and the "not connected" error is not modelled.
- Date handling is left out: the local day window (lib/google-calendar.ts:124-126), `new Date()` for `now`, `toISOString().slice(0, 10)`, and `new Date(string)` parsing with its time-zone rules. `now` is an integer, the day is a given string, and parsing is the `parse` parameter.
- ScheduleTable.FormatDuration: starts from whole minutes. The float step `Math.round((end - start) / 60000)` (ScheduleTable.tsx:10-12) is not modelled, and neither is a NaN minute count from an unparsable date.
- `formatTime`, `formatDateDisplay` and the rest of the JSX rendering are locale formatting and UI. The location cell's dash is not modelled either.
- index.ts (MCP server, tool and prompt registration), resources/today-schedule/widget.tsx (React UI) and resources/today-schedule/types.ts (schema declarations with no logic) are not part of this model.
- gcalmcp/get-refresh-token.js and verify-google-auth.js are not part of this model. They are command-line scripts built on an HTTP server, child processes and file writes.
- GoogleCalendar.JsTrim: the white-space set is that of `String.prototype.trim`: the ECMAScript WhiteSpace and LineTerminator code points. Dafny `char` values outside the Basic Multilingual Plane, and surrogate pairs, are not distinguished.
- Decimal.NatToDecimal: models `${n}` only below 1e21 in magnitude, where JavaScript prints plain digits; above it JavaScript uses exponent form. Counts here are at most 100 and minute totals from real dates stay near 3e11.
