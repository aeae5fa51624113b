# Football streaming aggregator: the match pipeline in Dafny

The worker answers `GET /matches` with one JSON array. It holds the matches of
yesterday, today and tomorrow (UTC), taken from a streaming provider's
per-day JSONP lists. Each match carries:

- its kick-off in epoch seconds;
- a `live` / `finished` / `vs` status against a fixed two-hour window;
- its score, when both sides have one;
- for live matches, the stream servers resolved room by room from the
  provider's per-room detail.

This project models that pipeline, with the clock and the provider as
parameters, and proves what the code promises about it.

Modules, one file each:

- `options.dfy`: `Option`.
- `sequences.dfy`: the two list shapes the code uses.
  - `Traverse` is a loop that maps every element and gives up as soon as one fails.
  - `ConcatMap` is the concatenation of per-element lists in element order.
- `decimal.dfy`: decimal text of integers (`Number.prototype.toString`, zero
  padding) and the parsers that read it back.
- `calendar.dfy`: ECMA-262 day/year/month arithmetic on day numbers. This is the
  calendar behind `Date.prototype.toISOString`.
- `date_keys.dfy`: `formatDate` and the three-day window of `handleRequest`.
- `envelope.dfy`: the two JSONP regexes, `/matches_\d+\((.*)\)/s` and
  `/detail\((.*)\)/`, with leftmost-match and greedy-capture semantics.
- `payloads.dfy`: the decoded provider payloads and the worker's output
  records, as datatypes. The provider is an `Upstream` value: the body each
  URL's fetch resolves to, and what `JSON.parse` makes of an envelope's text.
- `servers.dfy`: `fetchServerURLs`. It has the per-anchor SD/HD builder and the
  flattening in anchor order.
- `matches.dfy`: `fetchMatches`. It has the gates, the status/score/servers
  normalisation and the loop that pushes one record per entry.
- `worker.dfy`: the date loop of `handleRequest`.

The loops of the source are methods with loop invariants: `FetchDays`,
`FetchMatches` and `FetchServerURLs`. The per-anchor pushes are the
loop-free method `ResolveAnchor`. Each method is proved equal to a
specification function:

- `Aggregate` for `FetchDays`;
- `MatchesForDate` (through `NormalizeAll`) for `FetchMatches`;
- `ServersForAnchors` for `FetchServerURLs`;
- `AnchorServers` for `ResolveAnchor`.

The properties are the contracts of those functions and the lemmas about
them.

## Model

| member | source | states |
|---|---|---|
| Decimal.Digits | index.js:137 | the numeral is non-empty, all digits, with no leading zero |
| Decimal.NatValueOfDigits | index.js:137 | reading the numeral of n gives n back |
| Decimal.IntToString | index.js:137 | `String(i)` of an integer: '-' exactly for negatives, followed by the shortest numeral of the magnitude (`Digits`) |
| Decimal.IntValueOfIntToString | index.js:137 | the text of `mt.toString()` reads back as exactly mt |
| Decimal.Pad | index.js:72 | zero padding gives digits only, of length max(width, numeral length) |
| Decimal.NatValueOfPad | index.js:72 | zero padding never changes the value the digits denote |
| Decimal.PadWidth | index.js:72 | a value below 10^w pads to exactly w characters |
| Calendar.YearLength | index.js:72 | consecutive ECMA-262 years start 365 or 366 days apart, by the Gregorian leap rule |
| Calendar.YearFromDay | index.js:72 | YearFromTime: the year whose span holds the day |
| Calendar.YearFromDayUnique | index.js:72 | that year is the only one whose span holds the day |
| Calendar.MonthFromDayInYear | index.js:72 | MonthFromTime: the month 1..12 whose span holds the day of the year |
| Calendar.MonthFromDayInYearUnique | index.js:72 | that month is the only one whose span holds it |
| Calendar.CivilFromDays | index.js:72 | the UTC date of a day number is a valid date and maps back to that day number |
| Calendar.CivilFromDaysOfCivil | index.js:72 | every valid date comes back from its own day number (the other half of the round trip) |
| Calendar.DaysFromCivilOrder | index.js:72 | earlier dates have smaller day numbers |
| Calendar.CivilFromDaysOrder | index.js:72 | a day number is smaller exactly when its date is chronologically earlier |
| DateKeys.YearText | index.js:72 | the year field of toISOString: four digits that denote the year for 0..9999, otherwise '-' for negative years or '+' for years above 9999, then digits that denote its magnitude: exactly six of them whenever the year is within ±999999 |
| DateKeys.ValidTimeYearBound | index.js:72 | every time value toISOString accepts falls in a year within ±999999, so its year text is 4 or 7 characters |
| DateKeys.IsoStringShape | index.js:72 | toISOString's text: 24 characters with the 'T' at index 10 for the years 0..9999, at least 27 otherwise, always ending in 'Z' |
| DateKeys.RemoveSeparators | index.js:72 | taking the '-' out of the date part leaves the year's digits, then MM, then DD, with no 'T' |
| DateKeys.YearTextLength | index.js:72 | without its '-', the year text is four characters exactly for the years 0..9999 |
| DateKeys.TimeWithinDay | index.js:72 | the time of day is in [0, 86400000) and recombines with Day(t) to t |
| DateKeys.BeforeFirst | index.js:72 | `split("T")[0]` is a prefix without 'T' that stops at the first 'T' |
| DateKeys.RemoveAll | index.js:72 | `replace(/-/g, "")` leaves no '-' and is shorter by exactly the number of '-' (with `RemoveAllAppend` and `RemoveAllAbsent`, the other characters stay, in order) |
| DateKeys.FormatDate | index.js:71-73 | formatDate succeeds exactly for time values in the Date range (else RangeError), and its text has no '-' |
| DateKeys.FormatDateOfIso | index.js:72 | formatDate is the year text without '-', then MM, then DD of the UTC date |
| DateKeys.DateKeyRoundTrip | index.js:72 | a YYYYMMDD key of a year in 0..9999 is eight digits that read back as the date |
| DateKeys.FormatDateIsKey | index.js:71-73 | for years 0..9999 formatDate yields eight digits that spell the UTC date of the argument |
| DateKeys.YearTextWithoutMinus | index.js:72 | removing '-' from an extended year leaves '+' and six digits above 9999, and the six digits alone below 0 |
| DateKeys.FormatDateExtendedYear | index.js:71-73 | outside 0..9999 the key is '+', the year padded to six digits, MM and DD for positive years, and the padded magnitude, MM and DD without any sign for negative ones |
| DateKeys.FormatDateLength | index.js:71-73 | the key has length 8 exactly when the year is in 0..9999 (extended years are longer) |
| DateKeys.DateWindow | index.js:50-54 | the window exists exactly when now-86400000 and now+86400000 are valid times, and it holds three keys |
| DateKeys.KeyOfDay | index.js:71-73 | a four-digit-year key names the very day of its time value |
| DateKeys.NamesDayOrder | index.js:50-54 | keys of consecutive days are in chronological order |
| DateKeys.DateWindowDays | index.js:50-54 | the three keys name yesterday, today and tomorrow (UTC), in that order |
| Envelope.DigitRunEndIsMaximal | index.js:109 | `\d+` takes the whole digit run |
| Envelope.CaptureStart | index.js:109 | the group can start only right after the literal `matches_`, at least one digit and '(' (or, for the room pattern at line 82, right after `detail(`); `CaptureStartAt` gives the converse |
| Envelope.CaptureStartAt | index.js:109 | at any position, `matches_`, a run of digits ended by '(' lets the group start right after that '(' |
| Envelope.CaptureStartDetailAt | index.js:82 | at any position, `detail(` lets the group start right after it |
| Envelope.ReachEndStopsAtLine | index.js:82 | without the s flag `.` stops exactly at the first line terminator |
| Envelope.LastCloseIsLast | index.js:109 | the greedy capture ends at the last reachable ')', and there is no match without one (the same for the room pattern at line 82) |
| Envelope.MatchAt | index.js:109 | a match at a position captures the text between a '(' and a ')' after it |
| Envelope.MatchAtNeedsName | index.js:109 | a match at a position has `matches_` and at least one digit there before the '(' (`detail` for the room pattern) |
| Envelope.ExtractWithoutName | index.js:110 | text in which the pattern's literal never occurs has no envelope, so `if (!m) return []` fires |
| Envelope.ForeignCallback | index.js:109-110 | `foo(1)` matches neither pattern |
| Envelope.MatchAtCapture | index.js:82 | with s the capture runs to the text's last ')'; without s it stays on one line |
| Envelope.FirstMatchFrom | index.js:109 | the reported position is one where the pattern matches |
| Envelope.FirstMatchFromLeftmost | index.js:109 | no earlier position matches: the match is the leftmost |
| Envelope.FirstMatchFromFinds | index.js:109 | the search finds a match exactly when there is one |
| Envelope.Extract | index.js:82 | a detail payload never contains a line terminator |
| Envelope.ExtractAtStart | index.js:109 | a match at position 0 is the one `match` reports |
| Envelope.ExtractAt | index.js:109 | a match at a position with no match before it is the one `match` reports |
| Envelope.ExtractMatchesAtStart | index.js:109 | `matches_<digits>(` at the start captures up to the text's last ')' |
| Envelope.ExtractMatchesWrapped | index.js:109 | `matches_<digits>(payload)tail` gives payload back whole, newlines and inner ')' included |
| Envelope.ExtractDetailAtStart | index.js:82 | `detail(` at the start captures up to the last ')' before the first line break, whatever ')' later lines hold |
| Envelope.ExtractDetailCutAtLine | index.js:82 | `detail(payload)` ending its line gives payload back whatever follows the line break, so a payload spanning lines is cut at its first line |
| Envelope.ExtractDetailWrapped | index.js:82 | `detail(payload)tail` gives a one-line payload back whole |
| Envelope.ExtractMatchesAfter | index.js:109 | `matches_<digits>(payload)tail` preceded by text where nothing matches gives payload back whole |
| Envelope.ExtractDetailAfter | index.js:82 | `detail(payload)tail` preceded by text where nothing matches gives a one-line payload back whole |
| Envelope.CommentedEnvelope | index.js:109 | `/**/matches_1(x)` yields `x`: a prefix before the callback is skipped |
| Envelope.BrokenThenNextDetail | index.js:82 | `detail(` broken by a line break, then `detail(5)` on the next line, yields `5` |
| Envelope.ExtractDetailMultiline | index.js:82 | a room payload with no parentheses whose only ')' follows a line break is not found at all |
| Envelope.ExtractWithoutClose | index.js:109-110 | text without ')' has no envelope of either kind |
| Sequences.TraverseRejects | index.js:118-134 | the loop gives up exactly when some element fails |
| Sequences.TraverseShape | index.js:118-147 | a loop that finishes has one result per element, in element order |
| Sequences.TraverseAppend | index.js:77-78 | mapping a + b succeeds exactly when both halves do, a's results first |
| Sequences.ConcatMapAppend | index.js:99-100 | concatenating per-element lists keeps element order across a split |
| Sequences.ConcatMapThree | index.js:56-60 | three elements give their three lists, in order |
| Sequences.ConcatMapMembers | index.js:99-100 | an element of the flat list comes from the list of some element, and back |
| Matches.Seconds | index.js:119 | `Math.floor(ms / 1000)`: the second s with s*1000 <= ms < s*1000 + 1000 |
| Matches.Classify | index.js:120-123 | live exactly when mt <= now <= mt + 7200, finished exactly when now > mt + 7200, vs exactly when now < mt |
| Matches.ClassifyText | index.js:120-123 | the match_status text is "live", "finished" or "vs" exactly for the same windows |
| Matches.StatusNeverReverts | index.js:120-123 | as time passes a status only moves forward: vs, live, finished |
| Matches.LiveWindowEdges | index.js:121 | both ends of the live window are inclusive; one second outside is vs or finished |
| Matches.ScoreText | index.js:125-129 | a score is present exactly when both sides are; it is exactly `<home> - <away>` of the two scores' shortest numerals, and it reads back as those two scores |
| Matches.EntryServers | index.js:131-134 | a match that is not live, or has no anchors list, gets no servers; a live match with an anchors list gets the resolution of those anchors (or its rejection) |
| Matches.Normalize | index.js:136-146 | a record's match_time is `mt.toString()` of the kick-off second and reads back as it, it is live exactly inside that second's window, its score is the entry's score text (present exactly when both sides are), and names, logos, league and servers are carried over |
| Matches.NormalizeAll | index.js:118-147 | a day's loop that finishes yields one record per entry |
| Matches.DayList | index.js:105-112 | the day's entries exist exactly when the fetch resolves, the envelope is found, it parses, code is 200 and data exists, and then they are the parsed payload's `data` |
| Matches.NormalizeAllRejects | index.js:118-134 | a day's loop gives up exactly when some entry's server resolution rejects |
| Matches.NormalizeAllShape | index.js:118-147 | the loop pushes one record per entry, in input order, each the normalisation of its entry |
| Matches.NormalizeMatchTime | index.js:119 | match_time is the decimal text of a second s that is the floor of the kick-off, reading back as s |
| Matches.NormalizeAllRecords | index.js:118-147 | each record has its entry's status, score and names; not live or no anchors means no servers |
| Matches.MatchesForDate | index.js:103-155 | a day is all or nothing: no records when the day list cannot be had or an entry's server resolution rejects, otherwise none or exactly one per entry |
| Matches.MatchesForDateRecords | index.js:103-155 | no day list means no records; no record carries servers unless live; when every entry resolves there is one record per entry, in order |
| Matches.FetchMatches | index.js:103-155 | the gates and the push loop compute exactly the day's records |
| Servers.RoomStream | index.js:79-86 | a room's stream is had exactly when the fetch resolves, the detail envelope is found, it parses, code is 200 and data.stream exists |
| Servers.StreamServers | index.js:87-89 | a stream gives at most two servers, each stamped with the referer |
| Servers.StreamServersShape | index.js:87-90 | at most two servers, all with the referer; SD exactly for a truthy m3u8 and HD exactly for a truthy hdM3u8, carrying them; SD before HD |
| Servers.OnlyHighDefinition | index.js:88-89 | a stream with only hdM3u8 gives the single "Soco HD" server |
| Servers.AnchorServers | index.js:79-96 | an anchor whose room detail cannot be had contributes no servers; otherwise it contributes its stream's servers; never more than two |
| Servers.ResolveAnchor | index.js:86-90 | the SD-then-HD pushes build exactly the anchor's servers |
| Servers.ServersForAnchors | index.js:76-101 | no anchors resolve to no servers, and a resolution holds at most two servers per anchor |
| Servers.ServersForAnchorsRejects | index.js:77-78 | resolution rejects exactly when some anchors entry lacks its anchor object |
| Servers.ServersForAnchorsMembers | index.js:99-100 | a resolved server comes from some anchor's room, and every anchor's servers are there |
| Servers.ServersForAnchorsAppend | index.js:99-100 | flattening keeps anchor order: the servers of a + b are a's, then b's |
| Servers.ServersForAnchorsStamped | index.js:88-89 | every resolved server carries the referer and is named "Soco SD" or "Soco HD" |
| Servers.FetchServerURLs | index.js:76-101 | the anchor loop computes exactly the flattened resolution, or the rejection |
| Worker.AggregateMembers | index.js:56-60 | a record is in the answer exactly when it is in the records of one of the days |
| Worker.FetchDays | index.js:55-60 | the date loop computes exactly the days' records, one day after another |
| Worker.HandleMatches | index.js:50-60 | the answer fails (a 500) exactly when the window does; otherwise it is day 0's records, then day 1's, then day 2's |

## Left out

- Routing, the OPTIONS preflight, the 404 answer, CORS headers and building
  the Response with `JSON.stringify` (index.js:3-5, 22-44, 62-68) are HTTP
  plumbing. They are not modelled.
- `handleError` (index.js:7-20) only formats the 500 envelope. The model
  records the one error that reaches it, formatDate's RangeError, as
  `HandleMatches` returning None.
- Network I/O (index.js:80-81, 105-108) is not modelled. `fetch` and
  `res.text()` become `Upstream.fetch`, a function from URL to body text;
  None means the fetch rejected.
  - The request headers (referer, user-agent, origin) are not modelled.
  - The provider is taken to answer each URL the same way every time.
- `JSON.parse` (index.js:84, 111) is a library call. It becomes
  `Upstream.parseMatchList` / `parseRoomDetail`; None means the parse threw or
  the value has no object to read.
  - Only the fields the code reads are modelled.
  - JSON values of the wrong type are not modelled: a string `matchTime`, a
    non-integer or string score, a `null` entry in `data`, a non-array
    `anchors`, or a non-string `m3u8`.
  - Absent fields of an entry are not modelled; `RawMatch` makes them all
    present. In the source an absent `matchTime` gives NaN, so the status is
    "vs" and match_time is "NaN". Absent names, icons or league are
    undefined, and `JSON.stringify` drops those keys from the record.
- `Promise.all` concurrency (index.js:77, 99) is taken sequentially, one anchor
  after another. Only the results and their order are observable.
  - When one callback throws, the others still run in the source; that
    matters only to logging.
- `Date.now()` is read three times for the date keys (index.js:51-53) and
  at most once per `fetchMatches` call (index.js:114, reached only after the
  gates at index.js:105-112): up to six times per request. The
  model takes one reading, `nowMs`, for the three date keys and for every
  status, so it does not capture a clock that ticks between the reads.
- `console.warn` (index.js:94, 152) has no effect on the results.
- Decimal.IntToString: JavaScript prints integers of magnitude 10^21 and above
  in exponent notation; the model writes all their digits.
- Matches.ScoreText: scores are modelled as integers. The text for other
  numeric values, such as fractions, is not modelled.
- Servers.DetailUrl: `roomNum` is modelled as text. A numeric roomNum would be
  interpolated as its decimal text.

## Behaviour taken from the code

- The room pattern `/detail\((.*)\)/` has no s flag, unlike the day-list
  pattern, whose comment at index.js:109 says the flag is there to include
  newlines (`Envelope.ExtractMatchesWrapped`). A room payload that spans lines
  is cut at its first line break.
  - When a ')' ends that first line, the cut text is what gets parsed
    (`Envelope.ExtractDetailCutAtLine`).
  - When the payload holds no '(' or ')' and its only ')' comes after the
    break, the envelope is not found and the anchor contributes no servers
    (`Envelope.ExtractDetailMultiline`). A later line holding `detail(` and a
    ')' would be matched there instead, as the search moves on to the
    leftmost position that matches (`Envelope.ExtractDetailAfter`,
    `Envelope.BrokenThenNextDetail`).
- Outside the years 0..9999 toISOString writes a signed six-digit year, and
  `replace(/-/g, "")` removes every '-', the sign of a negative year included.
  So a year above 9999 keeps its '+', while a negative year's key is its six
  digits with no sign (`DateKeys.FormatDateExtendedYear`).
- An anchors entry without an `anchor` object throws before the per-anchor
  `try`. So `Promise.all` rejects, and `fetchMatches`' catch turns the whole
  day into `[]` (`Servers.ServersForAnchorsRejects`,
  `Matches.NormalizeAllRejects`, `Matches.MatchesForDate`).
- formatDate outside the Date range (|t| > 8.64e15) throws a RangeError that no
  handler inside the pipeline catches. The request becomes a 500
  (`DateKeys.FormatDate`, `Worker.HandleMatches`).
