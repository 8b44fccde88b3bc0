# CUMTD delay collection, modelled in Dafny

`cumtd_data_collection.py` polls the Champaign-Urbana Mass Transit District
real-time API for upcoming departures and stores, for every departure, how
many seconds late (or early) the bus is. One run does four things:

1. it derives the candidate stop ids from the static schedule by stripping
   the boarding-point suffix (`"IU:2"` becomes `"IU"`), de-duplicating and
   sorting;
2. it keeps the stops that have a scheduled arrival in the next 60 minutes;
3. it requests the departures of each kept stop in turn. It stops at the
   hourly-quota reply (status 403), skips a stop on a connection error, and
   sleeps after each successful request;
4. for each departure it folds a service-day hour of 24 or more into the
   next calendar day, computes the delay as `expected - scheduled`, and
   writes it into the store. A scheduled departure sets a per-date column
   of its `stop_times` row, adding the column the first time. An
   unscheduled departure appends a row to `unscheduled_stops`.

The model has one module per concern:

| module | file | what it holds |
|---|---|---|
| `Calendar` | calendar.dfy | proleptic Gregorian dates, ordinals, the next day |
| `Timestamps` | timestamps.dfy | timestamps with a UTC offset, instants, the delay, the rollover |
| `StampText` | stamp_text.dfy | the fixed text layout of the feed's timestamps and the string surgery on them |
| `StopIds` | stop_ids.dfy | candidate stop ids: suffix stripping, `sorted(set(...))` |
| `Store` | store.dfy | the two tables as values, the effect of one `update_db`, and a `Database` class |
| `StopFilter` | stop_filter.dfy | `has_stops` and `collect_available_stops` |
| `Parser` | parser.dfy | `parse_store_cumtd_data` |
| `Poller` | poller.dfy | `analyze_all_stops` and the sequence `main` runs |

Every operation with a loop or with side effects is a method. Each such
method is proved equal to a pure function: `Database.UpdateDb` to
`Store.Apply`, `ParseStore` to `Parser.Parse`, `HasStops` to
`StopFilter.Available`, `CollectAvailableStops` to `StopFilter.Filter`, and
`AnalyzeAllStops` to `Poller.Run`. The lemmas then state the behaviour of
those functions.

Facts about the code that the model makes explicit:

- 23:55:00 to 00:01:00 the next day, both at -06:00, is a delay of 360 s
  (`Parser.LateAcrossMidnight`).
- The code decides whether to roll both stamps from the scheduled hour
  alone (line 216). An expected stamp past 23 with a scheduled one that is
  not therefore raises (`Parser.ExpectedOverflowAloneRaises`).
- The route of an unscheduled departure is read from the top-level
  `result['route']` (line 213), not from the departure itself. A response
  without it raises `KeyError` (`Parser.UnscheduledNeedsRoute`).
- Any exception other than the quota signal and a connection error escapes
  `analyze_all_stops` and ends the run. Examples are a `ValueError` or
  `OverflowError` from `strptime` or the date arithmetic, and a `KeyError`.
  The model carries this as the reply `Raised`. The writes committed before
  the failing departure stay in the store.
- `re.match(".+:[0-9]{1}", x)` is anchored only at the start, and
  `x[:-2]` always drops two characters. So `"PLAZA:12"` becomes `"PLAZA:"`
  (`StopIds.CanonicalTwoDigitSuffix`).
- A `stop_times` row whose `arrival_time` is `24:00:00` or later is never
  updated. Updates are keyed by the normalised time, which is always below
  24:00:00 (`Parser.OvernightRowNeverUpdated`).

## Model

| member | source | states |
|---|---|---|
| Timestamps.RollOver | cumtd_data_collection.py:216-218 | the rolled stamp: the next calendar day, the hour minus 24, minute, second and offset kept |
| Timestamps.Delay | cumtd_data_collection.py:224-226 | `int((expected - scheduled).total_seconds())` as the difference of the two UTC instants |
| StampText.ParseClock | cumtd_data_collection.py:244 | `[int(x) for x in s.split(":")]` read as hour, minute, second; None when a piece is not an integer or there are fewer than three pieces |
| StampText.ParseClockConvertsEveryPiece | cumtd_data_collection.py:244 | a clock text followed by a fourth piece that is not an integer does not parse, because every piece is converted |
| StampText.HourField | cumtd_data_collection.py:216 | `int(s[11:13])`, None where it raises |
| StampText.ExpectedHourAsWritten | cumtd_data_collection.py:218 | `int(s[1:13])`, None where it raises |
| StampText.RollOverRewrite | cumtd_data_collection.py:217 | the next day's date text, 'T', `str(hour - 24)` and the text from position 13 on |
| StampText.StripColon | cumtd_data_collection.py:220-221 | `s[:-3] + s[-2:]` |
| StopIds.Canonical | cumtd_data_collection.py:317 | an id matching `.+:[0-9]` at its start loses its last two characters; any other id is kept |
| Store.AddColumn | cumtd_data_collection.py:168-175 | the column list after ALTER TABLE ADD, which runs only when the name is absent |
| Store.SetDelay | cumtd_data_collection.py:177-179 | the stop_times rows after the UPDATE: the date cell set on the rows keyed by (trip, time) |
| Store.Apply | cumtd_data_collection.py:163-189 | the tables after one update_db call, scheduled or unscheduled |
| Store.ApplyAll | cumtd_data_collection.py:163-189 | the tables after a sequence of update_db calls, in order |
| StopFilter.InWindow | cumtd_data_collection.py:245-253 | the folded arrival lies strictly between now and now + minutes, both read as times of one day |
| StopFilter.Qualifies | cumtd_data_collection.py:241-253 | a row of the stop or of one of its boarding points whose arrival parses and lies in the window |
| StopFilter.Available | cumtd_data_collection.py:238-262 | some row qualifies |
| StopFilter.Filter | cumtd_data_collection.py:264-266 | the stops, in order, for which some row qualifies |
| Parser.NormalizePair | cumtd_data_collection.py:215-223 | both stamps rolled when the scheduled hour exceeds 23, then parsed; None where either raises |
| Parser.RecordOf | cumtd_data_collection.py:207-229 | the record one departure writes: date, "HH:MM:SS", delay, and the trip or the response's route; None where the source raises |
| Parser.Process | cumtd_data_collection.py:207-234 | the records of the departures in order, stopping at the first that raises |
| Parser.Parse | cumtd_data_collection.py:192-235 | the reply and the writes of one response: the quota signal, (False, 0), (True, n) or an exception |
| Poller.Step | cumtd_data_collection.py:274-286 | one iteration of the loop for one stop |
| Poller.Run | cumtd_data_collection.py:273-286 | the loop over the list of stops |
| StopFilter.StopMatches | cumtd_data_collection.py:241-243 | `stop_id LIKE '{0}:%' OR stop_id LIKE '{0}'` read as the exact id or the prefix "id:"; LIKE's case folding and wildcards inside ids are not modelled |
| StopFilter.FoldHour | cumtd_data_collection.py:245 | an hour above 23 loses 24 once; hours of 48 and more stay above 23 |
| Store.Keyed | cumtd_data_collection.py:177-178 | the row the UPDATE selects: trip_id and arrival_time equal to the record's, LIKE read as equality |
| StampText.ParseNat | cumtd_data_collection.py:216 | `int()` of a non-empty string of ASCII digits is its decimal value; every other string is read as raising (None), although `int()` also accepts signs, surrounding whitespace and underscores |
| Calendar.NextDay | cumtd_data_collection.py:217 | `+ timedelta(days=1)` on a date: the next day of the month, the first of the next month, or 1 January of the next year |
| Timestamps.Instant | cumtd_data_collection.py:222-226 | seconds on one UTC scale: ordinal days, the clock, minus the offset; the subtraction of two aware datetimes uses it |
| Calendar.NextDayOrdinal | cumtd_data_collection.py:217 | `+ timedelta(days=1)` advances the ordinal by exactly one; the result is a valid date unless the day is 9999-12-31, where Python overflows |
| Calendar.DaysBeforeYearStep | cumtd_data_collection.py:217 | the closed-form day count grows by the length of each year, 366 in leap years and 365 otherwise |
| Calendar.OrdinalInjective | cumtd_data_collection.py:222-226 | distinct valid dates have distinct ordinals, so the instant scale used for the delay separates dates |
| Calendar.YearOrdinalBound | cumtd_data_collection.py:222-226 | every day of an earlier year lies before the first day of a later year |
| Timestamps.Normalize | cumtd_data_collection.py:216-223 | whatever the normalisation and parse return is a timestamp `strptime` accepts: hour 0-23, valid date, offset below one day |
| Timestamps.RollOverKeepsInstant | cumtd_data_collection.py:216-218 | moving to the next day and taking 24 hours off the clock keeps the absolute instant |
| Timestamps.NormalizeInRange | cumtd_data_collection.py:216-223 | a stamp with hour 0-23 passes through unchanged |
| Timestamps.NormalizeOverflow | cumtd_data_collection.py:216-223 | an hour from 24 to 47 becomes hour - 24 on the next calendar day, with minute, second, offset and instant unchanged |
| Timestamps.NormalizeRollFails | cumtd_data_collection.py:216-223 | rolling an hour below 24 or of 48 and more, or not rolling an hour of 24 and more, makes the parse raise |
| Timestamps.DelaySelf | cumtd_data_collection.py:224-226 | the delay of a stamp against itself is zero |
| Timestamps.DelaySameDay | cumtd_data_collection.py:224-226 | on one date and offset the delay is the clock difference, negative exactly when early |
| Timestamps.DelayAcrossMidnight | cumtd_data_collection.py:224-226 | across midnight the delay is one day plus the clock difference |
| Timestamps.DelayUsesOffsets | cumtd_data_collection.py:224-226 | the same wall time in two offsets differs by the offset difference in seconds |
| Timestamps.DelayScenario | cumtd_data_collection.py:224-226 | 23:55 to 00:01 the next day at -06:00 is 360 seconds |
| StampText.ParsePad2 | cumtd_data_collection.py:216 | `int()` of a zero-padded two-digit field returns its value |
| StampText.ParsePad4 | cumtd_data_collection.py:217 | `int()` of a zero-padded four-digit year returns its value |
| StampText.DigitsValue4 | cumtd_data_collection.py:217 | a four-digit field is read most significant digit first |
| StampText.HourFieldReadsHour | cumtd_data_collection.py:216-217 | characters 11..13 of a feed timestamp are exactly its hour, and the text is 25 characters long |
| StampText.ExpectedHourAsWrittenRaises | cumtd_data_collection.py:218 | characters 1..13 of a feed timestamp contain a '-' and never parse as an integer |
| StampText.DateFieldReadsDate | cumtd_data_collection.py:217-218 | the first ten characters are the date |
| StampText.RollOverRewriteMatches | cumtd_data_collection.py:217 | the string rewrite gives the text of the rolled timestamp, minus the leading zero `str()` drops from an hour below 10; minutes, seconds and offset are untouched |
| StampText.StripColonDeletesOne | cumtd_data_collection.py:220-221 | `s[:-3] + s[-2:]` deletes exactly the third character from the end and keeps the rest in order |
| StampText.StripColonStamp | cumtd_data_collection.py:220-221 | on a feed timestamp the strip turns "+hh:mm" into "+hhmm", the layout `%z` reads |
| StampText.Split | cumtd_data_collection.py:227 | `split` always gives at least one piece |
| StampText.SplitNoSep | cumtd_data_collection.py:227 | a string without the separator splits into itself |
| StampText.SplitAt | cumtd_data_collection.py:227 | splitting at a first separator gives the part before it, then the split of the rest |
| StampText.DatetimeTextFields | cumtd_data_collection.py:227-229 | `str(aware datetime).split(' ')` gives the date and time-plus-offset, and `[:-6]` of the latter is "HH:MM:SS" |
| StampText.ParseClockText | cumtd_data_collection.py:244 | splitting "HH:MM:SS" on ':' and converting gives back the clock |
| StampText.DateTextInjective | cumtd_data_collection.py:170-174 | distinct dates print as distinct column names |
| StampText.ClockTextInjective | cumtd_data_collection.py:177-178 | distinct clocks print as distinct arrival times |
| StopIds.LessIrreflexive | cumtd_data_collection.py:319 | no string sorts strictly before itself |
| StopIds.LessTransitive | cumtd_data_collection.py:319 | the string order is transitive |
| StopIds.LessTotal | cumtd_data_collection.py:319 | any two strings are equal or ordered one way |
| StopIds.LessAsymmetric | cumtd_data_collection.py:319 | no two strings are ordered both ways |
| StopIds.Insert | cumtd_data_collection.py:317-319 | inserting into a strictly sorted list keeps it strictly sorted and adds exactly that element |
| StopIds.SortedSet | cumtd_data_collection.py:317-319 | `sorted(set(xs))` is strictly sorted and has exactly the members of xs |
| StopIds.Candidates | cumtd_data_collection.py:316-319 | the candidate ids are strictly sorted, and a string is among them exactly when it is the canonical form of some static stop id |
| StopIds.SortedIsDistinct | cumtd_data_collection.py:317-319 | a strictly sorted list has no duplicates |
| StopIds.SortedUnique | cumtd_data_collection.py:319 | two strictly sorted lists with the same members are equal, so the result does not depend on how the set was built |
| StopIds.FirstIsLeast | cumtd_data_collection.py:319 | the head of a strictly sorted list precedes every other member |
| StopIds.CanonicalStripsPoint | cumtd_data_collection.py:317 | "base:d" with one digit d becomes "base" |
| StopIds.CanonicalKeepsPlain | cumtd_data_collection.py:317 | an id without ':' is kept |
| StopIds.CanonicalShape | cumtd_data_collection.py:317 | an id is kept, or loses exactly its last two characters when it contains ':' |
| StopIds.CanonicalTwoDigitSuffix | cumtd_data_collection.py:317 | "PLAZA:12" becomes "PLAZA:" |
| Store.ScheduledWrite | cumtd_data_collection.py:167-179 | a scheduled write adds the date column only if absent, sets that cell on exactly the rows keyed by (trip, time), changes and inserts nothing else, and leaves unscheduled_stops alone |
| Store.SameDateAddsNoColumn | cumtd_data_collection.py:169-174 | a second write for the same date adds no column |
| Store.DateColumnIsNotBase | cumtd_data_collection.py:169-174 | a date column never clashes with the static columns |
| Store.TwoDatesTwoColumns | cumtd_data_collection.py:169-174 | writes for two distinct dates add two distinct columns, in order |
| Store.UnscheduledWrite | cumtd_data_collection.py:180-185 | an unscheduled write appends exactly one row and changes nothing else |
| Store.ApplyKeepsValid | cumtd_data_collection.py:163-189 | one write keeps column names unique and every filled cell in a declared column |
| Store.ApplyAllGrowth | cumtd_data_collection.py:163-189 | a sequence of writes only appends columns, never inserts or re-keys a stop_times row, and appends one unscheduled row per unscheduled write |
| Store.ApplyAllKeepsValid | cumtd_data_collection.py:163-189 | any sequence of writes keeps the tables valid |
| Store.ApplyAllSnoc | cumtd_data_collection.py:163-189 | a further write applies after the earlier ones |
| Store.Database.IsNewColumn | cumtd_data_collection.py:168-171 | the PRAGMA scan answers true exactly when no column has that name |
| Store.Database.UpdateDb | cumtd_data_collection.py:163-189 | the new tables are the effect of the write on the old ones; a scheduled write leaves the date column present, the row count and unscheduled_stops unchanged; an unscheduled write appends its row and nothing else |
| StopFilter.HasStops | cumtd_data_collection.py:238-262 | has_stops answers true exactly when some row of the stop or of one of its boarding points has a folded arrival strictly between now and now + minutes |
| StopFilter.CollectAvailableStops | cumtd_data_collection.py:264-266 | the result is the filter of the stops by has_stops, in order |
| StopFilter.FilterMembers | cumtd_data_collection.py:264-266 | a stop is in the result exactly when it is in the input and available |
| StopFilter.FilterConcat | cumtd_data_collection.py:264-266 | filtering distributes over concatenation, so order is kept |
| StopFilter.FilterKeepsAll | cumtd_data_collection.py:264-266 | when every stop is available, the filter returns the list unchanged |
| StopFilter.WindowBounds | cumtd_data_collection.py:247-253 | an arrival 30 minutes ahead is inside a 60-minute window and outside a 20-minute one |
| StopFilter.WindowIsOpen | cumtd_data_collection.py:247-253 | an arrival exactly now, or exactly at the window's end, does not count |
| StopFilter.NoMidnightWrap | cumtd_data_collection.py:245-253 | at 23:50 an arrival at 00:10 is never in the window, for any window |
| StopFilter.FoldedArrivalQualifies | cumtd_data_collection.py:241-253 | a row at 25:10:00 on boarding point "IU:2" makes "IU" available at 00:40 with a 60-minute window |
| StopFilter.StopMatchesNeedsColon | cumtd_data_collection.py:241-243 | "IU" reads its own rows and "IU:2", but not "IUB" |
| Parser.ParseStore | cumtd_data_collection.py:192-235 | the reply and the new store are those of the parse function: the writes happen in departure order, up to the first departure that raises |
| Parser.ProcessStep | cumtd_data_collection.py:207-234 | one more departure either adds its record or marks the batch as raised |
| Parser.ProcessStopsAtFailure | cumtd_data_collection.py:207-234 | after a departure raises, no later departure is processed |
| Parser.ClassifyWithoutDepartures | cumtd_data_collection.py:193-204 | without departures, 403 is the quota signal, and every other status returns (False, 0); nothing is written |
| Parser.LimitOnlyWithoutDepartures | cumtd_data_collection.py:193-197 | the quota signal only comes from a 403 reply without departures |
| Parser.ProcessAll | cumtd_data_collection.py:207-234 | when no departure raises, there is one record per departure, in order, and it is scheduled exactly when the departure is |
| Parser.LoggedCountsDepartures | cumtd_data_collection.py:230-235 | when no departure raises, the logged count equals the number of departures and of writes |
| Parser.RaisedAtFirstFailure | cumtd_data_collection.py:207-234 | when departure k is the first to raise, the call raises after writing exactly the k records before it |
| Parser.NormalizePairSucceeds | cumtd_data_collection.py:216-226 | both stamps parse exactly when both or neither run past 23, and the delay then equals the difference of the raw instants |
| Parser.RecordHourInRange | cumtd_data_collection.py:227-229 | the stored arrival time is the normalised scheduled clock, hour 0-23 |
| Parser.OvernightRowNeverUpdated | cumtd_data_collection.py:177-178 | a row keyed at 24:00:00 or later is never matched by a write |
| Parser.LateAcrossMidnight | cumtd_data_collection.py:207-229 | 23:55 scheduled, 00:01 next day expected gives a +360 s record for ("T1", "23:55:00") in column 2024-01-01 |
| Parser.RolledOverScenario | cumtd_data_collection.py:216-229 | a scheduled 25:10 on 2024-01-01 is stored as 01:10:00 on 2024-01-02 |
| Parser.ExpectedOverflowAloneRaises | cumtd_data_collection.py:216-225 | an expected hour past 23 with a scheduled hour that is not makes the departure raise |
| Parser.UnscheduledNeedsRoute | cumtd_data_collection.py:211-213 | an unscheduled departure in a response without a route raises |
| Poller.AnalyzeAllStops | cumtd_data_collection.py:268-287 | the counters, the stops requested, the sleeps, the raised flag and the store are those of the loop function |
| Poller.CollectOnce | cumtd_data_collection.py:313-331 | main filters the sorted candidates with a 60-minute window and polls exactly the available ones |
| Poller.RunSettled | cumtd_data_collection.py:273-274 | after the quota or an exception, the remaining stops change nothing |
| Poller.ConnectionErrorSkips | cumtd_data_collection.py:283-284 | a connection error records the attempt and leaves every counter and table unchanged |
| Poller.QuotaKeepsCounts | cumtd_data_collection.py:285-286 | a 403 clears continue_collecting and keeps every counter and table |
| Poller.StepFacts | cumtd_data_collection.py:274-286 | one active iteration adds the reply's logged departures, counts and sleeps once on success, and ends the loop exactly on the quota or an exception |
| Poller.StepIdle | cumtd_data_collection.py:274 | an ended loop ignores further stops |
| Poller.SumsSnoc | cumtd_data_collection.py:279-281 | the totals over one more stop add that stop's reply |
| Poller.RunInOrder | cumtd_data_collection.py:273-274 | requests go out in list order, never beyond the list, and the whole list is requested unless the loop ended |
| Poller.RunCounted | cumtd_data_collection.py:279-282 | stops_requested counts the successful replies with one sleep each, and total_departures_logged sums the departures logged |
| Poller.RunEndedByLast | cumtd_data_collection.py:274-286 | only the last request can have ended the loop, and continue_collecting is false exactly when that request drew the quota reply |
| Poller.RequestsBounded | cumtd_data_collection.py:268-287 | stops_requested is at most the number of requests, which is at most the number of stops, and equals the number of sleeps |
| Poller.CountAtMostLength | cumtd_data_collection.py:280-281 | successes never outnumber the stops |
| Poller.EveryStopRequested | cumtd_data_collection.py:273-282 | with no quota reply and no exception, every stop is requested and collection goes on |
| Poller.QuotaMidBatch | cumtd_data_collection.py:285-286 | a 403 mid-batch stops all later requests and keeps the counts and tables reached before it |
| Poller.RunNeverInserts | cumtd_data_collection.py:268-287 | a whole run never inserts or re-keys a stop_times row and only appends to unscheduled_stops |

## Left out

- HTTP: building the request URL, the API key and `r.json()` are not modelled. The reply for each stop is the parameter `fetch`, which returns a connection error or a decoded response. A body that is not JSON is not modelled.
- The clock: `datetime.now()` is the parameter `now`, held fixed for the whole filter pass; the source reads the clock again for every row it scans. `time.sleep` is counted but not modelled. The elapsed time that analyze_all_stops returns is left out.
- `debug` and its printing are left out, like every log line.
- sqlite: the tables are values, and each `update_db` is one atomic write. The open/commit/close per call is not modelled. The SQL text, its quoting and its injection hazard are not modelled.
- `LIKE`: it is modelled as exact matching. Case folding and the `%`/`_` wildcards inside ids are not modelled. The stop-id pattern `'{0}:%'` is modelled as a prefix "id:".
- `ORDER BY arrival_time` in has_stops is not modelled, because it does not change whether some row qualifies.
- StopFilter.HasStops: it requires that the rows it reads have an arrival_time that splits on ":" into at least three pieces, each an integer. The source raises on such a row only when its scan, in `ORDER BY arrival_time` order, reaches that row before a qualifying one (it returns at line 258); the model does not cover tables with such rows.
- Timestamps.Normalize works on timestamps as records, not on text. `StampText` proves separately that the fixed-position reads, the colon strip and the rollover rewrite agree with the records. The exceptions `strptime` raises on malformed text are not modelled.
- `strptime` leniency is not modelled. It accepts the unpadded hour the rollover writes, so a parsed rolled stamp equals its padded form.
- Python `int()` accepting signs, whitespace and underscores is not modelled.
- Fields of the reply are assumed present, so their `KeyError` paths are not modelled: `result['status']['code']` (line 194), `result['status']['msg']` (line 203, read for every status other than 403 and 404), `departure['is_scheduled']`, `departure['trip']['trip_id']`, `departure['scheduled']`, `departure['expected']` (lines 208-222) and the final `result['rqst']['params']['stop_id']` (line 233).
- Poller.AnalyzeAllStops: the reply is a function of the stop id, so a stop listed twice gets the same reply both times; the source could see two different replies. The list main passes is strictly sorted (`StopIds.Candidates`), so no stop repeats there.
- The in-place rewriting of the departure dictionaries is not modelled; only the values derived from them are.
- setup, the CSV bootstrap functions `generate_all_stops_csv` and `cumtd_csv_to_sqlite`, `cumtd_request_url`, `name_to_stop_id` and `trip_id_to_route_id` are not part of this model.
- Poller.RunNeverInserts: does not state how each stop_times cell changes. Store.ApplyAllGrowth and Store.ScheduledWrite give that for each response.

## Findings

| source | as written | input that shows it | evidently intended | confidence | as-written member | corrected member |
|---|---|---|---|---|---|---|
| cumtd_data_collection.py:218 | the expected hour is read as `departure['expected'][1:13]`, a twelve-character slice starting after the first digit of the year | scheduled "2024-01-01T25:10:00-06:00" with any well-formed expected stamp: `int("024-01-01T25")` raises ValueError, which escapes analyze_all_stops and ends the run, so no departure running past midnight of the service day is ever logged | read the hour from `[11:13]`, as line 216 does for the scheduled stamp | not executed | StampText.ExpectedHourAsWrittenRaises | StampText.HourFieldReadsHour |

The rest of the model uses the corrected read. `Parser.NormalizePair`
takes the expected hour from the stamp itself, and
`Parser.RolledOverScenario` proves that a 25:10 departure is then stored.
