# PassesPerMinute in Dafny

A verified model of the computing core of PassesPerMinute. The system reads StatsBomb open-data match
events and reports, for every playing position, how many passes were made and how many minutes were
played there, and from those the passes per minute.

The heart of the model is the per-match position-timeline engine of `MatchProcessor`:

- It builds, for each player, the list of position intervals. The Starting XI opens them, a
  substitution hands one from player to player, and an in-place position change splits one.
- It closes every still-open interval at the match end and adds each interval's clamped length to its
  position's minutes.
- It credits every Pass to the position of the first closed half-open interval `[start, end)` that
  contains the pass minute.

Around it sit the helpers that sum and filter statistics, and the helpers that prepare what the charts
and the dashboard show:

- `{passes, minutes}` maps summed position by position;
- the per-match retry counter;
- season-name generation and season filtering;
- parsing of the comma-separated competition ids;
- ranking by passes per minute with a zero-minutes guard and a stable descending sort;
- greedy word wrapping of marker labels;
- the fill-then-rank step of the bar chart.

Modules follow the source files:

| module | file | form |
|---|---|---|
| `MatchProcessing` | `passes_counter/match_processor.py` | the loops of the processor are methods proved against folds; the `_match_counter` field lives in class `MatchProcessor` |
| `MatchExamples` | `passes_counter/match_processor.py` | the repository's test scenarios worked through the model |
| `CompetitionProcessing` | `passes_counter/competition_processor.py` | match ids, and the retry counter as class `RetryBook` |
| `CompetitionManager` | `passes_counter/competition_manager.py` | season names, and the filtering loop |
| `App` | `app.py` | season selection and the database aggregate |
| `StreamlitApp` | `streamlit_app.py` | id parsing, database filter and sum, table rows |
| `PlayerPositionStats` | `passes_counter/player_position_stats.py` | averages and their ranking |
| `FootballPitchChart` | `plotter/football_pitch_chart.py` | `_wrap_text` |
| `BarChart` | `plotter/bar_chart.py` | `POSITIONS` and `_prepare_data` |

The shared modules are:

- `Wrappers`: `Option` and `Result`.
- `Stats`: the statistics `defaultdict` as a map whose missing keys read as zero. It also holds the
  in-place accumulator class `Accumulator`, which is `_aggregate_positions`.
- `Text`: `split`, `strip`, `str.split()`, `int()` and `str()` on integers.
- `Sorting`: Python's stable `sorted(..., reverse=True)` by a real key.

How the model represents the source:

- A match event is a record of the optional fields the processor reads. `None` stands for a missing
  `minute`, `player`, `tactics` or `substitution` key, and for a `position` that is missing or empty.
  A missing `minute`, `player`, `tactics` or `substitution` is the `KeyError` the source raises for
  it. Keys nested deeper are taken to be present; "## Left out" lists them.
- `player_positions` is a sequence of `(player, timeline)` entries, so that the dictionary's insertion
  order is kept.
- The HTTP fetch of the events is replaced by the event list as a parameter. The fetch of the
  competition list is replaced by an `Option` parameter, where `None` is a failed fetch.
- Averages are exact rational numbers.

The comment at match_processor.py:110 ("from events or default 90") and the `else 90` at match_processor.py:113 suggest that 90 is the fallback when no minute is known. That `else 90` is unreachable, because `get("minute", 0)` makes the list of minutes non-empty whenever there are events. The model follows the code:

- The match end is the largest `event.get("minute", 0)`, so a non-empty event list without any minute
  ends at 0.
- Only an empty event list ends at 90.

## Model

| member | source | states |
|---|---|---|
| MatchProcessing.IndexOf | src/passes_per_minute/passes_counter/match_processor.py:55-57 | a player is found exactly when tracked, at the first entry with that id |
| MatchProcessing.Lookup | src/passes_per_minute/passes_counter/match_processor.py:86-87 | `player_id in player_positions` holds exactly when the lookup yields a timeline |
| MatchProcessing.Put | src/passes_per_minute/passes_counter/match_processor.py:38 | assigning a tracked player keeps every key in place; a new player is appended last, as in dict insertion order |
| MatchProcessing.PutLookup | src/passes_per_minute/passes_counter/match_processor.py:38 | after `player_positions[p] = tl`, `p` reads `tl`, every other player reads what it read before, and the tracked players are the old ones plus `p` |
| MatchProcessing.PutDistinct | src/passes_per_minute/passes_counter/match_processor.py:38 | an assignment never makes a player appear twice, and adds no entry but the assigned one |
| MatchProcessing.PutValid | src/passes_per_minute/passes_counter/match_processor.py:38 | assigning a well-formed timeline keeps the builder invariant |
| MatchProcessing.LookupValid | src/passes_per_minute/passes_counter/match_processor.py:60 | a tracked timeline of a well-formed roster is non-empty and chained |
| MatchProcessing.CloseLast | src/passes_per_minute/passes_counter/match_processor.py:62 | setting `[-1]["end_time"] = m` keeps every earlier interval and the last one's position and start |
| MatchProcessing.LineupLookup | src/passes_per_minute/passes_counter/match_processor.py:33-38 | after the lineup loop, a listed player's timeline is exactly one open interval at the player's lineup position from minute 0, overwriting the old one; unlisted players are untouched |
| MatchProcessing.ApplyLineupValid | src/passes_per_minute/passes_counter/match_processor.py:33-38 | the lineup keeps the builder invariant |
| MatchProcessing.ExtractStartingXi | src/passes_per_minute/passes_counter/match_processor.py:33-38 | the loop leaves the roster the lineup specifies |
| MatchProcessing.HandleSubstitution | src/passes_per_minute/passes_counter/match_processor.py:50-64 | `KeyError` for a missing player, replacement or minute; an untracked outgoing player leaves the map unchanged; otherwise the outgoing last interval ends at the minute, the incoming player gets one open interval in that position from the minute, and nobody else changes |
| MatchProcessing.UpdatePlayerPositions | src/passes_per_minute/passes_counter/match_processor.py:76-93 | `KeyError` for a missing player, or for a position without a minute; no-op without a position, for an untracked player or for the same position; otherwise the last interval closes at the minute and an open one in the new position starts there, and nobody else changes |
| MatchProcessing.MovedValid | src/passes_per_minute/passes_counter/match_processor.py:91-93 | the new interval starts exactly where the closed one ends |
| MatchProcessing.CloseLastValid | src/passes_per_minute/passes_counter/match_processor.py:62 | closing the last interval keeps a timeline well formed |
| MatchProcessing.HandleSubstitutionValid | src/passes_per_minute/passes_counter/match_processor.py:59-64 | on a well-formed roster a substitution never hits `[-1]` of an empty list and keeps the builder invariant |
| MatchProcessing.UpdatePlayerPositionsValid | src/passes_per_minute/passes_counter/match_processor.py:86-93 | on a well-formed roster a position change never hits an empty list and keeps the builder invariant |
| MatchProcessing.ApplyEventValid | src/passes_per_minute/passes_counter/match_processor.py:203-215 | one iteration of the event loop keeps the builder invariant and never raises `IndexError` |
| MatchProcessing.BuildFromValid | src/passes_per_minute/passes_counter/match_processor.py:203-215 | the event loop keeps the builder invariant over any event list |
| MatchProcessing.BuildRosterValid | src/passes_per_minute/passes_counter/match_processor.py:196-215 | from an empty map the loop ends with non-empty, chained timelines, never an `IndexError` |
| MatchProcessing.BuildTimelines | src/passes_per_minute/passes_counter/match_processor.py:196-215 | the event loop (Starting XI or Substitution rule, then the position-change rule when the event names a player) yields the roster, or the first exception, of the specification fold |
| MatchProcessing.MatchEnd | src/passes_per_minute/passes_counter/match_processor.py:111-115 | 90 for no events; otherwise an upper bound of every `get("minute", 0)` that one of them attains |
| MatchProcessing.CloseOpen | src/passes_per_minute/passes_counter/match_processor.py:121-122 | an open last interval is closed at the end, a closed one is kept, earlier intervals are kept, and the result is fully closed |
| MatchProcessing.CloseAll | src/passes_per_minute/passes_counter/match_processor.py:119-122 | every player keeps its place and id and has its timeline closed |
| MatchProcessing.AddTimelineMinutesKeys | src/passes_per_minute/passes_counter/match_processor.py:125-132 | the positions touched are the old ones plus the positions of the timeline |
| MatchProcessing.AddTimelineMinutesMeaning | src/passes_per_minute/passes_counter/match_processor.py:125-132 | each position gains the clamped lengths `max(0, end - start)` of its intervals, and passes are unchanged |
| MatchProcessing.TimelineTelescopes | src/passes_per_minute/passes_counter/match_processor.py:125-132 | for a chained timeline with non-decreasing bounds, the minutes add up to the last end minus the first start |
| MatchProcessing.ValidRosterOnlyLastOpen | src/passes_per_minute/passes_counter/match_processor.py:119-122 | in a built roster only last intervals can be open |
| MatchProcessing.CloseAllClosed | src/passes_per_minute/passes_counter/match_processor.py:119-122 | after closing, no interval is open |
| MatchProcessing.FinalizeProcess | src/passes_per_minute/passes_counter/match_processor.py:111-132 | closes open last intervals at the match end and adds each interval's clamped length to its position's minutes, in the roster's order |
| MatchProcessing.AddRosterMinutesMeaning | src/passes_per_minute/passes_counter/match_processor.py:119-132 | over the whole closed roster, each position gains the clamped lengths of its intervals summed over every player, and passes are unchanged |
| MatchProcessing.AddIntervalMinutes | src/passes_per_minute/passes_counter/match_processor.py:125-132 | the inner loop over one player's intervals adds that timeline's minutes |
| MatchProcessing.FirstCovering | src/passes_per_minute/passes_counter/match_processor.py:159-170 | the index the scan stops at contains the minute and no earlier one does; none means no interval contains it; open intervals contain nothing |
| MatchProcessing.Attribution | src/passes_per_minute/passes_counter/match_processor.py:150-170 | a credited event is a Pass with a tracked player and goes to the first closed interval containing `get("minute", 0)`; a tracked Pass is uncredited only when no closed interval contains its minute |
| MatchProcessing.AggregatePassData | src/passes_per_minute/passes_counter/match_processor.py:150-170 | the pass loop adds one pass per credited Pass to its position |
| MatchProcessing.CreditPassesKeys | src/passes_per_minute/passes_counter/match_processor.py:169 | the positions touched are the old ones plus those some Pass is credited to |
| MatchProcessing.CreditPassesMeaning | src/passes_per_minute/passes_counter/match_processor.py:150-170 | each position gains the number of Passes credited to it, and minutes are unchanged |
| MatchProcessing.HitsAtMostOne | src/passes_per_minute/passes_counter/match_processor.py:167-170 | one event adds at most one pass over all positions, and none unless it is a Pass with a player |
| MatchProcessing.PassesNeverExceedPassEvents | src/passes_per_minute/passes_counter/match_processor.py:150-170 | the passes credited over any distinct positions never exceed the number of Pass events |
| MatchProcessing.EndsBeforeLaterStart | src/passes_per_minute/passes_counter/match_processor.py:91-93 | in a chained timeline with non-decreasing bounds, every interval ends no later than any later one starts |
| MatchProcessing.BoundaryPassGoesToLaterInterval | src/passes_per_minute/passes_counter/match_processor.py:159-170 | a pass at the minute of a position change goes to the new position |
| MatchProcessing.MatchStats | src/passes_per_minute/passes_counter/match_processor.py:193-223 | a whole match never fails with `IndexError`; only missing keys abort it |
| MatchProcessing.MatchProcessor.constructor | src/passes_per_minute/passes_counter/match_processor.py:19-21 | the counter starts at 0 |
| MatchProcessing.MatchProcessor.ProcessMatch | src/passes_per_minute/passes_counter/match_processor.py:181-238 | returns the statistics of build, then finalize, then passes, and raises the source's exception otherwise; the counter goes up by exactly 1 on success and is untouched on an exception |
| MatchProcessing.NoLineupKeepsRosterEmpty | src/passes_per_minute/passes_counter/match_processor.py:203-215 | without a Starting XI no player is ever tracked |
| MatchProcessing.CreditPassesNobodyTracked | src/passes_per_minute/passes_counter/match_processor.py:157 | with no tracked player no pass is credited |
| MatchProcessing.NoStartingXiGivesEmptyStats | tests/passes_counter/test_match_processor.py:327-348 | a match without a Starting XI gives empty statistics |
| MatchExamples.FinalizeClosesAtLastMinute | tests/passes_counter/test_match_processor.py:160-183 | the last event at 92 closes RB; GK 90, CB 30, RB 62 minutes |
| MatchExamples.FinalizeDefaultsToNinety | tests/passes_counter/test_match_processor.py:185-195 | no events: an open LW interval from 10 closes at 90, giving 80 minutes |
| MatchExamples.FinalizeClampsNegativeLengths | tests/passes_counter/test_match_processor.py:197-216 | start 50 and end 30 count 0 minutes |
| MatchExamples.ExampleAttributions | tests/passes_counter/test_match_processor.py:218-245 | passes at 0 and 29 go to CM, at 30 and 59 to CAM; an untracked passer and a non-pass go nowhere |
| MatchExamples.PassesFollowPositionIntervals | tests/passes_counter/test_match_processor.py:218-245 | CM and CAM get 2 passes each and no other position appears |
| MatchExamples.CreditPassesAppend | src/passes_per_minute/passes_counter/match_processor.py:150-170 | the pass loop over two event lists in a row is the loop over their concatenation |
| MatchExamples.OpenIntervalEarnsNoPass | tests/passes_counter/test_match_processor.py:247-268 | a pass inside a still-open interval is not counted |
| MatchExamples.ExampleMatchRoster | tests/passes_counter/test_match_processor.py:270-325 | the end-to-end events build GK 0-open, CB 0-15 then RB 15-30, RB 30-open |
| MatchExamples.ExampleMatchEnd | tests/passes_counter/test_match_processor.py:270-325 | the end-to-end match ends at 80 |
| MatchExamples.ExampleMatchClosed | tests/passes_counter/test_match_processor.py:270-325 | closing at 80 gives the fully closed timelines |
| MatchExamples.ExampleMatchMinutes | tests/passes_counter/test_match_processor.py:270-325 | GK gains 80, CB 15 and RB 65 minutes |
| MatchExamples.ExampleMatchPasses | tests/passes_counter/test_match_processor.py:270-325 | the three passes at 20, 40 and 70 all go to RB |
| MatchExamples.ExampleMatchStats | tests/passes_counter/test_match_processor.py:270-325 | the end-to-end result is GK 0/80, CB 0/15, RB 3/65 and nothing else |
| MatchExamples.ExampleMatchTotals | tests/passes_counter/test_match_processor.py:270-325 | minutes then passes on an empty map give exactly GK 0/80, CB 0/15, RB 3/65 |
| MatchExamples.ProcessExampleMatch | tests/passes_counter/test_match_processor.py:270-325 | a fresh processor returns RB 3/65 and has counted one match |
| Stats.Credit | src/passes_per_minute/passes_counter/match_processor.py:132 | `m[pos][field] += x` on the defaultdict: `pos` gains the amounts, every other position reads as before, and `pos` becomes a key |
| Stats.Combine | src/passes_per_minute/passes_counter/competition_processor.py:83-85 | every position reads the sum of the two maps' totals, and the keys are the union |
| Stats.CombineCommutative | src/passes_per_minute/passes_counter/competition_processor.py:83-85 | adding a into b or b into a gives the same totals |
| Stats.CombineAssociative | src/passes_per_minute/passes_counter/competition_processor.py:83-85 | grouping of additions does not matter |
| Stats.CombineEmpty | src/passes_per_minute/passes_counter/competition_processor.py:83-85 | adding an empty map changes nothing |
| Stats.EmptyStats | src/passes_per_minute/passes_counter/competition_processor.py:17-24 | the fresh map has no keys and every position reads `{passes: 0, minutes: 0}` |
| Stats.SumIntoMeaning | src/passes_per_minute/app.py:137-141 | summing maps gives each position the sums of its passes and of its minutes, and the keys of all maps |
| Stats.SumIntoSnoc | src/passes_per_minute/app.py:137-141 | summing one more map adds it into the running total |
| Stats.SumIntoMoveFront | src/passes_per_minute/passes_counter/competition_processor.py:134-139 | any map can be added first without changing the sum |
| Stats.SumIntoAnyOrder | src/passes_per_minute/passes_counter/competition_processor.py:134-139 | the sum is the same for every completion order of the futures |
| Stats.Accumulator.constructor | src/passes_per_minute/passes_counter/competition_processor.py:17-24 | a new accumulator holds the empty statistics |
| Stats.Accumulator.AddPositions | src/passes_per_minute/passes_counter/competition_processor.py:83-85 | `_aggregate_positions` leaves `total` equal to the old totals plus `partial`, position by position |
| CompetitionProcessing.ExtractMatchIds | src/passes_per_minute/passes_counter/competition_processor.py:46-53 | one id per match in input order, or the `KeyError` "match_id" exactly when some match has no id |
| CompetitionProcessing.ExtractMatchIdsAppend | src/passes_per_minute/passes_counter/competition_processor.py:53 | the ids of two lists in a row are the ids of each, concatenated |
| CompetitionProcessing.ExtractMatchIdsExamples | tests/passes_counter/test_competition_process.py:86-94 | `[10, 11]` from two matches, `[]` from none |
| CompetitionProcessing.AggregatePositionsExample | tests/passes_counter/test_competition_process.py:139-150 | GK 5/90 plus 2/45 is 7/135, and CB and LB keep their single contributions |
| CompetitionProcessing.AddedTwice | src/passes_per_minute/passes_counter/competition_processor.py:83-85 | two partials added into a fresh total give their elementwise sum |
| CompetitionProcessing.CompetitionExample | tests/passes_counter/test_competition_process.py:305-334 | three match results in any completion order give GK 12/180 and CB 5/95 |
| CompetitionProcessing.SumOfThree | src/passes_per_minute/passes_counter/competition_processor.py:134-139 | three partials in any order sum elementwise |
| CompetitionProcessing.Retry | src/passes_per_minute/passes_counter/competition_processor.py:108-115 | below `MAX_MATCH_RETRIES` (3) the match's counter grows by exactly 1, other counters are untouched, and exactly one pending entry for the match is added; otherwise the `RuntimeError` names the match |
| CompetitionProcessing.FailRepeatedlyMeaning | src/passes_per_minute/passes_counter/competition_processor.py:108-115 | k failures in a row are absorbed exactly when the counter has room for k, adding k to the counter and k pending entries; otherwise the error names the match |
| CompetitionProcessing.AtMostMaxRetries | src/passes_per_minute/passes_counter/competition_processor.py:131 | with counters fresh at each drain, a match is resubmitted 3 times and the fourth failure raises |
| CompetitionProcessing.RetryIndependent | src/passes_per_minute/passes_counter/competition_processor.py:108-109 | retrying one match never changes whether another may be retried |
| CompetitionProcessing.RetryMessageExample | src/passes_per_minute/passes_counter/competition_processor.py:115 | the message reads "Failed to process match 99 after 3 retries" |
| CompetitionProcessing.RetryBook.constructor | src/passes_per_minute/passes_counter/competition_processor.py:131 | counters start empty, and the submitted futures are pending |
| CompetitionProcessing.RetryBook.HandleErrorOrRetry | src/passes_per_minute/passes_counter/competition_processor.py:108-115 | updates counters and pending futures as `Retry` says, or fails with its message and changes nothing |
| CompetitionManager.GenerateSeasonsAndYears | src/passes_per_minute/passes_counter/competition_manager.py:20-24 | `2 * (end - start + 1)` names, the seasons `"y/y+1"` first and then the years `"y"`, and nothing for an inverted range |
| CompetitionManager.SeasonNamesSound | src/passes_per_minute/passes_counter/competition_manager.py:20-24 | each element is the season or the year string of the year at its index |
| CompetitionManager.GeneratedNameForm | src/passes_per_minute/passes_counter/competition_manager.py:20-24 | every generated name names some year of the range |
| CompetitionManager.SeasonNamesComplete | src/passes_per_minute/passes_counter/competition_manager.py:20-24 | every year of the range appears as a season and as a year |
| CompetitionManager.SeasonNameSplits | src/passes_per_minute/passes_counter/competition_manager.py:20 | a season name splits at `/` into the year and the next one |
| CompetitionManager.SeasonNameInjective | src/passes_per_minute/passes_counter/competition_manager.py:20 | different years give different season names |
| CompetitionManager.SeasonNameNotYear | src/passes_per_minute/passes_counter/competition_manager.py:20-22 | a season name is never a year string |
| CompetitionManager.SeasonNamesDistinct | src/passes_per_minute/passes_counter/competition_manager.py:20-24 | the generated names are pairwise distinct |
| CompetitionManager.SingleYearNames | tests/passes_counter/test_competition_manager.py:89-95 | `(2020, 2020)` gives `"2020/2021", "2020"` |
| CompetitionManager.ThreeYearNames | tests/passes_counter/test_competition_manager.py:73-87 | `(2019, 2021)` gives `"2019/2020", "2020/2021", "2021/2022"`, then `"2019", "2020", "2021"` |
| CompetitionManager.TwoYearNames | tests/passes_counter/test_competition_manager.py:134-137 | `(2019, 2020)`, the range of the filtering test, gives the two seasons, then the two years |
| CompetitionManager.GetCompetitionSeasons | src/passes_per_minute/passes_counter/competition_manager.py:64-73 | the loop returns the `(competition_id, season_id)` of the wanted entries, in input order |
| CompetitionManager.FilteredAppend | src/passes_per_minute/passes_counter/competition_manager.py:70-73 | filtering two lists in a row is filtering each |
| CompetitionManager.FilteredMembership | src/passes_per_minute/passes_counter/competition_manager.py:70-73 | a pair is returned exactly when some input entry has a target id and a generated season name and carries that pair |
| CompetitionManager.FilteredLength | src/passes_per_minute/passes_counter/competition_manager.py:70-73 | never more pairs than competitions |
| CompetitionManager.FilteredNone | tests/passes_counter/test_competition_manager.py:142-163 | no wanted entry gives `[]` |
| CompetitionManager.InvertedRangeSelectsNothing | tests/passes_counter/test_competition_manager.py:166-187 | an inverted year range gives `[]` for every competition list |
| CompetitionManager.FilterExample | tests/passes_counter/test_competition_manager.py:114-139 | ids 9 and 16 over 2019-2020 keep `(9, 101)` and `(16, 202)` only |
| App.YearText | src/passes_per_minute/app.py:49 | the year text is the part before the first `/`, or the whole name |
| App.FetchAndFilterSeasons | src/passes_per_minute/app.py:36-67 | a failed fetch gives `[]`; otherwise the loop returns the selection of every entry, in input order |
| App.SelectSeason | src/passes_per_minute/app.py:46-65 | an entry yields at most one record, none when its year does not parse, else the specified selection |
| App.SeasonsSelectedAppend | src/passes_per_minute/app.py:45-65 | the selection of two lists in a row is the selection of each |
| App.SelectionMeaning | src/passes_per_minute/app.py:56-65 | a record comes from an entry exactly when its year parses, its id is a target, the year is in range, and the record copies the fields plus the year |
| App.SeasonsSelectedMembership | src/passes_per_minute/app.py:45-65 | a record is returned exactly when some entry keeps it |
| App.UnparsableSkipped | src/passes_per_minute/app.py:51-53 | an entry whose year does not parse is skipped without affecting the others |
| App.YearOfSeasonExample | src/passes_per_minute/app.py:48-50 | "2018/2019" gives 2018 |
| App.YearOfPlainExample | src/passes_per_minute/app.py:48-50 | "2018" gives 2018 |
| App.YearOfUnparsableExample | src/passes_per_minute/app.py:50-53 | "Season" does not parse |
| App.SeasonYear | src/passes_per_minute/app.py:49-50 | a season name `"y/y+1"` gives year y |
| App.PlainYear | src/passes_per_minute/app.py:49-50 | a year string gives its year |
| App.GeneratedNameYear | src/passes_per_minute/app.py:47-56 | every season name the manager generates for a range parses to a year in that range |
| App.ManagerSelectionKept | src/passes_per_minute/app.py:56-65 | an entry the manager's filter wants is selected by the app with the same range and ids |
| App.AggregateStatistics | src/passes_per_minute/app.py:134-143 | the loop leaves the sum of every entry's statistics |
| App.AggregateMeaning | src/passes_per_minute/app.py:137-141 | each position gets the sum of its passes and of its minutes over all entries |
| App.AggregateEmpty | src/passes_per_minute/app.py:134-143 | an empty database gives an empty map |
| App.AggregateAnyOrder | src/passes_per_minute/app.py:137-141 | the order in which the seasons were stored does not change the aggregate |
| StreamlitApp.ParseCompetitionIds | src/passes_per_minute/streamlit_app.py:290-293 | fails with "Invalid ID format. Please use numbers separated by commas." exactly when some non-blank piece is no integer, and returns no partial list |
| StreamlitApp.ParsePiecesDefined | src/passes_per_minute/streamlit_app.py:291 | the pieces parse exactly when every non-blank stripped piece is an integer |
| StreamlitApp.ParsePiecesMeaning | src/passes_per_minute/streamlit_app.py:291 | a list from the comprehension has one entry per non-blank piece, and its i-th entry is `int()` of the i-th non-blank piece |
| StreamlitApp.ParseCompetitionIdsMeaning | src/passes_per_minute/streamlit_app.py:290-291 | a successful parse is `int()` of every non-blank piece between commas, in their order |
| StreamlitApp.BlankIdsParseEmpty | src/passes_per_minute/streamlit_app.py:291 | a blank or comma-only string gives `[]` |
| StreamlitApp.ParsePiecesPrinted | src/passes_per_minute/streamlit_app.py:291 | pieces printed from integers parse back to those integers, in order |
| StreamlitApp.ParseCompetitionIdsRoundTrip | src/passes_per_minute/streamlit_app.py:290-293 | ids joined by commas parse back to the same ids |
| StreamlitApp.ParseCompetitionIdsExample | src/passes_per_minute/streamlit_app.py:287-288 | "9, 16, 55" gives `[9, 16, 55]` |
| StreamlitApp.FilterAndAggregateDatabase | src/passes_per_minute/streamlit_app.py:202-218 | the count is the number of entries with the year in the inclusive range and a selected id, and the map is the sum of exactly those entries' statistics |
| StreamlitApp.DatabaseExample | src/passes_per_minute/streamlit_app.py:186-199 | the docstring database over 2020-2021 and competition 9 gives CM 150/300, ST 30/80 and count 2 |
| StreamlitApp.MatchingMembership | src/passes_per_minute/streamlit_app.py:205-210 | an entry is counted exactly when it is in the database and passes the filter |
| StreamlitApp.MatchingLength | src/passes_per_minute/streamlit_app.py:205-210 | the count never exceeds the database size |
| StreamlitApp.MatchingEverything | src/passes_per_minute/streamlit_app.py:205-210 | when every entry passes, all are summed, as `aggregate_statistics` does |
| StreamlitApp.MatchingNothing | src/passes_per_minute/streamlit_app.py:202-218 | when no entry passes, the count is 0 and the map is empty |
| StreamlitApp.RowOf | src/passes_per_minute/streamlit_app.py:65-77 | a row carries the position, its passes and minutes, and passes/minutes as the average, or 0 without minutes |
| StreamlitApp.PrepareTableData | src/passes_per_minute/streamlit_app.py:60-82 | one row per position, a permutation of the unsorted rows, by non-increasing average, rows with equal averages in input order |
| StreamlitApp.TableExample | src/passes_per_minute/streamlit_app.py:47-58 | CM 0.5, ST 0.5 (order kept), GK 0.05 |
| PlayerPositionStats.Average | src/passes_per_minute/passes_counter/player_position_stats.py:24-27 | passes/minutes when minutes is positive, otherwise 0, never a division by zero |
| PlayerPositionStats.CalculateAveragePasses | src/passes_per_minute/passes_counter/player_position_stats.py:10-32 | exactly one pair per input position, a permutation of the unsorted pairs, by non-increasing average, equal averages in input order |
| PlayerPositionStats.RankingProperties | src/passes_per_minute/passes_counter/player_position_stats.py:32 | the stable descending sort keeps length, positions and pairs, orders by average and keeps the order of ties |
| PlayerPositionStats.ZeroMinutesExample | tests/passes_counter/test_player_position_stats.py:40-46 | `{"CM": 25/0}` gives `[("CM", 0)]` |
| PlayerPositionStats.EmptyExample | tests/passes_counter/test_player_position_stats.py:49-51 | no positions give `[]` |
| FootballPitchChart.WrapText | src/passes_per_minute/plotter/football_pitch_chart.py:70-100 | the loop produces the greedy layout, and the output's words are the input's words in order |
| FootballPitchChart.WrapKeepsWords | src/passes_per_minute/plotter/football_pitch_chart.py:79-100 | `_wrap_text(text).split()` equals `text.split()` |
| FootballPitchChart.WrapLines | src/passes_per_minute/plotter/football_pitch_chart.py:96-100 | the output split at newlines is the laid-out lines joined by single blanks |
| FootballPitchChart.WrapLinesShort | src/passes_per_minute/plotter/football_pitch_chart.py:85-93 | every output line of two or more words is at most `max_width` long |
| FootballPitchChart.WrapAllLinesFit | tests/plotter/test_football_pitch_chart.py:53-61 | when no word is longer than `max_width`, no line is |
| FootballPitchChart.WrapOneLine | src/passes_per_minute/plotter/football_pitch_chart.py:85-97 | words that fit in `max_width` come back as that single line with no newline |
| FootballPitchChart.WrapBreaks | src/passes_per_minute/plotter/football_pitch_chart.py:85-90 | two or more words that do not fit are broken onto several lines |
| FootballPitchChart.WrapBlank | src/passes_per_minute/plotter/football_pitch_chart.py:96-100 | the output is empty exactly when the text is all whitespace |
| FootballPitchChart.WrapLongFirstWord | src/passes_per_minute/plotter/football_pitch_chart.py:85-90 | a first word longer than `max_width` is preceded by an empty line |
| FootballPitchChart.PositionLabel | src/passes_per_minute/plotter/football_pitch_chart.py:179 | the marker label wraps the position at the default width of 15 (football_pitch_chart.py:70), keeps its words, and has no line wider than 15 when no word is |
| FootballPitchChart.ShortExample | tests/plotter/test_football_pitch_chart.py:63-65 | "Short" comes back unchanged |
| FootballPitchChart.ShortUnchanged | tests/plotter/test_football_pitch_chart.py:63-65 | "Short" at width 50 is unchanged |
| BarChart.Filled | src/passes_per_minute/plotter/bar_chart.py:73 | one pair per name, in order, carrying the input value or 0.0 |
| BarChart.RankMeaning | src/passes_per_minute/plotter/bar_chart.py:73-86 | for non-empty names: success, positions a permutation of the names, one value per position equal to its input value or 0.0, values non-increasing |
| BarChart.PrepareDataMeaning | src/passes_per_minute/plotter/bar_chart.py:62-86 | never the "No positions to plot." error; 25 positions that permute `POSITIONS`, each paired with its value or 0.0, by non-increasing value |
| BarChart.PositionsCount | src/passes_per_minute/plotter/bar_chart.py:12-38 | `POSITIONS` has 25 names |
| BarChart.PositionsDistinct | src/passes_per_minute/plotter/bar_chart.py:12-38 | no name of `POSITIONS` occurs twice |
| BarChart.RankShows | src/passes_per_minute/plotter/bar_chart.py:73-86 | a name is shown exactly when it is one of the names filled |
| BarChart.PrepareDataShows | src/passes_per_minute/plotter/bar_chart.py:73 | input keys outside `POSITIONS` are dropped and every position is shown |
| BarChart.RankNoValues | src/passes_per_minute/plotter/bar_chart.py:73-76 | names without values come back in their own order with 0.0 each |
| BarChart.PrepareDataNoValues | tests/plotter/test_bar_chart.py:71-84 | empty input gives 25 zeros in `POSITIONS` order |
| Text.Strip | src/passes_per_minute/streamlit_app.py:291 | `strip()` removes whitespace at both ends only, and is empty exactly for blank text |
| Text.SplitOn | src/passes_per_minute/streamlit_app.py:291 | `split(",")` gives at least one piece, no piece holds the separator, and the pieces join back to the text |
| Text.SplitJoin | src/passes_per_minute/streamlit_app.py:291 | separator-free pieces joined and split again come back unchanged |
| Text.WordsOfJoin | src/passes_per_minute/plotter/football_pitch_chart.py:79 | `" ".join(words).split()` gives the words back |
| Text.ParseInt | src/passes_per_minute/app.py:50 | `int()` fails on blank text |
| Text.ParseIntToString | src/passes_per_minute/streamlit_app.py:291 | `int(str(n)) == n` |
| Sorting.SortDescNonIncreasing | src/passes_per_minute/passes_counter/player_position_stats.py:32 | `sorted(..., reverse=True)` orders by non-increasing key |
| Sorting.SortDescPermutation | src/passes_per_minute/passes_counter/player_position_stats.py:32 | the sort is a permutation of its input |
| Sorting.SortDescStable | src/passes_per_minute/passes_counter/player_position_stats.py:32 | elements with equal keys keep their input order |
| Sorting.SortDescSortedUnchanged | src/passes_per_minute/plotter/bar_chart.py:76 | an already non-increasing list is returned unchanged |

## Left out

- HTTP access is left out: `get_json`, `fetch_competitions`, `_fetch_matches` and the `http_client` session with its retries, sleeps and jitter. The fetched JSON is a parameter of the model: the event list, the competition list, or `None` for a failed fetch.
- Threads are left out: `ThreadPoolExecutor`, `as_completed`, `_submit_all_tasks`, the dictionary of futures, and the `Lock` around the match counter. The futures' completion order becomes an arbitrary permutation, covered by `Stats.SumIntoAnyOrder` and `CompetitionProcessing.CompetitionExample`. The counter is a plain field.
- `_drain_results_loop` is modelled through its pieces only: `Stats.Accumulator.AddPositions` for a result, and `CompetitionProcessing.RetryBook.HandleErrorOrRetry` for a `ValueError`, `KeyError`, `TypeError` or `ConnectionError`. The re-raise of other exceptions needs a live executor and is not modelled.
- `process_competition` and `build_granular_database` chain the fetch, the thread pool and the steps above. They are not modelled as wholes. That includes the way `build_granular_database` skips failed seasons.
- `run` in `app.py` and the exit codes are not modelled: it orchestrates I/O around the modelled steps.
- Logging is left out.
- Matplotlib drawing is left out: `_draw_pitch`, `_draw_markers_and_text` (except its label text, `FootballPitchChart.PositionLabel`), `_create_chart`, `_annotate_bars`, `_style_chart`, `plot_bar_chart`, `plot_pitch_chart` and `draw_plots`.
- The Streamlit UI is left out: `render_dashboard`, `configure_page`, `run_fast_mode`, `run_live_mode`, `_get_live_mode_config` and `main`.
- File I/O and console output are left out: `save_database_to_json`, `_load_local_database` and `print_summary`.
- `_validate` in `bar_chart.py` and `football_pitch_chart.py` is left out. It performs run-time type checks (`isinstance`, `math.isfinite`), which the types of the model make unnecessary.
- Floating point is left out. Averages and chart values are exact reals, so float rounding and the resulting near-tie orderings are not captured.
- Python's `int()` is modelled as an optional sign followed by ASCII digits, after stripping. Underscores, Unicode digits and other bases are not accepted.
- Whitespace (`Text.IsSpace`) is the ASCII blank, tab, newline, vertical tab, form feed and carriage return, plus the separators `\x1c` to `\x1f`. These are the ASCII characters Python's `str.split()` and `str.strip()` treat as whitespace. The non-ASCII whitespace Python also accepts is not whitespace in the model: `\x85`, `\xa0`, U+1680, U+2000 to U+200A, U+2028, U+2029, U+202F, U+205F and U+3000. So `Text.Words`, `Text.Strip`, `Text.ParseInt`, `FootballPitchChart.WrapText` and `StreamlitApp.ParseCompetitionIds` treat those characters as ordinary text.
- The statistics dictionaries, `attempts` and the pending futures are maps, which have no order. The insertion order of the statistics maps is therefore not modelled. That order is the order of the database entries, then of each entry's `stats`. It fixes the tie order of the two rankings, `calculate_average_passes` and `prepare_table_data`, when they are given the maps built by `_filter_and_aggregate_database` (streamlit_app.py:254-266, 409) or `raw_stats` (streamlit_app.py:122). `PlayerPositionStats.CalculateAveragePasses` and `StreamlitApp.PrepareTableData` take the items as a sequence in an arbitrary order. Their stability is stated relative to that sequence.
- `MatchProcessing.MatchStats` covers only the outer keys the processor reads. Nested keys are assumed present, so the `KeyError`s they raise are not modelled:
  - a non-empty `position` object without `name` (match_processor.py:83);
  - `tactics` without `lineup`, or a lineup entry without `player`, `player.id`, `position` or `position.name` (match_processor.py:33-35);
  - a `substitution` object without `replacement` or `replacement.id` (match_processor.py:51). The model reports a missing `substitution` as `KeyError("substitution")`; incomplete objects are not represented;
  - a `player` object without `id` (match_processor.py:50, 76, 153).

  Other malformed JSON, such as a non-integer minute, is not modelled either.
- `MatchProcessing.UpdatePlayerPositions`, `MatchProcessing.HandleSubstitution` and `MatchProcessing.ExtractStartingXi` inherit that gap. A `position` object without `name` is not representable, so the `KeyError('name')` of match_processor.py:83 is not part of their contracts.
- `CompetitionManager.GetCompetitionSeasons`, `App.FetchAndFilterSeasons`, `App.SelectSeason`, `App.AggregateStatistics` and `StreamlitApp.FilterAndAggregateDatabase`: the competition and database records are total, so the `KeyError` the source raises for a missing key is not modelled. The keys concerned:
  - `competition_id`, `season_name` and `season_id` (competition_manager.py:71-73, app.py:47, 56, 59-62, which also reads `competition_name`). In `app.py` such a `KeyError` aborts the whole call, because only `ValueError` is caught (app.py:51);
  - `stats`, `passes` and `minutes` (app.py:138-141, streamlit_app.py:211-216);
  - `meta`, `year` and `competition_id` (streamlit_app.py:206-209).
