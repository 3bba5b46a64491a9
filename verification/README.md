# Library sign-in tracker — a verified model

The Holy Family NMTC library time tracker is a single-page React app. Students sign in at the
desk with a name and a course level (100 to 400). While they are in the library they appear in
the list of current sessions, each with a running clock. They sign out again, and each visit
becomes a completed session in the session log, where staff can filter, edit, add, delete and
export sessions. A summary view adds the visits up per student in three forms: a sortable,
searchable leaderboard table, a bar chart of the top students, and two pie charts (students per
level, and time per student).

This project models the logic behind those screens in Dafny:

- `Store` (store.dfy): the two lists of `App.tsx`, signed-in sessions and completed sessions,
  held by the class `SessionStore`. Its five handlers (time-in, time-out, edit, manual add,
  delete) are methods, each specified by a function on the lists, and the list of known names
  is a function.
- `Durations` (durations.dfy): the whole-second arithmetic and the hours/minutes/seconds split
  used everywhere. It also holds the short "1h 1m" display and the zero-padded `HH:MM:SS`
  clock text.
- `Aggregation` (aggregation.dfy): the leaderboard rows, one per exact (name, level) pair. The
  dictionary-filling loop is a method proved equal to a function. The module also builds the
  level pie and the time-per-name pie with the top nine and "Other Students".
- `Leaderboard` (leaderboard.dfy): the search and column sort of the leaderboard, the "Top N"
  cut, the y-axis scale and ticks, the bar geometry and the table bar widths. It also holds the
  table CSV export and the chart-data CSV export.
- `PieChart` (piechart.dfy): the empty-data guard, the slice angles threaded through a loop,
  the SVG arc description, the legend truncation and the drawing height.
- `SessionLog` (sessionlog.dfy): the four log filters, the total under the table, the CSV and
  PDF exports, and the checks the add and edit dialogs run before saving.
- `CurrentSessions` (currentsessions.dfy): search and sort of the signed-in list with its
  tie-breaks, and the running clock.
- `StudentInput` (studentinput.dfy): the sign-in form. It is a class whose autofill effect
  takes a returning student's last level, and whose submit signs the student in through the
  store and then clears the form.
- Shared helpers:
  - `Text`: JavaScript string operations (trim, lower case, includes, number to string,
    `padStart`, string `<`, join, `split('|')[0]`).
  - `Seqs`: filter, a stable insertion sort, sums.
  - `Csv`: field escaping, shared by both exports.
  - `Sessions`: the records of `types.ts`.
  - `Options`: the optional value type.

Times are whole milliseconds. Ids, the clock reading and `toLocaleString` are parameters.

## Model

| member | source | states |
|---|---|---|
| Durations.JsRem | App.tsx:85-86 | JavaScript's `%`: the remainder has the sign of the dividend and is smaller than the divisor in size; used by `Durations.DecomposeCanonical` and `Durations.NegativeSplitDoesNotAddUp` |
| Durations.WholeSeconds | App.tsx:82-83 | the whole seconds `r` of an elapsed time satisfy `r*1000 <= ms < r*1000 + 1000` (floor, also for negative times), and are never negative for a non-negative time |
| Durations.ClampedWholeSeconds | App.tsx:110-111 | the clamped form used by edit and add is never negative, is the floor for a non-negative time, and is 0 for a negative one |
| Durations.Decompose | App.tsx:83-86 | the hours/minutes/seconds split; `Durations.DecomposeCanonical`, `Durations.DecomposeRoundTrip` and `Durations.NegativeSplitDoesNotAddUp` state what it gives |
| Durations.DecomposeCanonical | App.tsx:83-86 | a non-negative total splits into hours ≥ 0 and minutes and seconds in 0..59 that add back up to the total |
| Durations.DecomposeRoundTrip | App.tsx:83-86 | splitting the seconds of a canonical duration gives that duration back |
| Durations.NegativeSplitDoesNotAddUp | App.tsx:81-86 | time-out does not clamp: −1 s splits into (−1, −1, −1), which adds up to −3661 s |
| Durations.FormatDuration | components/StudentSummary.tsx:28-41 | `formatDuration`; its units are stated by `Durations.FormatDurationUnits` and the three examples below |
| Durations.FormatDurationUnits | components/StudentSummary.tsx:28-41 | `formatDuration` clamps at 0 and is never empty; it shows seconds iff total < 60, hours iff total ≥ 3600, minutes iff total ≥ 60 |
| Durations.FormatDurationHoursExample | components/StudentSummary.tsx:28-41 | 3661 s is shown as "1h 1m" |
| Durations.FormatDurationMinutesExample | components/StudentSummary.tsx:28-41 | 90 s is shown as "1m" |
| Durations.FormatDurationSecondsExamples | components/StudentSummary.tsx:28-41 | 45 s is "45s"; 0 s and −5 s are "0s" |
| Durations.ClockText | components/SessionLog.tsx:530 | the three fields, each padded to two digits, joined by colons; `Durations.SecondsToClockReadsBack` states how it reads back |
| Durations.SecondsToClock | components/StudentSummary.tsx:295-301 | `formatSecondsToHHMMSS`, stated by `Durations.SecondsToClockReadsBack` |
| Durations.SecondsToClockReadsBack | components/StudentSummary.tsx:295-301 | `HH:MM:SS` of a non-negative total has two-digit minutes and seconds, each below 60, at least two hour digits and two colons, and its digits read back as the total |
| Store.TimeInCheck | App.tsx:59-66 | time-in is refused as blank iff the name is all white space; it succeeds iff the name is not blank and no signed-in name equals the trimmed name ignoring case |
| Store.SignIn | App.tsx:58-75 | the signed-in list after time-in; `Store.SignInKeepsNamesDistinct` and `Store.SecondTimeInRefused` state it |
| Store.SignInKeepsNamesDistinct | App.tsx:58-75 | signed-in names stay distinct ignoring case; the list grows by exactly one on success and is unchanged otherwise |
| Store.SecondTimeInRefused | App.tsx:63-66 | right after a successful time-in, a second time-in with the same name (ignoring case and surrounding space) is refused as already signed in |
| Store.SessionStore.constructor | App.tsx:30-31 | the app starts with no signed-in and no completed sessions |
| Store.SessionStore.TimeIn | App.tsx:58-75 | reports the check's outcome; the signed-in list becomes `SignIn` of the old one (the trimmed name appended at the end on success); the log is untouched |
| Store.FindActive | App.tsx:78-79 | the lookup is empty iff no signed-in session has the id; otherwise it is the first session with that id |
| Store.EndSession | App.tsx:81-93 | the completed record copies the id, name, level and time-in, has the time-out and no notes; for a non-negative elapsed time its duration is canonical and is the floor of the elapsed seconds |
| Store.SignOutActive | App.tsx:95 | after time-out the signed-in list holds exactly the sessions with another id, in their order (a subsequence); an unknown id changes nothing |
| Store.SignOutLog | App.tsx:78-94 | an unknown id leaves the log as it was; otherwise one record is put in front of the old log, with the id and built from that session |
| Store.SignOutOnce | App.tsx:77-96 | time-out keeps the signed-in names distinct, and a second time-out of the same id changes neither list |
| Store.SessionStore.TimeOut | App.tsx:77-96 | the two lists become `SignOutActive` and `SignOutLog` of the old ones |
| Store.Revise | App.tsx:100-125 | an edit with time-in not before time-out, or for another id, leaves the session as it was; otherwise it takes the new fields and a canonical duration that is the floor of the new elapsed seconds |
| Store.UpdateLog | App.tsx:98-129 | the edited log has the old length, and each position is the revision of the old session there |
| Store.UpdateLogKeepsOthers | App.tsx:98-129 | an edit changes no id and no session with another id; a refused time range leaves the whole log unchanged |
| Store.SessionStore.UpdateSession | App.tsx:98-129 | the log becomes `UpdateLog` of the old one; the signed-in list is untouched |
| Store.NewRecord | App.tsx:138-155 | the added record has the fresh id, the trimmed name, the given level, times and notes, and a canonical duration that is the floor of the elapsed seconds |
| Store.AddToLog | App.tsx:131-158 | manual add is refused iff time-in is not before time-out; otherwise the new log is the old one plus the new record (as a multiset) |
| Store.LaterFirstIsTotalPreorder | App.tsx:157 | "later time-in first" is a total preorder, so the re-sort is well defined |
| Store.AddToLogSorted | App.tsx:157 | after a manual add the log is ordered by time-in, latest first |
| Store.AddToSortedLog | App.tsx:157 | into a log already in that order, the new record goes after every session that began strictly later and before the rest; the others keep their order |
| Store.SessionStore.AddSession | App.tsx:131-158 | accepted iff time-in is before time-out; the log then becomes `AddToLog` of the old one, and otherwise it is unchanged |
| Store.DeleteFromLog | App.tsx:160-162 | delete keeps exactly the sessions with another id, in their order (a subsequence) |
| Store.DeleteIdempotent | App.tsx:160-162 | deleting the same id twice is deleting it once |
| Store.SessionStore.DeleteSession | App.tsx:160-162 | the log becomes `DeleteFromLog` of the old one; the signed-in list is untouched |
| Store.FirstIndex | App.tsx:165-166 | the position where a name first occurs in a list: that entry holds the name and no earlier one does |
| Store.FirstIndexAppend | App.tsx:165-166 | appending a name does not move the first occurrence of the names already listed |
| Store.Distinct | App.tsx:165-166 | `Array.from(new Set(...))` holds the same names, without repeats, in order of first appearance, and is no longer than its input |
| Store.DistinctOfDistinct | App.tsx:165-166 | a list without repeats is left exactly as it is |
| Store.UniqueStudentNames | App.tsx:164-167 | a name is listed iff some completed session has exactly that name; no name is listed twice; names are listed in order of their first appearance in the log |
| Aggregation.Tally | components/StudentSummary.tsx:137-151 | the dictionary as a list of entries in key insertion order; `Aggregation.TallyExact` and `Aggregation.TallySums` state its contents |
| Aggregation.TallyExact | components/StudentSummary.tsx:137-151 | the dictionary has one entry per distinct key; each entry counts exactly the items with its key, adds up exactly their durations, and was created by one of them |
| Aggregation.TallySums | components/StudentSummary.tsx:137-151 | the entry counts add up to the number of items, and the entry totals to the total duration |
| Aggregation.TallyLoop | components/StudentSummary.tsx:137-151 | the `forEach` over a dictionary object (in-place updates plus key insertion order) computes exactly the entries of the function `Tally`, whose contents `TallyExact` and `TallySums` state |
| Aggregation.PairKey | components/StudentSummary.tsx:139 | the key `name\|level`; `Aggregation.PairKeyInjective` and `Aggregation.PairKeyName` state it |
| Aggregation.RowOf | components/StudentSummary.tsx:153-162 | one row from one entry; `Aggregation.StudentTotalsRows` states its fields |
| Aggregation.StudentTotals | components/StudentSummary.tsx:136-164 | `studentTotals`; stated by `Aggregation.StudentTotalsRows`, `Aggregation.StudentTotalsDistinct`, `Aggregation.StudentTotalsCover` and `Aggregation.StudentTotalsSums` |
| Aggregation.PairKeyInjective | components/StudentSummary.tsx:139 | two sessions share the key `name|level` iff they have the same exact name and the same level |
| Aggregation.PairKeyName | components/StudentSummary.tsx:154 | the name read back with `split('|')[0]` is the part of the name before its first `|` |
| Aggregation.BarInNameTruncated | components/StudentSummary.tsx:154 | a student named "Ann\|B" is listed as "Ann" |
| Aggregation.ComputeStudentTotals | components/StudentSummary.tsx:136-164 | the loop's rows are exactly `StudentTotals` of the sessions |
| Aggregation.StudentTotalsRows | components/StudentSummary.tsx:136-164 | each row comes from a session of its pair; it counts exactly that pair's sessions (at least one) and totals exactly their durations; its average is total / count |
| Aggregation.StudentTotalsDistinct | components/StudentSummary.tsx:137-151 | no two rows belong to the same (name, level) pair |
| Aggregation.StudentTotalsCover | components/StudentSummary.tsx:136-164 | every session's pair has a row |
| Aggregation.TotalSessionCount | components/StudentSummary.tsx:238-240 | `totalSessionCount`, stated by `Aggregation.StudentTotalsSums` |
| Aggregation.StudentTotalsSums | components/StudentSummary.tsx:238-240 | the session counts of the rows add up to the number of sessions, and their totals to the sum of all durations |
| Aggregation.MaxTotalSeconds | components/StudentSummary.tsx:242-245 | 1 with no rows; otherwise the largest total of some row |
| Aggregation.LevelCounts | components/StudentSummary.tsx:167-170 | the rows per level; `Aggregation.LevelCount` states each count |
| Aggregation.LevelPie | components/StudentSummary.tsx:166-186 | `pieChartDataByLevel`; stated by `Aggregation.LevelPieOrdered`, `Aggregation.LevelPieSlices` and `Aggregation.LevelPieTotal` |
| Aggregation.LevelCount | components/StudentSummary.tsx:167-170 | a level's count is the number of rows at that level |
| Aggregation.LevelPieOrdered | components/StudentSummary.tsx:179-185 | the level slices are in strictly increasing level order |
| Aggregation.LevelPieSlices | components/StudentSummary.tsx:166-186 | there is a slice for a level iff some row has that level; slice i is "Level n" with the number of rows at level n, colored by the four-colour table or grey |
| Aggregation.LevelPieTotal | components/StudentSummary.tsx:166-186 | the level slice values add up to the number of rows |
| Aggregation.HasOwnEntry | components/StudentSummary.tsx:189-199 | a session adds to a dictionary entry iff its name is not a member of `Object.prototype`; for such a name `totals[key]` is the inherited member and no entry is made |
| Aggregation.TotalsByName | components/StudentSummary.tsx:188-204 | `studentTotalsByName`; stated by `Aggregation.TotalsByNameOrdered` and `Aggregation.TotalsByNameExact` |
| Aggregation.NameSum | components/StudentSummary.tsx:188-201 | a name's total is the sum of the durations of the sessions with exactly that name |
| Aggregation.TotalsByNameOrdered | components/StudentSummary.tsx:203 | the per-name totals are ordered by total, most first, with no name twice |
| Aggregation.TotalsByNameExact | components/StudentSummary.tsx:188-204 | a name has an entry iff some session has it and it is not a member every plain object inherits (`constructor`, `toString`, `__proto__`, …); each entry's total is the sum of that name's durations; the totals add up to the durations of the sessions with such names of their own |
| Aggregation.NameChart | components/StudentSummary.tsx:206-224 | the top nine and "Other Students"; `Aggregation.NameChartTotal` and `Aggregation.ColoredNameChart` state it |
| Aggregation.Colored | components/StudentSummary.tsx:226-234 | the palette colour by index modulo 10; stated by `Aggregation.ColoredNameChart` |
| Aggregation.NamePie | components/StudentSummary.tsx:206-235 | `pieChartDataByName`; stated by `Aggregation.NamePieSlices`, `Aggregation.NamePieTotal` and `Aggregation.InheritedNameGetsNoSlice` |
| Aggregation.NameChartTotal | components/StudentSummary.tsx:206-224 | the top nine and "Other Students" together add up to all per-name totals |
| Aggregation.ColoredNameChart | components/StudentSummary.tsx:206-235 | at most ten slices; the first nine are the first nine per-name entries, in order, with the palette colours; a tenth "Other Students" slice, grey, holding the rest, exists iff there are more than nine names |
| Aggregation.NamePieSlices | components/StudentSummary.tsx:206-235 | the name pie is empty iff every session's name is an inherited member (so in particular when there are no sessions); otherwise it is as above over the per-name totals |
| Aggregation.NamePieTotal | components/StudentSummary.tsx:188-235 | the name pie's values add up to the total duration of the sessions whose names are not inherited members |
| Aggregation.InheritedNameGetsNoSlice | components/StudentSummary.tsx:188-208 | one minute logged under the name "constructor" gives an empty name pie |
| Leaderboard.RequestSort | components/StudentSummary.tsx:269-275 | a header click sorts by that column, descending iff that column was already sorted ascending |
| Leaderboard.RequestSortAlternates | components/StudentSummary.tsx:269-275 | clicking the same column repeatedly alternates the direction |
| Leaderboard.Compare | components/StudentSummary.tsx:253-265 | the table's comparator; stated by `Leaderboard.CompareMeaning`, `Leaderboard.CompareAntisymmetric` and `Leaderboard.LeIsTotalPreorder` |
| Leaderboard.CompareMeaning | components/StudentSummary.tsx:254-265 | the comparator allows a before b iff a's value is smaller (ascending) or larger (descending); equal values go by name, A before B, whatever the direction |
| Leaderboard.CompareAntisymmetric | components/StudentSummary.tsx:254-265 | swapping the two rows negates the comparator |
| Leaderboard.LeIsTotalPreorder | components/StudentSummary.tsx:253-266 | for every column and direction the comparator is a total preorder |
| Leaderboard.SortedAndFiltered | components/StudentSummary.tsx:247-267 | `sortedAndFilteredTotals`, stated by `Leaderboard.SortedAndFilteredExact` and `Leaderboard.EmptySearchShowsAll` |
| Leaderboard.SortedAndFilteredExact | components/StudentSummary.tsx:247-267 | the table holds the rows whose lower-cased name contains the lower-cased query, each as often as it occurs, in the intended order |
| Leaderboard.EmptySearchShowsAll | components/StudentSummary.tsx:248-250 | an empty search keeps every row |
| Leaderboard.ChartData | components/StudentSummary.tsx:433 | the chart shows a prefix of the table: the first N rows, or all of them for "All" |
| Leaderboard.ChartMax | components/StudentSummary.tsx:439 | the largest total shown, or 0 |
| Leaderboard.AxisMax | components/StudentSummary.tsx:440-443 | the rounding of the scale, stated by `Leaderboard.AxisMaxBounds` |
| Leaderboard.AxisMaxBounds | components/StudentSummary.tsx:440-443 | the axis maximum is positive, covers the largest total and is a multiple of 60; from 900 s on it is a multiple of 3600 less than an hour above; below 900 s it is under a minute above; with all totals 0 it is 60 |
| Leaderboard.AxisTicks | components/StudentSummary.tsx:445-449 | the five labelled ticks, stated by `Leaderboard.AxisTicksExact` |
| Leaderboard.AxisTicksExact | components/StudentSummary.tsx:445-449 | five ticks, from the maximum down to 0 in equal quarters, each captioned with `formatDuration` of its value |
| Leaderboard.YAxisConfig | components/StudentSummary.tsx:435-452 | `yAxisConfig`, stated by `Leaderboard.YAxisConfigExact` |
| Leaderboard.YAxisConfigExact | components/StudentSummary.tsx:435-452 | with no data the scale is 3600 with no ticks; otherwise it is positive, covers every total, and has the five ticks above |
| Leaderboard.InnerWidth | components/StudentSummary.tsx:478-480 | the plot is at least 720 wide |
| Leaderboard.BarHeight | components/StudentSummary.tsx:655 | a bar's height; with its top, stated by `Leaderboard.BarInsidePlot` |
| Leaderboard.BarInsidePlot | components/StudentSummary.tsx:655-656 | a bar of a total within the scale has height in 0..260, its top in 20..280, and stands on the x axis at 280 |
| Leaderboard.BarX | components/StudentSummary.tsx:654 | a bar's left edge; stated by `Leaderboard.BarsApart` |
| Leaderboard.BarWidth | components/StudentSummary.tsx:653 | a bar's width; stated by `Leaderboard.BarsApart` |
| Leaderboard.BarsApart | components/StudentSummary.tsx:653-654 | each bar starts right of the y axis, ends before the next bar starts, and ends inside the plot |
| Leaderboard.TableBarWidth | components/StudentSummary.tsx:598 | the table bar's width in percent, undefined over a zero maximum; stated by `Leaderboard.ZeroTotalsGiveNoWidth` and `Leaderboard.TableBarWidthsFit` |
| Leaderboard.ZeroTotalsGiveNoWidth | components/StudentSummary.tsx:242-245 | as written: when every total is 0 the maximum is 0 and the table bar width (0/0) is undefined |
| Leaderboard.SafeMaxTotalSeconds | components/StudentSummary.tsx:242-245 | corrected: the maximum is at least 1, covers every total, and is a total of some row or 1 |
| Leaderboard.TableBarWidthsFit | components/StudentSummary.tsx:598 | with the corrected maximum every non-negative row gets a width in 0..100 %, exactly 100 % for the largest |
| Leaderboard.ClockOfSeconds | components/StudentSummary.tsx:295-301 | `formatSecondsToHHMMSS` of a fractional number; stated by `Leaderboard.ClockOfSecondsWhole` |
| Leaderboard.ClockOfSecondsWhole | components/StudentSummary.tsx:295-301 | `formatSecondsToHHMMSS` of a fractional average is the clock text of its floor, clamped at 0 |
| Leaderboard.RowFields | components/StudentSummary.tsx:310-312 | the five fields of a table row; stated by `Leaderboard.RowFieldsReadBack` |
| Leaderboard.RowFieldsReadBack | components/StudentSummary.tsx:310-312 | a table row has five fields; the name reads back from its escaped field; the average and total are their clock texts |
| Leaderboard.TableCsv | components/StudentSummary.tsx:287-314 | `handleExportTableCSV`'s text; stated by `Leaderboard.TableCsvShape` |
| Leaderboard.TableCsvShape | components/StudentSummary.tsx:287-314 | nothing is exported iff the table is empty; otherwise the header line and then one line per row, in table order |
| Leaderboard.ExportOptions | components/StudentSummary.tsx:459-472 | the chart-data export is offered iff the view is not the table; the table CSV export iff it is |
| Leaderboard.SliceLine | components/StudentSummary.tsx:403-406 | one line of the chart-data export; `Leaderboard.ChartDataCsvBars` states the bar lines |
| Leaderboard.ChartDataCsvAsWritten | components/StudentSummary.tsx:395-406 | `handleExportChartDataCSV` as written; stated by `Leaderboard.BarExportCrashes` |
| Leaderboard.ChartDataCsv | components/StudentSummary.tsx:395-408 | the corrected export; stated by `Leaderboard.ChartDataCsvOutcome` and `Leaderboard.ChartDataCsvBars` |
| Leaderboard.BarExportCrashes | components/StudentSummary.tsx:395-406 | as written: a non-empty chart-data export in the bar view fails, since its rows have no `value` |
| Leaderboard.ChartDataCsvOutcome | components/StudentSummary.tsx:395-408 | corrected: the export never fails; it is empty iff the data of the current view is empty; in the pie views it is the export as written |
| Leaderboard.ChartDataCsvBars | components/StudentSummary.tsx:395-408 | corrected: the bar view exports the header and one line per bar (name, total as text, total) |
| Csv.EscapeCsv | components/StudentSummary.tsx:303-308 | `escapeCSV`; stated by `Csv.EscapeCsvRoundTrip` and `Csv.UnquotedFieldIsPlain` |
| Csv.DoubleQuotes | components/StudentSummary.tsx:306 | doubling quotes leaves a text without quotes unchanged |
| Csv.EscapeCsvRoundTrip | components/StudentSummary.tsx:303-308 | an escaped field reads back as the original text; `undefined` reads back as the empty text |
| Csv.UnquotedFieldIsPlain | components/SessionLog.tsx:516-523 | a field that is not quoted holds no quote, comma or line break |
| PieChart.DescribeArc | components/PieChart.tsx:49-64 | `describeArc`; stated by `PieChart.DescribeArcShape`, `PieChart.DescribeArcFullTurn`, `PieChart.DescribeArcExactTurn` and `PieChart.DescribeArcNegativeTurn` |
| PieChart.DescribeArcShape | components/PieChart.tsx:49-64 | below a full turn the path moves to the end angle's point and draws the arc to the start angle's point around the centre; the large-arc flag is set iff the span exceeds 180 |
| PieChart.DescribeArcFullTurn | components/PieChart.tsx:52-55 | a span of a full turn or more is redrawn just under a full turn (between 359.99 and 360), with the large-arc flag, never as a zero-length arc |
| PieChart.DescribeArcExactTurn | components/PieChart.tsx:52-56 | a single slice of 0..360 is drawn once, ending at 359.99 |
| PieChart.DescribeArcNegativeTurn | components/PieChart.tsx:52-55 | a span of minus a full turn or less never produces a path: the source recurses on it without end |
| PieChart.LayoutSlices | components/PieChart.tsx:36-101 | "not enough data" iff the values sum to 0; otherwise one slice per entry, in order. For a positive total slice i spans from the share of the values before it to the share up to it; for a negative total every slice spans 0 to 0 |
| PieChart.AnglesCoverTurn | components/PieChart.tsx:86-101 | the first slice starts at 0; the last ends at exactly 360 for a positive total and at 0 otherwise |
| PieChart.NegativeTotalDrawsEmptySlices | components/PieChart.tsx:86-90 | with a negative total every slice spans 0 to 0 and is drawn as the empty arc at angle 0, never left without a path |
| PieChart.NegativeSingleSlice | components/PieChart.tsx:86-90 | a lone value of −5 gives a slice from 0 to 0, not a full disc |
| PieChart.AnglesExample | components/PieChart.tsx:86-101 | values 1, 1, 2 give angles 0, 90, 180, 360 |
| PieChart.LegendLabel | components/PieChart.tsx:120-123 | labels over 18 characters become their first 16 plus "..." (19 characters); shorter ones are unchanged |
| PieChart.ViewboxHeight | components/PieChart.tsx:67-75 | the height is 220 or 90 + 20n, whichever is larger; it is 220 iff n ≤ 6 |
| PieChart.PieCenter | components/PieChart.tsx:78-80 | the pie centre is at x = 100 and half the height, so the radius-80 pie stays at least 30 from the top |
| SessionLog.AreFiltersActive | components/SessionLog.tsx:500 | `areFiltersActive`, stated by `SessionLog.FiltersActiveUnlessCleared` |
| SessionLog.FiltersActiveUnlessCleared | components/SessionLog.tsx:452-500 | the filters are active iff any of the four is set; the cleared filters are not active |
| SessionLog.DateMatch | components/SessionLog.tsx:467-484 | the day bounds, both inclusive; stated by `SessionLog.FilteredSessionsExact` |
| SessionLog.Keep | components/SessionLog.tsx:460-485 | the filter's test; stated by `SessionLog.FilteredSessionsExact` |
| SessionLog.FilteredSessions | components/SessionLog.tsx:459-486 | `filteredSessions`; stated by `SessionLog.FilteredSessionsExact`, `SessionLog.NoFiltersKeepAll` and `SessionLog.FilteringTwice` |
| SessionLog.FilteredSessionsExact | components/SessionLog.tsx:459-486 | the log keeps a subsequence: the sessions whose lower-cased name contains the lower-cased query, at the chosen level if any, with time-in within the chosen days (both ends included) |
| SessionLog.NoFiltersKeepAll | components/SessionLog.tsx:459-486 | with no filter set every session is shown, in order |
| SessionLog.FilteringTwice | components/SessionLog.tsx:459-486 | filtering the filtered log changes nothing |
| SessionLog.TotalDuration | components/SessionLog.tsx:488-498 | `totalDuration`; stated by `SessionLog.TotalDurationAddsUp` and `SessionLog.FilteredTotalBounded` |
| SessionLog.TotalDurationAddsUp | components/SessionLog.tsx:488-498 | for a non-negative sum the total is canonical and adds up to the sum of the kept durations |
| SessionLog.FilteredTotalBounded | components/SessionLog.tsx:488-491 | with no negative duration, the total of the kept sessions is between 0 and the total of the whole log |
| SessionLog.LogFields | components/SessionLog.tsx:525-532 | the six fields of a log line; stated by `SessionLog.LogFieldsReadBack` |
| SessionLog.LogCsv | components/SessionLog.tsx:509-535 | the log export's text; stated by `SessionLog.LogCsvShape` |
| SessionLog.LogLines | components/SessionLog.tsx:525-533 | one CSV line per kept session, in order, each the six fields joined by commas |
| SessionLog.LogCsvShape | components/SessionLog.tsx:509-535 | nothing is exported iff no session is kept; otherwise the header line and then the session lines |
| SessionLog.LogFieldsReadBack | components/SessionLog.tsx:516-533 | six fields; the name and the notes (empty when absent) read back from their escaped fields; for a canonical duration the duration field is the clock text of the session's seconds |
| SessionLog.NotesCell | components/SessionLog.tsx:574 | the notes cell is "N/A" iff the notes are absent, empty or themselves "N/A"; otherwise it is the notes |
| SessionLog.PdfRow | components/SessionLog.tsx:568-575 | one row of the PDF table; stated by `SessionLog.PdfBody` |
| SessionLog.PdfBody | components/SessionLog.tsx:567-575 | nothing iff no session is kept; otherwise one six-cell row per kept session, in order, with its name, its clock text, and "N/A" for absent or empty notes |
| SessionLog.SaveCheck | components/SessionLog.tsx:66-79 | the blank-name message iff the trimmed name is empty; the time-order message iff the name is not blank and time-in is not before time-out; no message otherwise |
| SessionLog.SaveNew | components/SessionLog.tsx:66-89 | the add dialog saves iff the name is not blank and time-in is before time-out, passing the trimmed name and trimmed notes |
| SessionLog.SaveEdit | components/SessionLog.tsx:209-233 | the edit dialog saves under the same condition, passing the session's id, the trimmed name and trimmed notes |
| SessionLog.SavedNewIsLogged | components/SessionLog.tsx:81-87 | what the add dialog saves the store accepts, and it enters the log under a non-blank name |
| SessionLog.SavedEditIsLogged | components/SessionLog.tsx:224-231 | a saved edit rewrites exactly the sessions with the edited id, with the trimmed non-blank name and the new level, times and notes |
| CurrentSessions.RequestSort | components/CurrentSessions.tsx:96-102 | a header click sorts by that column, descending iff that column was already sorted ascending |
| CurrentSessions.FirstClicks | components/CurrentSessions.tsx:52 | from the default sort (time-in ascending), a time-in click turns it descending and a name click sorts by name ascending |
| CurrentSessions.NameCompare | components/CurrentSessions.tsx:73 | `localeCompare` with base sensitivity; stated by `CurrentSessions.NameCompareMeaning` |
| CurrentSessions.Compare | components/CurrentSessions.tsx:69-91 | the list's comparator; stated by `CurrentSessions.CompareMeaning`, `CurrentSessions.CompareAntisymmetric` and `CurrentSessions.LeIsTotalPreorder` |
| CurrentSessions.NameCompareMeaning | components/CurrentSessions.tsx:73 | the name comparison is 0 iff the names are equal ignoring case, and otherwise follows their lower-cased order; it is antisymmetric |
| CurrentSessions.CompareMeaning | components/CurrentSessions.tsx:69-91 | by name: names in the chosen direction, and equal names earliest first even when descending; by time-in: times in the chosen direction, and equal times by name ascending |
| CurrentSessions.CompareAntisymmetric | components/CurrentSessions.tsx:69-91 | swapping two sessions negates the comparator |
| CurrentSessions.LeIsTotalPreorder | components/CurrentSessions.tsx:69-91 | for either key and direction the comparator is a total preorder |
| CurrentSessions.ShownSessions | components/CurrentSessions.tsx:63-94 | `filteredAndSortedSessions`; stated by `CurrentSessions.ShownSessionsExact` and `CurrentSessions.EmptySearchShowsAll` |
| CurrentSessions.ShownSessionsExact | components/CurrentSessions.tsx:63-94 | the list holds the sessions whose lower-cased name contains the lower-cased query, each as often as it occurs, in the intended order |
| CurrentSessions.EmptySearchShowsAll | components/CurrentSessions.tsx:64-66 | an empty search lists every signed-in student |
| CurrentSessions.Tick | components/CurrentSessions.tsx:22-32 | one tick of the running clock; stated by `CurrentSessions.TickShowsElapsed` and `CurrentSessions.FirstSecondShowsZero` |
| CurrentSessions.TickShowsElapsed | components/CurrentSessions.tsx:22-32 | a negative elapsed time leaves the display unchanged; otherwise it shows the floor of the elapsed seconds as `HH:MM:SS`, with minutes and seconds below 60, which reads back as those seconds |
| CurrentSessions.FirstSecondShowsZero | components/CurrentSessions.tsx:17-32 | during the first second the clock shows "00:00:00", the initial text |
| StudentInput.FirstMatch | components/StudentInput.tsx:19 | the index of the first session whose name equals the typed one ignoring case, or the length when there is none |
| StudentInput.AutofillLevel | components/StudentInput.tsx:15-24 | the level is left alone iff the name is empty, unknown, or matches no session; otherwise it is the level of the first (newest) matching session |
| StudentInput.AutofillFromLog | components/StudentInput.tsx:15-24 | with the app's list of known names, the level is filled in iff the name is not empty and some session has it ignoring case |
| StudentInput.ReturningStudentKeepsLevel | components/StudentInput.tsx:17-21 | right after a student signs out, typing their name brings back the level of that visit |
| StudentInput.SignInForm.constructor | components/StudentInput.tsx:12-13 | the form opens with an empty name at level 100 |
| StudentInput.SignInForm.EnterName | components/StudentInput.tsx:39 | typing sets the name and keeps the level |
| StudentInput.SignInForm.ChooseLevel | components/StudentInput.tsx:47-49 | choosing a level sets it and keeps the name |
| StudentInput.SignInForm.Autofill | components/StudentInput.tsx:15-24 | the effect sets the level to `AutofillLevel` when that is defined, and otherwise keeps it |
| StudentInput.SignInForm.Submit | components/StudentInput.tsx:26-31 | the untrimmed name and the chosen level go to the store's time-in (with its outcome and new lists); then the form is back to an empty name and level 100 |

## Left out

- Rendering, styling, tooltips, dialogs opening and closing, theme persistence in
  `localStorage`, and the header, export-button and chatbot components are not modelled; they
  hold no logic beyond markup. The chatbot calls an external text-generation service.
- Image export (DOM cloning, canvas, SVG serialisation), file download (Blob, object URLs) and
  the PDF renderer are not modelled; only the text of the CSV files and the PDF `body` rows
  are.
- Alerts are not modelled. They become outcome values (`TimeInOutcome`, `Saved.Refused`,
  `None` for "No data to export.").
- Clocks and identifiers: `new Date()` and `Date.now()` become parameters (`now`,
  `freshId`). The 1-second interval and the 500 ms delay before a time-out are timers and are
  left out; only one tick of the running clock is modelled.
- Date parsing and printing are locale and time-zone dependent, so they are left out.
  - `new Date(string)`, `setHours` and `toISOString` are not modelled. The day bounds of the
    log's date filters are given as millisecond parameters.
  - `toLocaleString` is an opaque parameter.
  - An unparsable date (NaN) is not modelled.
- `localeCompare` with base sensitivity is modelled as the order of lower-cased strings. It
  also ignores accents, and the real collation differs from code-point order.
- Strings are sequences of characters. JavaScript compares UTF-16 code units, and
  `toLowerCase` is taken as ASCII lower-casing.
- The order of a dictionary object's keys is taken as insertion order. JavaScript lists
  integer-like keys first, which can reorder entries with equal totals in the per-name list
  and the level counts. The level pie is re-sorted by level, so only the order of ties among
  names is affected.
- Floating point is replaced by exact reals, so the model does not capture these cases:
  - Slice angles are exact; in floating point the last slice may miss 360 by a rounding
    error.
  - `polarToCartesian` needs cosine and sine, so points stay symbolic.
  - The `toFixed(1)` percentages are not modelled.
- The chart-data CSV puts each label in quotes without doubling embedded quotes; the model
  keeps this, and does not claim that those lines read back.
- `SessionLog.TotalDurationAddsUp`: stated for a non-negative sum only. Time-out does not clamp
  a negative elapsed time, so a log can hold negative durations, and then the split does not
  add up (see `Durations.NegativeSplitDoesNotAddUp`).
- `SessionLog.FilteredTotalBounded`: stated only when no duration is negative, for the same
  reason.
- `Leaderboard.BarInsidePlot`: stated for totals between 0 and the axis maximum.
  `Leaderboard.YAxisConfigExact` guarantees only the upper bound for every bar shown. A
  negative total (time-out does not clamp, see `Durations.NegativeSplitDoesNotAddUp`) gives a
  bar of negative height, which falls outside the lemma.
- `PieChart.LayoutSlices`: the path of each slice is `DescribeArc` of its angles. A span of
  minus a full turn or less needs a positive total with a negative value among the entries
  (values 3 and −2 give −720° for the second slice); a negative total gives every slice a zero
  span. On such a span the source recurses until the stack overflows, and the `RangeError`
  aborts the whole render. The model instead gives that slice no path and still returns the
  layout.
- `PieChart.DescribeArcFullTurn`: recursion depth is not modelled. A span far above a full turn
  also needs a negative value (values 3 and −2 give 1080°). In the source it takes about 72,000
  nested calls and can overflow the stack in the same way, but the lemma gives a path for it.
- `Aggregation.HasOwnEntry`: for an inherited name the source adds the seconds onto the
  inherited member itself, writing NaN onto a method of `Object.prototype` (or onto
  `Object.prototype` for `__proto__`). The model only drops those sessions from the per-name
  totals; that write is not modelled, and nothing else the model covers reads it.

## Findings

| source | as written | input that shows it | evidently intended | confidence | as-written member | corrected member |
|---|---|---|---|---|---|---|
| components/StudentSummary.tsx:395-406 | in the bar view the chart-data export maps over leaderboard rows and calls `item.value.toString()`, but those rows have no `value` (nor `label`), so the export throws; the table view does not offer this export | any non-empty chart in the bar view, e.g. one row for "Ann" | export the bars shown: one line per bar with its name and total | high (not executed) | Leaderboard.BarExportCrashes | Leaderboard.ChartDataCsvOutcome |
| components/StudentSummary.tsx:242-245 | `maxTotalSeconds` guards only the empty list; when every total is 0 it is 0, and the table bar width `(0 / 0) * 100` is NaN | one row for "Ann" at level 100 with total 0 | a maximum of at least 1, so every width is 0..100 % | high (not executed) | Leaderboard.ZeroTotalsGiveNoWidth | Leaderboard.TableBarWidthsFit |
