# gantt-canvas-chart: a verified model of the layout core

This project models the layout engine of the `GanttChart` class of
gantt-canvas-chart, a Gantt chart drawn on HTML canvases, together with the
`DateUtils` calendar helpers it rests on and the `firstValidValue` helper.
The models are written in Dafny and their properties are proved.

- **Dates are day numbers.** Day 0 is 1970-01-01. Modules:
  - `Calendar` is a verified proleptic Gregorian conversion between day numbers and (year, month, day). It also covers JavaScript's `MakeDay`, with month indices of any size, and the rule of `new Date(y, m, d)` that years 0 to 99 mean 1900 to 1999.
  - `DateUtils` holds `addDays`, `addMonths`, `addYears`, `diffDays`, `diffDaysInclusive`, `getDaysInMonth`, `getWeekNumber` and `getStartOfWeek`/`Month`/`Year`, as total functions on day numbers. `setDate` drops the fraction of its argument toward zero, and this is modelled, so `addDays(d, x / ppd)` is exact.
  - `DateFormat` models `format`: the year run of the template is replaced first, then the first run of each key of `o` in its insertion order (`M`, `d`, `h`, `m`, `s`, `q`, `W`). A one-letter run gets the bare number, a longer one the last two characters of `'00' + value`, and the year the tail `substr(4 - run length)`. The texts the header draws are proved: `yyyy-MM-dd`, `yyyy年MM月`, `d`, `W` and `hh:mm:ss`.
- **The records** of `types.ts` are datatypes in `GanttTypes`. Dates arrive already parsed: an absent date is `None`. A plan x coordinate can be `NaN`.
- **`TaskIndex`** models `buildTaskMap`: a later task with a repeated id replaces the earlier one.
- **`Timeline`** models what `calculateFullTimeline` computes:
  - the fold over the indexed tasks, starting from the 9999/1000 sentinels;
  - the 7-day and 14-day buffers, with the current year standing in for a sentinel;
  - the snapping for each view mode.
- **`Layout`** is the pure geometry:
  - `dateToX`/`xToDate` and the cached task position;
  - the dependency-connector routes and the visibility tests;
  - `drawTask`'s sub-day offsets and the hover hit-test;
  - `getTaskWidthPercent`, the `scrollToStartDate` target, and the steps of the header and grid loops.
- **`Render`** gives what `render` draws, as values:
  - the header columns with their upper labels;
  - the grid's row and column lines and the today marker;
  - the connectors, and the bars of `drawAllTasks` together with its in-place write-back into the position cache.
- **`Gantt.GanttChart`** is the class:
  - its fields are the chart's mutable state: `timelineStart`/`timelineEnd`, `minDate`/`maxDate`, `pixelsPerDay`, the scroll offsets, the viewport and scroll-area sizes, the visible range, `taskMap`, `taskPositions`, and the last drawn `frame`;
  - its methods are the source's methods. Where the source loops (the timeline fold, the header and grid loops, the dependency loops, the task bars), the model loops too, and each loop is proved against the functions above.
- **`Utils.FirstValidValue`** is the loop of `firstValidValue`, proved against a first-`Some` search.

Clock reads (`new Date()`) are parameters (`now`). The creation day is the
`today` field. The container's client size and the scroll offsets of a
scroll event are also parameters.

### Behaviour worth noting

- **Scroll renders recompute positions.** `render` always recomputes the visible range and every task position before drawing (src/core/ganttChart.ts:379-386). Scroll redraws do not reuse a cached geometry.
- **A view-mode change keeps the bounds.** `updateConfig` with a new view mode resets `scrollLeft` and `pixelsPerDay`, but does not recompute the timeline bounds. The call is commented out at src/core/ganttChart.ts:180.
- **Snapping comes after the buffer.** `timelineStart` is snapped from `minDate - 7` days (src/core/ganttChart.ts:237-247). For a single task planned 2025-01-01..2025-01-05 in the Month view, the start is therefore 2024-12-01, not 2025-01-01.
- **A real end date in year 1000 is discarded.** The fallback tests `maxDate.getFullYear() === 1000` (src/core/ganttChart.ts:235, 238), not whether maxDate is still the sentinel. A task ending on 1000-04-11 therefore gets its timeline end from January 1 of next year, exactly as if no task had an end date. The start side has no such case: minDate only moves below 9999-01-01, so it is in year 9999 only while it is the sentinel (`Timeline.SentinelYearMeansNoStart`).
- **Configurations are not validated.** The code does not reject a bad view-factor map: a zero factor yields Infinity/NaN coordinates.

## Model

| member | source | states |
|---|---|---|
| Calendar.MonthLength | src/core/dateUtils.ts:56-58 | every month has 28 to 31 days |
| Calendar.ToCivilCorrect | src/core/dateUtils.ts:44-50 | every day number has a valid (year, month, day), and rebuilding the date from those parts gives the same day back |
| Calendar.ToCivilOfDay | src/core/dateUtils.ts:44-50 | the parts read back from a valid civil date are that date (getFullYear/getMonth/getDate after new Date) |
| Calendar.DayFromYmdInjective | src/core/dateUtils.ts:44-50 | two valid civil dates with the same day number are equal |
| Calendar.ToCivilOfMakeDay | src/core/dateUtils.ts:31-36 | setMonth to any month index lands on day 1 of the month with the year carried (index div 12, index mod 12) |
| Calendar.YearBounds | src/core/dateUtils.ts:79-81 | every day lies between January 1 of its year and January 1 of the next |
| Calendar.YearOfBetween | src/core/dateUtils.ts:79-81 | a day between January 1 of y and of y + 1 has year y |
| DateUtils.IsoWeekday | src/core/dateUtils.ts:70 | getDay() \|\| 7 is 1..7 (Monday 1, Sunday 7) and agrees with the weekday of the day number |
| DateUtils.TruncDiv | src/core/dateUtils.ts:25-29 | the fractional day count setDate receives is cut toward zero: for a >= 0 the result q has q*b <= a < q*b + b, and for a < 0 it has q*b - b < a <= q*b, so q counts the whole b's in a on a's own side of zero |
| DateUtils.AddDaysShifts | src/core/dateUtils.ts:25-29 | addDays by a whole number n moves the day number by exactly n |
| DateUtils.AddDaysZero | src/core/dateUtils.ts:25-29 | addDays(d, 0) == d |
| DateUtils.AddDaysCompose | src/core/dateUtils.ts:25-29 | addDays(addDays(d, a), b) == addDays(d, a + b) |
| DateUtils.AddDaysRatioShift | src/core/dateUtils.ts:25-29 | setDate(getDate() + x) moves from the first of the month by the whole-day part of getDate() + x |
| DateUtils.AddDaysRatioExact | src/core/dateUtils.ts:25-29 | a day count k * den / den moves by exactly k days |
| DateUtils.AddDaysRatioRounding | src/core/dateUtils.ts:25-29 | a fractional day count is rounded down when the reached day of the month is not negative, up otherwise |
| DateUtils.AddDaysRatioMonotone | src/core/dateUtils.ts:25-29 | a larger day count never gives an earlier date |
| DateUtils.TruncDivMonotone | src/core/dateUtils.ts:25-29 | truncating division is monotone in the dividend |
| DateUtils.TruncDivExact | src/core/dateUtils.ts:25-29 | an exact multiple divides to its factor |
| DateUtils.AddMonthsFirstOfMonth | src/core/dateUtils.ts:31-36 | addMonths(d, n) is day 1 of the month n months after d's month, so no month-length overflow can happen |
| DateUtils.AddMonthsYearAndMonth | src/core/dateUtils.ts:31-36 | the year and month of addMonths carry: year + (month + n) div 12, (month + n) mod 12 |
| DateUtils.AddMonthsAdvances | src/core/dateUtils.ts:31-36 | adding one month or more always gives a later date |
| DateUtils.MonthStartFacts | src/core/dateUtils.ts:31-36 | the first of month t has month count t and day 1 |
| DateUtils.MonthNumberStart | src/core/dateUtils.ts:75-77 | every day lies in its own month: between its first of month and the next |
| DateUtils.SameDateLater | src/core/dateUtils.ts:38-42 | setFullYear onto a date that exists in the new year keeps month and day |
| DateUtils.FebruaryOverflow | src/core/dateUtils.ts:38-42 | February 29 in a common year rolls over to March 1 |
| DateUtils.AddYearsCivil | src/core/dateUtils.ts:38-42 | addYears keeps month and day, except that February 29 becomes March 1 when the target year is not a leap year |
| DateUtils.OtherYear | src/core/dateUtils.ts:38-42 | a month and day moved to another year keep their place, except February 29, which becomes March 1 in a common year |
| DateUtils.DiffDaysExact | src/core/dateUtils.ts:44-54 | diffDays(a, b) == b - a and diffDaysInclusive(a, b) == b - a + 1 for dates outside years 0..99 |
| DateUtils.DiffDaysAddDays | src/core/dateUtils.ts:44-50 | diffDays(a, addDays(a, n)) == n |
| DateUtils.DiffDaysAntisymmetric | src/core/dateUtils.ts:44-50 | diffDays(a, b) == -diffDays(b, a), for every pair of dates |
| DateUtils.LastDayOfMonth | src/core/dateUtils.ts:56-58 | the day before the first of month t + 1 is the last day of month t |
| DateUtils.DaysInMonthIsMonthLength | src/core/dateUtils.ts:56-58 | day 0 of the next month gives the length of the month (month index carried, two-digit years read as 19xx) |
| DateUtils.DaysInMonthRange | src/core/dateUtils.ts:56-58 | getDaysInMonth is in 28..31, and for February it is 29 exactly in Gregorian leap years |
| DateUtils.FirstThursday | src/core/dateUtils.ts:60-66 | the first Thursday of a year lies in its first seven days |
| DateUtils.ThursdayOfWeek | src/core/dateUtils.ts:60-66 | from any day, the next Thursday on or after it is fewer than 7 days on |
| DateUtils.IsoWeekdayAdd | src/core/dateUtils.ts:62 | moving k days within a Monday-to-Sunday week adds k to the weekday |
| DateUtils.ThursdayMultipleOfSeven | src/core/dateUtils.ts:62-65 | day numbers of Thursdays are multiples of 7 |
| DateUtils.IsoThursdayFacts | src/core/dateUtils.ts:61-62 | the day getWeekNumber moves to is the Thursday of d's Monday-to-Sunday week |
| DateUtils.IsoThursdayIsThursday | src/core/dateUtils.ts:61-62 | that day is always a Thursday, even for a date in years 0..99 |
| DateUtils.IsoThursdayYearStart | src/core/dateUtils.ts:63 | yearStart is January 1 of the Thursday's year, and the Thursday lies within that year |
| DateUtils.WeekNumberRange | src/core/dateUtils.ts:60-66 | getWeekNumber is in 1..53 |
| DateUtils.WeekNumberIsIso | src/core/dateUtils.ts:60-66 | getWeekNumber is the ISO 8601 week number: one more than the whole weeks from the first Thursday of the Thursday's year to that Thursday |
| DateUtils.WeeksFromFirstThursday | src/core/dateUtils.ts:65 | ceil((days + 1) / 7) from January 1 to a Thursday equals the weeks counted from the year's first Thursday, plus one |
| DateUtils.WeekNumberSameWeek | src/core/dateUtils.ts:60-66 | all seven days of a Monday-to-Sunday week have the same week number |
| DateUtils.WeekMondayFacts | src/core/dateUtils.ts:68-71 | setHours(-24 * (day - 1)) lands on the Monday of d's week, 0 to 6 days back |
| DateUtils.StartOfWeekFacts | src/core/dateUtils.ts:68-73 | getStartOfWeek is a Monday, not after d and less than 7 days before it |
| DateUtils.StartOfWeekIdempotent | src/core/dateUtils.ts:68-73 | getStartOfWeek(getStartOfWeek(d)) == getStartOfWeek(d) |
| DateUtils.StartOfWeekNotEarlier | src/core/dateUtils.ts:68-73 | the rebuilt Monday is never earlier than 6 days before d, whatever the year |
| DateUtils.ReconstructedIdentity | src/core/dateUtils.ts:72 | new Date(getFullYear(), getMonth(), getDate()) is the same day outside years 0..99 |
| DateUtils.ReconstructedNotEarlier | src/core/dateUtils.ts:72 | rebuilding never moves a date earlier |
| DateUtils.StartOfMonthFacts | src/core/dateUtils.ts:75-77 | getStartOfMonth is day 1 of d's month, not after d, and d lies within that month |
| DateUtils.StartOfMonthIsFirst | src/core/dateUtils.ts:75-77 | getStartOfMonth is always a first of month |
| DateUtils.StartOfMonthIdempotent | src/core/dateUtils.ts:75-77 | getStartOfMonth(getStartOfMonth(d)) == getStartOfMonth(d), for every date |
| DateUtils.MonthStartFixed | src/core/dateUtils.ts:75-77 | a first of month after year 99 is its own start of month |
| DateUtils.StartOfYearFacts | src/core/dateUtils.ts:79-81 | getStartOfYear is January 1 of d's year, not after d, and d lies within that year |
| DateUtils.StartOfYearIsJanuaryFirst | src/core/dateUtils.ts:79-81 | getStartOfYear is always a January 1 |
| DateUtils.StartOfYearIdempotent | src/core/dateUtils.ts:79-81 | getStartOfYear(getStartOfYear(d)) == getStartOfYear(d), for every date |
| DateFormat.Format | src/core/dateUtils.ts:4-23 | format reassigns the template once for the year and once for each key of o that occurs in it, and returns the formatted text |
| DateFormat.RunLengthMaximal | src/core/dateUtils.ts:14-21 | the run a key matches (y+, M+, ...) is all copies of the key's letter and cannot be extended |
| DateFormat.ReplaceFirstAbsent | src/core/dateUtils.ts:14-21 | a template without the key's letter is left unchanged, as when the test fails |
| DateFormat.ReplaceFirstIsRun | src/core/dateUtils.ts:17-21 | replacing the first match of a key is replacing the first run of its letter (one letter for W) by the key's text for that run length |
| DateFormat.ReplaceFirstSkip | src/core/dateUtils.ts:17-21 | text before the first letter of a key passes through the replacement untouched |
| DateFormat.ReplaceAfter | src/core/dateUtils.ts:17-21 | the first run of a key, after a stretch without its letter, becomes the key's text and the rest of the template follows unchanged |
| DateFormat.ReplaceKeysInert | src/core/dateUtils.ts:16-21 | text holding none of the key letters passes through every key's replacement unchanged |
| DateFormat.FormatInert | src/core/dateUtils.ts:4-23 | a template without any of the letters y, M, d, h, m, s, q, W is returned as it is |
| DateFormat.RenderedInert | src/core/dateUtils.ts:14-21 | the numbers written into the template hold no key letters, so a later key never rewrites an earlier key's text |
| DateFormat.RenderedPadded | src/core/dateUtils.ts:18-20 | a numeric key matched by two or more letters is written as the last two characters of '00' + value |
| DateFormat.IntStringRoundTrip | src/core/dateUtils.ts:15 | the decimal text of an integer (date.getFullYear() + '') reads back as that integer |
| DateFormat.NatStringRoundTrip | src/core/dateUtils.ts:15 | the digits written for a natural number read back as that number |
| DateFormat.IntStringInjective | src/core/dateUtils.ts:15 | two integers have the same decimal text exactly when they are equal |
| DateFormat.PaddedTwoDigits | src/core/dateUtils.ts:18-20 | ('00' + v).substr(('' + v).length) for 0 <= v < 100 is v's two decimal digits, tens first, and reads back as v |
| DateFormat.FormatDefault | src/core/dateUtils.ts:4-23 | the default template yyyy-MM-dd gives the year, a dash, the two-digit month, a dash and the two-digit day |
| DateFormat.FormatDefaultReadsBack | src/core/dateUtils.ts:4-23 | for a four-digit year the default text is ten characters with dashes at 4 and 7, and its three digit groups read back as the year, month and day |
| DateFormat.FormatOneLetter | src/core/dateUtils.ts:16-20 | the templates M and d give the month and day without padding, so a day below 10 is one character |
| DateFormat.FormatWeekday | src/core/dateUtils.ts:12 | the template W gives the day's name from 日一二三四五六 indexed by getDay: 四 on Thursday, 日 on Sunday |
| DateFormat.FormatTime | src/core/dateUtils.ts:8-10 | hh:mm:ss gives the hours, minutes and seconds as two digits each, separated by colons |
| DateFormat.FormatFullYear | src/core/dateUtils.ts:14-15 | yyyy gives the whole year's decimal text |
| DateFormat.FormatShortYear | src/core/dateUtils.ts:14-15 | yy gives the last two digits of a four-digit year |
| DateFormat.FormatMonthLabel | src/core/ganttChart.ts:444 | the Day and Week views' upper label yyyy年MM月 is the year, 年, the two-digit month and 月 |
| DateFormat.LabelTextIffMonth | src/core/dateUtils.ts:14-21 | the year-and-month label texts of two dates are equal exactly when the dates fall in the same month |
| DateFormat.MonthLabelsDistinguishMonths | src/core/ganttChart.ts:444-450 | the upper labels format draws for two dates are equal exactly when the dates fall in the same month, so comparing labels is comparing month numbers |
| GanttTypes.DefaultConfig | src/core/ganttChart.ts:77-99 | the defaults: Month view, row height 48, header height 56, every toggle on, factors 80/20/15/6 |
| GanttTypes.ApplyUpdate | src/core/ganttChart.ts:175 | for each of the nine options (view mode, row and header height, the five show flags, the view factors): a value the update sets replaces the current one, and an unset one keeps it |
| GanttTypes.ApplyUpdateIdempotent | src/core/ganttChart.ts:175 | applying the same update twice is applying it once, and the empty update changes nothing |
| TaskIndex.LastIndexWith | src/core/ganttChart.ts:154 | the position in a row of the last task with a given id |
| TaskIndex.LastRow | src/core/ganttChart.ts:153-155 | the last row that holds a task with a given id |
| TaskIndex.LastRowIsLast | src/core/ganttChart.ts:153-155 | no later row holds that id |
| TaskIndex.RowIdsMembership | src/core/ganttChart.ts:154 | an id is among a row's ids exactly when some task of the row carries it |
| TaskIndex.TaskIdsMembership | src/core/ganttChart.ts:153-155 | an id is a task id of the data exactly when some row holds it |
| TaskIndex.AddRowTasksFacts | src/core/ganttChart.ts:154 | one row's Map.set calls add that row's ids, each mapped to the row's last task with that id, and keep the other entries |
| TaskIndex.IndexEntries | src/core/ganttChart.ts:151-156 | the keys of the index are exactly the task ids, and each entry holds the last row with that id and that row's last task with it |
| TaskIndex.IndexIsLastOccurrence | src/core/ganttChart.ts:151-156 | an id is indexed exactly when some task carries it, and its entry names a row containing that task, with no later occurrence of the id in that row or a later row |
| Timeline.EarliestStep | src/core/ganttChart.ts:219-230 | one more task folded in keeps minDate the earliest plan or actual start seen (or the sentinel) |
| Timeline.LatestStep | src/core/ganttChart.ts:219-230 | one more task folded in keeps maxDate the latest plan end or actual end seen (or the sentinel) |
| Timeline.FoldsAreUnique | src/core/ganttChart.ts:219-230 | the fold's results do not depend on the order taskMap is visited in |
| Timeline.FoldOverBounds | src/core/ganttChart.ts:219-230 | folding the keys in any order gives the earliest start and the latest end over them, or the starting values |
| Timeline.FullSpanIsRange | src/core/ganttChart.ts:210-230 | the span of the rows is now and now + 60 days without rows, else the earliest start and latest end over the index, or the sentinels |
| Timeline.FullRangeUnique | src/core/ganttChart.ts:210-230 | there is one such range for given rows, so the span is the only value calculateFullTimeline can store |
| Timeline.SentinelDays | src/core/ganttChart.ts:213-214 | new Date(9999, 0, 1) and new Date(1000, 0, 1) are days 2932532 and -354285 |
| Timeline.SentinelYears | src/core/ganttChart.ts:213-214 | the sentinels are January 1 of 9999 and of 1000 |
| Timeline.SentinelYearMeansNoStart | src/core/ganttChart.ts:234-237 | minDate is in year 9999 exactly when it is still the sentinel, and then no task start was earlier |
| Timeline.YearStartBound | src/core/ganttChart.ts:234-237 | a day in year y or later is not before January 1 of y |
| Timeline.YearEndBound | src/core/ganttChart.ts:235-238 | a day in year y or earlier is before January 1 of y + 1 |
| Timeline.StartFallback | src/core/ganttChart.ts:234-237 | with the start sentinel in place, the buffered start is 7 days before January 1 of the current year, whatever the end side holds |
| Timeline.EndFallback | src/core/ganttChart.ts:235-238 | with maxDate in year 1000 (the sentinel, or a real task end in that year), the buffered end is 14 days after January 1 of the next year, whatever the start side holds |
| Timeline.TimelineFallback | src/core/ganttChart.ts:234-238 | with minDate in year 9999 and maxDate in year 1000, the buffered range runs from 7 days before January 1 of the current year to 14 days after January 1 of the next |
| Timeline.JanuaryFirst | src/core/ganttChart.ts:242-243 | the month count 12 * y is January 1 of y |
| Timeline.NextJanuary | src/core/ganttChart.ts:243 | one year after January 1 of y is January 1 of y + 1 |
| Timeline.NextMonthStart | src/core/ganttChart.ts:247 | one month after a first of month is the next first of month |
| Timeline.StartMonthCount | src/core/ganttChart.ts:246 | getStartOfMonth(d) is the first of d's own month or a later one (the 19xx rule) |
| Timeline.MonthEndCovers | src/core/ganttChart.ts:247 | the last day of the month of d's start of month is not before d |
| Timeline.YearEndCovers | src/core/ganttChart.ts:243 | the last day of the year of d's start of year is not before d |
| Timeline.SnapEndCovers | src/core/ganttChart.ts:240-258 | in every view mode timelineEnd is not before the buffered end |
| Timeline.SnapStartCovers | src/core/ganttChart.ts:240-258 | in every view mode timelineStart is not after the buffered start; it is a first of month in the Month view, a January 1 in the Year view and a Monday in the Week view |
| Timeline.StartCoversTasks | src/core/ganttChart.ts:213-258 | once a task start beats the start sentinel, every indexed start date is at least 7 days after timelineStart in every view mode, whatever the end dates |
| Timeline.EndCoversTasks | src/core/ganttChart.ts:213-258 | every indexed end date is at least 14 days before timelineEnd in every view mode, whatever the start dates; the buffer is taken from maxDate unless maxDate is in year 1000, where January 1 of next year stands in and still covers the ends once the current year is 1000 or later |
| Timeline.EndInSentinelYearCovers | src/core/ganttChart.ts:235-238 | a maxDate in year 1000, the sentinel or a real task end, is replaced by January 1 of next year, which from the year 1000 on still lies after every indexed end date |
| Timeline.TimelineCoversTasks | src/core/ganttChart.ts:213-258 | once a task start beats the start sentinel, every indexed start date is at least 7 days after timelineStart and every end date at least 14 days before timelineEnd, in every view mode, with maxDate in year 1000 handled as in EndCoversTasks |
| Layout.DateToXOrigin | src/core/ganttChart.ts:266-268 | dateToX(timelineStart) == 0 |
| Layout.DateToXExact | src/core/ganttChart.ts:266-268 | dateToX(d) is (d - timelineStart) * pixelsPerDay |
| Layout.DateToXMonotone | src/core/ganttChart.ts:266-268 | dateToX does not decrease as the date grows |
| Layout.XToDateOfDateToX | src/core/ganttChart.ts:266-272 | xToDate(dateToX(d)) == d |
| Layout.XToDateMonotone | src/core/ganttChart.ts:270-272 | xToDate does not decrease as x grows |
| Layout.XToDateColumn | src/core/ganttChart.ts:270-272 | right of the timeline start, xToDate finds the day whose column holds the pixel |
| Layout.PlanWidth | src/core/ganttChart.ts:343-344 | the plan bar is (diffDaysInclusive(planStart, planEnd)) * pixelsPerDay wide |
| Layout.ActualWidth | src/core/ganttChart.ts:347-352 | the actual bar, with both actual dates, is diffDaysInclusive(actualStart, actualEnd) * pixelsPerDay wide |
| Layout.PositionShape | src/core/ganttChart.ts:343-360 | a plan x is NaN exactly when its date is absent, an actual x is null exactly when its date is absent, and y is the centre of the row's band |
| Layout.PlanWidthOfDays | src/core/ganttChart.ts:343-344 | a plan of n days is n * pixelsPerDay wide |
| Layout.TaskConnectorsMembership | src/core/ganttChart.ts:566-569 | a task's connectors are exactly the routes of those of its dependencies that draw one |
| Layout.ConnectorsOverAdd | src/core/ganttChart.ts:559-566 | visiting one more task adds exactly its connectors |
| Layout.RouteIsManhattan | src/core/ganttChart.ts:578-639 | every route has 4 or more points, every segment is horizontal or vertical, and it runs from fromX to toX |
| Layout.RouteShape | src/core/ganttChart.ts:581-639 | adjacent rows: 4 points with the arrowhead down exactly when toRow > fromRow, else up; other rows: 4 points when toX > fromX + 30, else 6, ending rightward into (toX, toY) with a right arrowhead |
| Layout.RouteOnRowBoundaries | src/core/ganttChart.ts:588-633 | an adjacent route turns at midY, the boundary between the two rows, and its last segment runs in the arrow's direction; a detour runs along toY ∓ rowHeight/2, the target row's boundary on the side it comes from |
| Layout.ExitAndEntryPoints | src/core/ganttChart.ts:573-576 | fromX is the later of the plan end and an actual end, toX the earlier of the plan start and an actual start, and an actual x of 0 counts as absent |
| Layout.ConnectorsDrawn | src/core/ganttChart.ts:559-570 | a dependency or task without a position draws nothing; with both positions and no NaN it draws its route, and every route drawn is among the connectors |
| Layout.ConnectorsAreDependencies | src/core/ganttChart.ts:559-640 | every connector drawn is the route of some dependency of some indexed task |
| Layout.RowShownIffOverlap | src/core/ganttChart.ts:654 | a row is drawn exactly when its band meets the viewport's vertical extent |
| Layout.BarShownIffOverlap | src/core/ganttChart.ts:660-667 | a task is drawn exactly when its plan span meets the viewport, or it has a truthy actual start and its actual span meets it |
| Layout.BarShownEdgeCases | src/core/ganttChart.ts:660-667 | NaN plan coordinates never skip a task; a null actual end compares as 0, so right of the origin such a task is tested by its plan span alone |
| Layout.DrawActual | src/core/ganttChart.ts:784-792 | the actual half of drawTask leaves the plan coordinates alone and draws no plan bar |
| Layout.DrawTaskNeutral | src/core/ganttChart.ts:781-805 | with [0, 1] pairs drawTask leaves the position unchanged; the actual bar appears exactly when shown with a truthy start and runs to the actual end or today; the plan bar appears exactly when shown with truthy plan x's and spans them |
| Layout.ViewOtherThanDayIsNeutral | src/core/ganttChart.ts:781-782 | outside the Day view, or without a pair, the offset pair is [0, 1] |
| Layout.SubSpan | src/core/ganttChart.ts:797-798 | for 0 <= o, 0 <= f and o + f <= 1, the shifted plan coordinates stay inside the original span |
| Layout.DrawPlanShifts | src/core/ganttChart.ts:794-799 | the plan half of drawTask shifts the plan start by width * offset and sets the plan end to it plus width * percent |
| Layout.DrawTaskSubDayActual | src/core/ganttChart.ts:781-791 | in the Day view an actual pair [o, f] draws the actual bar from x + w*o, w*f wide, where w runs to the actual end or to today; the shifted start is written back, and the end only when it was truthy |
| Layout.DrawPlanKeepsActual | src/core/ganttChart.ts:794-799 | the plan half of drawTask leaves the actual bar and the actual coordinates as the actual half left them |
| Layout.DrawTaskSubDayPlan | src/core/ganttChart.ts:794-799 | in the Day view a plan pair [o, f] draws the bar from x + w*o, w*f wide, and writes those ends back into the cached position |
| Layout.FloorDivBands | src/core/ganttChart.ts:849 | Math.floor(chartY / rowHeight) is the band holding chartY, negative above the rows and at least the row count below them |
| Layout.HoverRow | src/core/ganttChart.ts:849-852 | a row is found exactly when chartY is within the rows, and it is the row whose band holds chartY |
| Layout.HoverTasks | src/core/ganttChart.ts:862-872 | the filter keeps exactly the row's tasks whose [planStart, planEnd + 1) or [actualStart, actualEnd + 1) holds the date |
| Layout.HoverTasksOne | src/core/ganttChart.ts:862-872 | on one task the filter keeps it exactly when it covers the date |
| Layout.HoverTasksConcat | src/core/ganttChart.ts:862 | the filter of a concatenation is the concatenation of the filters, so the row's order and repeated tasks are kept |
| Layout.CoversPlanIffInsideBar | src/core/ganttChart.ts:862-865 | a day is in [planStart, planEnd + 1) exactly when its column's x lies inside the plan bar |
| Layout.HoverFindsPlanBar | src/core/ganttChart.ts:849-872 | hovering any pixel of a plan bar right of the timeline start lists that task |
| Layout.TaskWidthPercentScales | src/core/ganttChart.ts:925-927 | k whole days give k * pixelsPerDay, and widths add over consecutive durations |
| Layout.ScrollTargetShowsDate | src/core/ganttChart.ts:934-940 | there is a target exactly when a date or minDate is given, and the pixel 80 into the viewport then shows that date |
| Layout.StepsAdvance | src/core/ganttChart.ts:410-434 | every step of the header and grid loops moves strictly forward, so their "no progress" guard never fires |
| Layout.StepsKeepAlignment | src/core/ganttChart.ts:454-471 | the Month view's steps keep to firsts of months and the Year view's to January 1 and July 1 |
| Layout.HalfYearSteps | src/core/ganttChart.ts:459-468 | six months on from January 1 or July 1 is again January 1 or July 1 |
| Layout.IterationStartAlignment | src/core/ganttChart.ts:365-377 | getIterationStartDate is a first of month in the Month view, a January 1 in the Year view and a Monday in the Week view |
| Render.DateToXIncreasing | src/core/ganttChart.ts:410 | from year 100 on, a later date has a larger x, which is what makes the catch-up loop end |
| Render.PrerollProgress | src/core/ganttChart.ts:410-434 | each step of the catch-up loop lowers its termination measure |
| Render.PrerollFacts | src/core/ganttChart.ts:405-434 | the catch-up loop stops at the first step whose x reaches scrollLeft - 7 * pixelsPerDay, and it keeps the Month view on firsts of months and the Year view on half-year starts |
| Render.HeaderTicksUnfold | src/core/ganttChart.ts:436-504 | a header column at cur: its next date, its x and width, and an upper label drawn when it differs from the last; the rest start from the next date |
| Render.HeaderTicksCons | src/core/ganttChart.ts:436-504 | the columns from a drawable date are that date's column followed by the columns from the guarded next date |
| Render.HeaderTicksSkip | src/core/ganttChart.ts:468-471 | in the Year view a day that is not a half-year start draws nothing and moves on a day |
| Render.HeaderTicksPlacement | src/core/ganttChart.ts:436-475 | every column lies between cur and end and runs from its date's x to its next date's x |
| Render.HeaderFirstDate | src/core/ganttChart.ts:436-437 | the first column is not before cur |
| Render.HeaderTicksOrdered | src/core/ganttChart.ts:436-504 | each column ends no later than the next one begins |
| Render.HeaderYearColumns | src/core/ganttChart.ts:459-471 | in the Year view every column is a January 1 or a July 1 |
| Render.HeaderMonthColumns | src/core/ganttChart.ts:454-458 | in the Month view, from a first of month, every column is a first of month |
| Render.HeaderTicksTile | src/core/ganttChart.ts:436-504 | from a column boundary the columns tile the range: none exactly when cur > end, the first at cur, each ending where the next begins, the last ending after end |
| Render.HeaderUpperLabels | src/core/ganttChart.ts:477-484 | an upper label is drawn at the first column unless it repeats the last one, and after that exactly where it changes |
| Render.HeaderKeysOfRest | src/core/ganttChart.ts:477-484 | the first column of a stretch draws its upper label according to the label before it |
| Render.GridColumnsUnfold | src/core/ganttChart.ts:728-756 | a column line at cur with its x, then the lines from the next date |
| Render.GridColumnsPlacement | src/core/ganttChart.ts:728-756 | the column lines run from cur to end at their dates' x, each one grid step after the one before, and the step after the last passes end |
| Render.GridColumnsBounds | src/core/ganttChart.ts:728-756 | the column lines are empty exactly when cur is past end; they start at cur, lie within cur..end at their dates' x, and the step after the last passes end |
| Render.GridColumnsChain | src/core/ganttChart.ts:728-756 | each column line is one grid step after the one before it, and later |
| Render.GridMatchesHeader | src/core/ganttChart.ts:728-756 | outside the Week view, and in the Year view from a half-year start, the grid draws a line at the left edge of every header column and nowhere else |
| Render.RowLinesExact | src/core/ganttChart.ts:678-685 | a row line is drawn at y exactly when y is a row boundary inside the viewport, top to bottom |
| Render.TodayMarker | src/core/ganttChart.ts:761-771 | the marker is drawn exactly when today's x is within the viewport, at that x |
| Render.RowPassFacts | src/core/ganttChart.ts:656-669 | one row's pass keeps the cached ids and only appends draws of that row's tasks |
| Render.RowsPassFacts | src/core/ganttChart.ts:650-671 | drawAllTasks keeps the cached ids and draws only tasks of rows inside the viewport, each naming a task of its row |
| Render.RowPassNeutral | src/core/ganttChart.ts:656-669 | when nothing shifts, a row's pass keeps the positions and draws exactly its shown tasks in order |
| Render.RowsPassNeutral | src/core/ganttChart.ts:650-671 | when nothing shifts (any view other than Day), drawAllTasks leaves the positions unchanged and draws exactly the visible tasks, row by row |
| Render.RowPassKeeps | src/core/ganttChart.ts:656-669 | a row's pass leaves the cached position of every id outside the row as it was |
| Render.RowsPassKeeps | src/core/ganttChart.ts:650-671 | drawAllTasks leaves the cached position of every id no task has as it was |
| Render.ShownInRowAgree | src/core/ganttChart.ts:656-669 | which of a row's tasks are shown, and how, depends only on the cached positions of that row's ids |
| Render.RowPassUnique | src/core/ganttChart.ts:656-669 | with distinct ids in the row, the row's pass draws exactly the row's tasks whose bars meet the viewport, in order, each from its position before the pass, in every view mode including the shifting Day view |
| Render.RowsPassUnique | src/core/ganttChart.ts:650-671 | with distinct task ids, drawAllTasks draws exactly the visible tasks of the visible rows, row by row, from the cached positions, in every view mode including the shifting Day view |
| Render.OtherViewsAreNeutral | src/core/ganttChart.ts:781-782 | outside the Day view no task shifts |
| Gantt.PositionsOf | src/core/ganttChart.ts:336-363 | one position per indexed task, at that task's row and the row's centre line |
| Gantt.PositionsOfUpdate | src/core/ganttChart.ts:353-360 | setting one index entry sets exactly one position |
| Gantt.PositionsAreOfLastOccurrence | src/core/ganttChart.ts:336-363 | every task id has a position, that of the last task carrying the id, at its row |
| Gantt.VisibleRangeCoversViewport | src/core/ganttChart.ts:304-310 | every pixel column of the viewport maps to a date inside the visible range |
| Gantt.TotalWidthFitsTimeline | src/core/ganttChart.ts:312-315 | the scroll width is (timelineEnd - timelineStart + 1) days, ending where the last day's column ends |
| Gantt.TaskIdOfEntry | src/core/ganttChart.ts:151-156 | the entry under an id holds a task with that id |
| Gantt.NoConnectors | src/core/ganttChart.ts:560-562 | a task with no dependencies or no position draws no connector |
| Gantt.FoldTask | src/core/ganttChart.ts:220-229 | the four comparisons of one task update minDate and maxDate |
| Gantt.FoldDates | src/core/ganttChart.ts:219-230 | the forEach over taskMap leaves the earliest start and the latest end of all indexed tasks, or the sentinels |
| Gantt.GanttChart.BuildTaskMap | src/core/ganttChart.ts:151-156 | taskMap becomes the index of the data |
| Gantt.GanttChart.CalculateFullTimeline | src/core/ganttChart.ts:210-259 | minDate and maxDate are the span of the rows (now and now + 60 days without rows, else the folds over taskMap from the sentinels); then timelineStart/End buffered and snapped to the view mode |
| Gantt.GanttChart.Bound | src/core/ganttChart.ts:144-145 | buildTaskMap then calculateFullTimeline: taskMap is the index of the rows, minDate/maxDate are the span of the rows over it, the timeline is their buffered and snapped range, and no other input field changes |
| Gantt.GanttChart.UpdatePixelsPerDay | src/core/ganttChart.ts:261-264 | pixelsPerDay becomes the view mode's factor |
| Gantt.GanttChart.UpdateDimensions | src/core/ganttChart.ts:312-324 | totalWidth is the timeline's days times pixelsPerDay and totalHeight the rows' height plus the header |
| Gantt.GanttChart.UpdateVirtualRanges | src/core/ganttChart.ts:304-310 | the visible range is xToDate of scrollLeft - 200 and scrollLeft + viewportWidth + 200 |
| Gantt.GanttChart.CalculateAllTaskPositions | src/core/ganttChart.ts:336-363 | taskPositions becomes the positions of the indexed tasks, and nothing else changes |
| Gantt.GanttChart.HeaderPreroll | src/core/ganttChart.ts:405-434 | the catch-up loop of renderHeader ends where the catch-up function does |
| Gantt.GanttChart.HeaderColumns | src/core/ganttChart.ts:436-504 | the header's main loop produces exactly the header columns up to the visible end |
| Gantt.GanttChart.RenderHeader | src/core/ganttChart.ts:388-512 | renderHeader draws the header columns from the catch-up date |
| Gantt.GanttChart.GridPreroll | src/core/ganttChart.ts:704-726 | the catch-up loop of drawGrid, which has no guard, ends where the catch-up function does |
| Gantt.GanttChart.RowLineYs | src/core/ganttChart.ts:679-684 | the row loop draws the row lines 0..rows inside the viewport |
| Gantt.GanttChart.GridColumnLines | src/core/ganttChart.ts:728-756 | the column loop draws exactly the grid's column lines |
| Gantt.GanttChart.DrawGrid | src/core/ganttChart.ts:673-759 | row lines only with showRowLines, column lines only with showColLines, from the catch-up date |
| Gantt.GanttChart.DrawToday | src/core/ganttChart.ts:761-771 | the today marker, when within the viewport |
| Gantt.GanttChart.TaskConnectorsInto | src/core/ganttChart.ts:566-640 | the inner forEach collects one connector per dependency that draws one |
| Gantt.GanttChart.DependenciesOf | src/core/ganttChart.ts:559-641 | a task's callback draws its connectors, or nothing without dependencies or a position |
| Gantt.GanttChart.DrawAllDependencies | src/core/ganttChart.ts:550-642 | the connectors drawn are all indexed tasks' connectors |
| Gantt.GanttChart.DrawAllTasks | src/core/ganttChart.ts:644-671 | the bars drawn and the cache left are those of the row-by-row pass, with drawTask's write-back; by Render.RowsPassUnique (distinct ids) and Render.RowsPassNeutral (no shift) those bars are exactly the visible tasks, row by row |
| Gantt.GanttChart.RenderMain | src/core/ganttChart.ts:514-529 | grid, today, connectors (read from the positions before drawTask shifts them), then task bars; the other fields are unchanged |
| Gantt.GanttChart.Redraw | src/core/ganttChart.ts:383-385 | positions are recomputed and the frame is what the current state draws, whatever was drawn before |
| Gantt.GanttChart.Render | src/core/ganttChart.ts:379-386 | the visible range is made current, then positions and frame are recomputed from the state alone |
| Gantt.GanttChart.Refresh | src/core/ganttChart.ts:182-183 | updateDimensions then render: scroll area sized, visible range current, frame drawn, the rest unchanged |
| Gantt.GanttChart.RenderSized | src/core/ganttChart.ts:379-386 | a render after the scroll area is sized leaves the chart settled |
| Gantt.GanttChart.constructor | src/core/ganttChart.ts:49-141 | defaults overridden by the caller's options, today as the creation day, scroll 0, then init: taskMap the index of the rows, minDate/maxDate their span, the timeline buffered and snapped from it, pixelsPerDay the view mode's factor, listeners when the tooltip is shown, and a first resize |
| Gantt.GanttChart.Init | src/core/ganttChart.ts:143-149 | taskMap is the index of the rows, minDate/maxDate their span, the timeline buffered and snapped from it, pixelsPerDay the view mode's factor, listeners attached exactly when the tooltip is shown, the viewport takes the client size; rows, options, today and scroll are unchanged |
| Gantt.GanttChart.Prepare | src/core/ganttChart.ts:144-147 | taskMap is the index of the rows, minDate/maxDate their span, the timeline buffered and snapped from it, pixelsPerDay the view mode's factor, and the hover listeners exactly when the tooltip is shown |
| Gantt.GanttChart.HandleResize | src/core/ganttChart.ts:274-285 | the viewport takes the client size and the chart is refreshed; nothing else changes |
| Gantt.GanttChart.HandleScroll | src/core/ganttChart.ts:287-298 | the scroll offsets are taken, and the chart is re-rendered |
| Gantt.GanttChart.UpdateConfig | src/core/ganttChart.ts:174-184 | options merged; with a view mode, scrollLeft = 0 and pixelsPerDay = its factor; the timeline bounds are not recomputed; then a refresh |
| Gantt.GanttChart.ApplyOptions | src/core/ganttChart.ts:175-181 | the merge and the view-mode branch of updateConfig, stating the whole new state |
| Gantt.GanttChart.SetData | src/core/ganttChart.ts:186-196 | new rows and their index; with options, exactly Reconfigure's new state (timeline, minDate and maxDate kept); otherwise exactly Reload's (minDate/maxDate the span of the new rows, timeline snapped from it, scroll, scale and options kept); a frame is drawn either way |
| Gantt.GanttChart.Reconfigure | src/core/ganttChart.ts:187-190 | setData with options: new rows and index, options merged; with a view mode scrollLeft = 0 and pixelsPerDay its factor, else both kept; timeline, minDate and maxDate unchanged |
| Gantt.GanttChart.Reload | src/core/ganttChart.ts:187-195 | setData without options: new rows and index, minDate/maxDate the span of the new rows, timeline buffered and snapped from it; options, scale and scroll unchanged |
| Gantt.GanttChart.HoverAt | src/core/ganttChart.ts:843-874 | no listeners, nothing; a tooltip exactly when the pointer is on a row and some task of that row covers the day under it, and then it lists exactly the row's filter (HoverTasks) for that day, in row order with repeats |
| Gantt.GanttChart.ScrollToStartDate | src/core/ganttChart.ts:934-940 | a target exactly when a date or minDate is given, at that date's x less 80 |
| Utils.FirstValidValue | src/core/utils.ts:6-13 | the first argument that is not null/undefined, and every argument before it is absent; null exactly when all are absent or there are none |
| Utils.FirstSomeIsFirst | src/core/utils.ts:7-12 | the result is an argument with only absent arguments before it, or null exactly when every argument is absent |
| Utils.FirstSomeKeepsAnyPresentValue | src/core/utils.ts:8 | a present value is returned whatever it is (0, '' and false are not skipped) |

## Left out

- Canvas and DOM: element creation, `setupCanvas`, `devicePixelRatio`, fonts, colours and every `ctx` call. Drawing is modelled as the values drawn: header columns, lines, the marker, routes and bars (`Render.Frame`).
- `drawArrow`'s triangle and `drawTask`'s remark texts. A route carries only its arrowhead direction.
- The header's lower label texts (`d W`, `第N周`, `N月`, `上半年`/`下半年`) are not part of the header columns. An upper label is kept as a number: the month number in the Day and Week views, the year in the Month and Year views. `DateFormat.MonthLabelsDistinguishMonths` shows that the `yyyy年MM月` texts are equal exactly when those month numbers are, so the drawn/not-drawn decisions are the source's.
- DateFormat.Format: the time of day is a parameter (`TimeOfDay`), because dates are day numbers; `h`, `m` and `s` are proved for any values, and `hh:mm:ss` for values in range.
- DateFormat.Format: the replacement text is taken literally. In the source it is a string pattern of `String.prototype.replace`, where `$` sequences are special, but none of the texts written (digits, a minus sign, the weekday names) contains a `$`.
- `getTaskStyles` and the colour options: these are a colour lookup only.
- Event plumbing: `setupEvents`' listener registration, `ResizeObserver`, `setTimeout`, the `ganttscroll` CustomEvent, `destroy` and `setScrollTop`. These are host I/O. Their one effect on the core, that hover listeners exist only with `showTooltip`, is the `hoverEnabled` field.
- `requestAnimationFrame` in `handleScroll`: the render is taken to run right away.
- The tooltip's HTML, `getTaskTooltipHtml`, `tooltipFormat` (a caller-supplied function) and tooltip placement against the window. `HoverAt` models the built-in tooltip's choice of row, date and tasks only.
- `container.scrollTo` clamping: `ScrollToStartDate` returns the requested offset without applying it.
- JavaScript `Date` parsing, "Invalid Date", time of day, time zones and DST. Tasks arrive with day numbers.
- Floating point: pixel coordinates of bars, offsets and `getTaskWidthPercent` are exact reals, while the source uses IEEE doubles. Day-level x coordinates are integers.
- Gantt.GanttChart.UpdateConfig: a change of `showTooltip` through `updateConfig` attaches or detaches no listeners, in the source and in the model alike. `hoverEnabled` is set only by `init`.
- Gantt.GanttChart.constructor, Gantt.GanttChart.UpdateConfig, Gantt.GanttChart.SetData: these require `ValidConfig` (a positive row height and positive view factors). The source accepts any values and then yields Infinity/NaN coordinates, which the model does not represent.
- Layout.DateToXExact, Layout.DateToXMonotone, Layout.XToDateOfDateToX, Layout.XToDateColumn, Layout.PlanWidth, Layout.ActualWidth, Layout.CoversPlanIffInsideBar, Layout.HoverFindsPlanBar, Layout.ScrollTargetShowsDate, Timeline.SnapStartCovers, Timeline.StartCoversTasks, Timeline.TimelineCoversTasks: these are stated for dates outside years 0..99 (`Rebuildable`). `new Date(y, m, d)` reads those years as 1900..1999, so there the source's mapping is not exact.
- Timeline.EndCoversTasks, Timeline.TimelineCoversTasks: with maxDate in year 1000 they need the current year to be 1000 or later. With an earlier clock the fallback end, January 1 of next year, can fall before a real year-1000 task end; no lemma describes that case.
- DateUtils.StartOfWeekFacts, DateUtils.StartOfWeekIdempotent, DateUtils.StartOfMonthFacts, DateUtils.StartOfYearFacts, DateUtils.DiffDaysExact, DateUtils.DiffDaysAddDays, DateUtils.WeekNumberRange, DateUtils.WeekNumberIsIso, DateUtils.WeekNumberSameWeek, DateUtils.IsoThursdayFacts, DateUtils.DaysInMonthRange: these also assume years outside 0..99, for the same reason.
- Render.GridMatchesHeader: it is not stated for the Week view. There the header steps from `getStartOfWeek` of each column, which rebuilds the date, while the grid steps by 7 days. The two agree only from a Monday outside years 0..99, and that is not proved.
- Layout.DrawTaskSubDayPlan: it states the drawn span and the coordinates written back. That they stay inside the original span is `Layout.SubSpan`, which holds for pairs with 0 <= o, 0 <= f and o + f <= 1.
- Layout.ConnectorRoute, Layout.ConnectorsDrawn: a connector with a NaN end x (a NaN plan coordinate reaching `Math.max`/`Math.min`) is modelled as drawing nothing. The source still builds and strokes the path, and the canvas drops only the segments that touch a non-finite point, so a finite remainder (such as the vertical stub at the other end) and a finite arrowhead can still appear. The canvas's handling of non-finite points is host behaviour and is not represented.
- Gantt.GanttChart.DrawAllDependencies: connectors are a set, so the order of drawing and repeated identical routes are not modelled.
- Gantt.GanttChart.SetData: with options, the timeline keeps the old data's range and `minDate`/`maxDate` are stale. Without `viewMode` in the options, a changed `viewFactors` leaves `pixelsPerDay` stale. Both match the source.
- A repeated task id keeps only its last task in `taskMap` and `taskPositions`. Both occurrences are still drawn, from the one shared position, as in the source.
- Render.RowsPassUnique, Render.RowPassUnique: they require distinct task ids. With a repeated id in the Day view with offset pairs, a later occurrence is tested and drawn from the position the earlier one wrote back; the model computes that through `RowsPass`, but no lemma characterises it beyond `Render.RowsPassFacts`.
- The demo and mock data generators, the build configuration and the re-export entry points.
