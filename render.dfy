/**
 * What render draws (src/core/ganttChart.ts:379-771), as values: the
 * header's columns, the grid's row and column lines, the today marker and
 * the task bars, together with the catch-up loop both column loops start
 * with. The canvas calls themselves are not modelled; each list holds what
 * one loop of the source draws, in drawing order.
 */
module Render {
  import opened Wrappers
  import opened Calendar
  import opened DateUtils
  import opened GanttTypes
  import opened Layout
  import opened Timeline

  // ----- the catch-up loop of renderHeader and drawGrid

  /** The catch-up loops run while the column at the current date starts more than a week left of scrollLeft. */
  function PrerollBound(scrollLeft: int, ppd: int): int
  {
    scrollLeft - ppd * 7
  }

  /**
   * A date before year 100 is read back by new Date as 19xx, so its x can
   * fall back as the date moves on; the termination measure first counts
   * the days up to year 100, and then the pixels left to the bound.
   */
  function PrerollPhase(cur: int): int
  {
    if FullYear(cur) < 100 then 1 else 0
  }

  function PrerollRank(ts: int, ppd: int, cur: int, bound: int): int
  {
    if FullYear(cur) < 100 then MonthStart(1200) - cur else bound - DateToX(ts, ppd, cur)
  }

  /** From year 100 on, a later date has a strictly larger x. */
  lemma DateToXIncreasing(ts: int, ppd: int, d1: int, d2: int)
    requires ppd > 0 && d1 < d2 && FullYear(d1) >= 100
    ensures FullYear(d2) >= 100
    ensures DateToX(ts, ppd, d1) < DateToX(ts, ppd, d2)
  {
    YearStartBound(d1, 100);
    if FullYear(d2) <= 99 {
      YearEndBound(d2, 99);
    }
    ReconstructedIdentity(d1);
    ReconstructedIdentity(d2);
    var r := Reconstructed(ts);
    MulMonotone(1, d2 - d1, ppd);
    assert (d2 - r) * ppd == (d1 - r) * ppd + (d2 - d1) * ppd;
  }

  /** One step of the catch-up loop lowers its measure. */
  lemma PrerollProgress(mode: ViewMode, ts: int, ppd: int, cur: int, bound: int)
    requires ppd > 0 && DateToX(ts, ppd, cur) < bound
    ensures var next := PrerollStep(mode, cur);
      || PrerollPhase(next) < PrerollPhase(cur)
      || (PrerollPhase(next) == PrerollPhase(cur) && 0 <= PrerollRank(ts, ppd, cur, bound) && PrerollRank(ts, ppd, next, bound) < PrerollRank(ts, ppd, cur, bound))
  {
    var next := PrerollStep(mode, cur);
    StepsAdvance(mode, cur);
    if FullYear(cur) < 100 {
      YearEndBound(cur, 99);
      if FullYear(next) < 100 {
        YearEndBound(next, 99);
      }
    } else {
      DateToXIncreasing(ts, ppd, cur, next);
    }
  }

  /** The date the catch-up loop stops at, stepping from cur by the view mode's unit. */
  function Preroll(mode: ViewMode, ts: int, ppd: int, cur: int, bound: int): int
    requires ppd > 0
    decreases PrerollPhase(cur), PrerollRank(ts, ppd, cur, bound)
  {
    if DateToX(ts, ppd, cur) < bound then
      PrerollProgress(mode, ts, ppd, cur, bound);
      Preroll(mode, ts, ppd, PrerollStep(mode, cur), bound)
    else cur
  }

  /**
   * The catch-up loop ends at the first date, from cur on in steps of the
   * view mode's unit, whose column starts at or right of the bound, and it
   * keeps the Month view on first days and the Year view on half-year
   * starts.
   */
  lemma {:induction false} PrerollFacts(mode: ViewMode, ts: int, ppd: int, cur: int, bound: int)
    requires ppd > 0
    ensures cur <= Preroll(mode, ts, ppd, cur, bound)
    ensures DateToX(ts, ppd, Preroll(mode, ts, ppd, cur, bound)) >= bound
    ensures DateToX(ts, ppd, cur) >= bound ==> Preroll(mode, ts, ppd, cur, bound) == cur
    ensures Preroll(mode, ts, ppd, cur, bound) == cur ||
      exists p :: cur <= p && PrerollStep(mode, p) == Preroll(mode, ts, ppd, cur, bound) && DateToX(ts, ppd, p) < bound
    ensures mode == Month && DayOfMonth(cur) == 1 ==> DayOfMonth(Preroll(mode, ts, ppd, cur, bound)) == 1
    ensures mode == Year && HalfYearStart(cur) ==> HalfYearStart(Preroll(mode, ts, ppd, cur, bound))
    decreases PrerollPhase(cur), PrerollRank(ts, ppd, cur, bound)
  {
    if DateToX(ts, ppd, cur) < bound {
      PrerollProgress(mode, ts, ppd, cur, bound);
      StepsAdvance(mode, cur);
      StepsKeepAlignment(mode, cur);
      var next := PrerollStep(mode, cur);
      PrerollFacts(mode, ts, ppd, next, bound);
      if Preroll(mode, ts, ppd, next, bound) == next {
        assert PrerollStep(mode, cur) == Preroll(mode, ts, ppd, cur, bound);
      }
    }
  }

  // ----- the header

  /**
   * One column of the header: its date, the date of the next column, its x
   * and width, what its upper label reads, and whether that label is drawn
   * (only where it differs from the one before).
   */
  datatype HeaderTick = HeaderTick(date: int, next: int, x: int, width: int, upperKey: int, upperDrawn: bool)

  /** What the upper label reads: the year and month (of the week's Monday in the Week view), or the year. */
  function UpperKey(mode: ViewMode, d: int): int
  {
    match mode
    case Day => MonthNumber(d)
    case Week => MonthNumber(GetStartOfWeek(d))
    case Month => FullYear(d)
    case Year => FullYear(d)
  }

  /**
   * The main loop of renderHeader from cur up to end; last is the upper
   * label drawn before. The Year view skips a day at a time to the next
   * 1 January or 1 July.
   */
  function HeaderTicks(mode: ViewMode, ts: int, ppd: int, cur: int, end: int, last: Option<int>): seq<HeaderTick>
    decreases end - cur
  {
    if cur > end then []
    else if mode == Year && !HalfYearStart(cur) then
      AddDaysShifts(cur, 1);
      HeaderTicks(mode, ts, ppd, AddDays(cur, 1), end, last)
    else
      StepsAdvance(mode, cur);
      var next := HeaderNext(mode, cur);
      var x := DateToX(ts, ppd, cur);
      var key := UpperKey(mode, cur);
      [HeaderTick(cur, next, x, DateToX(ts, ppd, next) - x, key, last != Some(key))]
        + HeaderTicks(mode, ts, ppd, Advance(cur, next), end, Some(key))
  }

  /** A header column of the view mode: it runs from its date's x to its next date's x, and its upper label reads its date's. */
  predicate TickPlaced(mode: ViewMode, ts: int, ppd: int, t: HeaderTick)
  {
    && t.date < t.next
    && t.next == HeaderNext(mode, t.date)
    && t.x == DateToX(ts, ppd, t.date)
    && t.x + t.width == DateToX(ts, ppd, t.next)
    && t.upperKey == UpperKey(mode, t.date)
  }

  /** The columns from the one at cur: the first one, and the rest from its next date. */
  lemma HeaderTicksUnfold(mode: ViewMode, ts: int, ppd: int, cur: int, end: int, last: Option<int>)
    requires cur <= end && (mode == Year ==> HalfYearStart(cur))
    ensures var r := HeaderTicks(mode, ts, ppd, cur, end, last);
      && |r| > 0 && r[0].date == cur && TickPlaced(mode, ts, ppd, r[0])
      && r[0].upperDrawn == (last != Some(UpperKey(mode, cur)))
      && r[1..] == HeaderTicks(mode, ts, ppd, HeaderNext(mode, cur), end, Some(UpperKey(mode, cur)))
  {
    StepsAdvance(mode, cur);
  }

  /** The columns from a date the view mode draws: that date's column, then the columns from the step after it. */
  lemma HeaderTicksCons(mode: ViewMode, ts: int, ppd: int, cur: int, end: int, last: Option<int>)
    requires cur <= end && (mode == Year ==> HalfYearStart(cur))
    ensures var next := HeaderNext(mode, cur);
      var x := DateToX(ts, ppd, cur);
      var key := UpperKey(mode, cur);
      HeaderTicks(mode, ts, ppd, cur, end, last)
        == [HeaderTick(cur, next, x, DateToX(ts, ppd, next) - x, key, last != Some(key))]
           + HeaderTicks(mode, ts, ppd, Advance(cur, next), end, Some(key))
  {
  }

  /** In the Year view the columns from a day that is no half-year start are those from the day after. */
  lemma HeaderTicksSkip(ts: int, ppd: int, cur: int, end: int, last: Option<int>)
    requires cur <= end && !HalfYearStart(cur)
    ensures HeaderTicks(Year, ts, ppd, cur, end, last) == HeaderTicks(Year, ts, ppd, cur + 1, end, last)
  {
    AddDaysShifts(cur, 1);
  }

  /** Every column lies between cur and end and runs from its date's x to its next date's x. */
  lemma {:induction false} HeaderTicksPlacement(mode: ViewMode, ts: int, ppd: int, cur: int, end: int, last: Option<int>)
    ensures var r := HeaderTicks(mode, ts, ppd, cur, end, last);
      forall k :: 0 <= k < |r| ==> cur <= r[k].date <= end && TickPlaced(mode, ts, ppd, r[k])
    decreases end - cur
  {
    if cur <= end {
      if mode == Year && !HalfYearStart(cur) {
        HeaderTicksSkip(ts, ppd, cur, end, last);
        HeaderTicksPlacement(mode, ts, ppd, cur + 1, end, last);
      } else {
        var r := HeaderTicks(mode, ts, ppd, cur, end, last);
        HeaderTicksUnfold(mode, ts, ppd, cur, end, last);
        StepsAdvance(mode, cur);
        var rest := r[1..];
        HeaderTicksPlacement(mode, ts, ppd, HeaderNext(mode, cur), end, Some(UpperKey(mode, cur)));
        forall k | 1 <= k < |r|
          ensures cur <= r[k].date <= end && TickPlaced(mode, ts, ppd, r[k])
        {
          assert r[k] == rest[k - 1];
        }
      }
    }
  }

  /** The first column is not before cur. */
  lemma {:induction false} HeaderFirstDate(mode: ViewMode, ts: int, ppd: int, cur: int, end: int, last: Option<int>)
    ensures var r := HeaderTicks(mode, ts, ppd, cur, end, last);
      |r| > 0 ==> cur <= r[0].date
    decreases end - cur
  {
    if cur <= end && mode == Year && !HalfYearStart(cur) {
      HeaderTicksSkip(ts, ppd, cur, end, last);
      HeaderFirstDate(mode, ts, ppd, cur + 1, end, last);
    }
  }

  /** Each column ends no later than the next one begins. */
  lemma {:induction false} HeaderTicksOrdered(mode: ViewMode, ts: int, ppd: int, cur: int, end: int, last: Option<int>)
    ensures var r := HeaderTicks(mode, ts, ppd, cur, end, last);
      forall k :: 0 <= k < |r| - 1 ==> r[k].next <= r[k + 1].date
    decreases end - cur
  {
    if cur <= end {
      if mode == Year && !HalfYearStart(cur) {
        HeaderTicksSkip(ts, ppd, cur, end, last);
        HeaderTicksOrdered(mode, ts, ppd, cur + 1, end, last);
      } else {
        var r := HeaderTicks(mode, ts, ppd, cur, end, last);
        HeaderTicksUnfold(mode, ts, ppd, cur, end, last);
        var next := HeaderNext(mode, cur);
        var rest := r[1..];
        HeaderTicksOrdered(mode, ts, ppd, next, end, Some(UpperKey(mode, cur)));
        HeaderFirstDate(mode, ts, ppd, next, end, Some(UpperKey(mode, cur)));
        forall k | 1 <= k < |r| - 1
          ensures r[k].next <= r[k + 1].date
        {
          assert r[k + 1] == rest[k];
          assert r[k] == rest[k - 1];
        }
      }
    }
  }

  /** In the Year view every column is a 1 January or a 1 July. */
  lemma {:induction false} HeaderYearColumns(ts: int, ppd: int, cur: int, end: int, last: Option<int>)
    ensures var r := HeaderTicks(Year, ts, ppd, cur, end, last);
      forall k :: 0 <= k < |r| ==> HalfYearStart(r[k].date)
    decreases end - cur
  {
    if cur <= end {
      if !HalfYearStart(cur) {
        HeaderTicksSkip(ts, ppd, cur, end, last);
        HeaderYearColumns(ts, ppd, cur + 1, end, last);
      } else {
        var r := HeaderTicks(Year, ts, ppd, cur, end, last);
        HeaderTicksUnfold(Year, ts, ppd, cur, end, last);
        StepsAdvance(Year, cur);
        var rest := r[1..];
        HeaderYearColumns(ts, ppd, HeaderNext(Year, cur), end, Some(UpperKey(Year, cur)));
        forall k | 1 <= k < |r|
          ensures HalfYearStart(r[k].date)
        {
          assert r[k] == rest[k - 1];
        }
      }
    }
  }

  /**
   * Starting on a column boundary of the view mode (any day in the Day and
   * Week views, a first of month in the Month view, a half-year start in the
   * Year view), the first column is at cur, each column ends where the next
   * begins, and the last one ends after end: the columns tile the range.
   */
  lemma {:induction false} HeaderTicksTile(mode: ViewMode, ts: int, ppd: int, cur: int, end: int, last: Option<int>)
    requires mode == Year ==> HalfYearStart(cur)
    ensures var r := HeaderTicks(mode, ts, ppd, cur, end, last);
      && (|r| == 0 <==> cur > end)
      && (|r| > 0 ==> r[0].date == cur && r[|r| - 1].next > end)
      && (forall k :: 0 <= k < |r| - 1 ==> r[k].next == r[k + 1].date)
    decreases end - cur
  {
    if cur <= end {
      var next, key := HeaderNext(mode, cur), UpperKey(mode, cur);
      StepsAdvance(mode, cur);
      StepsKeepAlignment(mode, cur);
      HeaderTicksCons(mode, ts, ppd, cur, end, last);
      var r := HeaderTicks(mode, ts, ppd, cur, end, last);
      var rest := HeaderTicks(mode, ts, ppd, next, end, Some(key));
      HeaderTicksTile(mode, ts, ppd, next, end, Some(key));
      assert r[0].next == next && r[1..] == rest;
      forall k | 0 <= k < |r| - 1
        ensures r[k].next == r[k + 1].date
      {
        if k > 0 {
          assert r[k] == rest[k - 1] && r[k + 1] == rest[k];
        }
      }
    }
  }

  /** In the Month view, from a first of month, every column starts on a first of month. */
  lemma {:induction false} HeaderMonthColumns(ts: int, ppd: int, cur: int, end: int, last: Option<int>)
    requires DayOfMonth(cur) == 1
    ensures var r := HeaderTicks(Month, ts, ppd, cur, end, last);
      forall k :: 0 <= k < |r| ==> DayOfMonth(r[k].date) == 1
    decreases end - cur
  {
    if cur <= end {
      var next, key := HeaderNext(Month, cur), UpperKey(Month, cur);
      StepsAdvance(Month, cur);
      StepsKeepAlignment(Month, cur);
      HeaderTicksCons(Month, ts, ppd, cur, end, last);
      var r := HeaderTicks(Month, ts, ppd, cur, end, last);
      var rest := HeaderTicks(Month, ts, ppd, next, end, Some(key));
      HeaderMonthColumns(ts, ppd, next, end, Some(key));
      assert r[1..] == rest;
      forall k | 0 <= k < |r|
        ensures DayOfMonth(r[k].date) == 1
      {
        if k > 0 {
          assert r[k] == rest[k - 1];
        }
      }
    }
  }

  /** The upper label is drawn at the first column unless it repeats last, and after that exactly where it changes. */
  lemma {:induction false} HeaderUpperLabels(mode: ViewMode, ts: int, ppd: int, cur: int, end: int, last: Option<int>)
    ensures var r := HeaderTicks(mode, ts, ppd, cur, end, last);
      && (|r| > 0 ==> (r[0].upperDrawn <==> last != Some(r[0].upperKey)))
      && (forall k :: 0 < k < |r| ==> (r[k].upperDrawn <==> r[k].upperKey != r[k - 1].upperKey))
    decreases end - cur
  {
    if cur <= end {
      StepsAdvance(mode, cur);
      AddDaysShifts(cur, 1);
      if mode == Year && !HalfYearStart(cur) {
        HeaderUpperLabels(mode, ts, ppd, AddDays(cur, 1), end, last);
      } else {
        HeaderUpperLabels(mode, ts, ppd, HeaderNext(mode, cur), end, Some(UpperKey(mode, cur)));
        HeaderKeysOfRest(mode, ts, ppd, HeaderNext(mode, cur), end, Some(UpperKey(mode, cur)));
      }
    }
  }

  /** The first column of a later stretch draws its upper label according to the label before it. */
  lemma HeaderKeysOfRest(mode: ViewMode, ts: int, ppd: int, cur: int, end: int, last: Option<int>)
    ensures var r := HeaderTicks(mode, ts, ppd, cur, end, last);
      |r| > 0 ==> (r[0].upperDrawn <==> last != Some(r[0].upperKey))
    decreases end - cur
  {
    if cur <= end {
      StepsAdvance(mode, cur);
      AddDaysShifts(cur, 1);
      if mode == Year && !HalfYearStart(cur) {
        HeaderKeysOfRest(mode, ts, ppd, AddDays(cur, 1), end, last);
      }
    }
  }

  // ----- the grid

  /** One column line of the grid: its date and its x. */
  datatype ColumnLine = ColumnLine(date: int, x: int)

  /** The main column loop of drawGrid from cur up to end. */
  function GridColumns(mode: ViewMode, ts: int, ppd: int, cur: int, end: int): seq<ColumnLine>
    decreases end - cur
  {
    if cur > end then []
    else
      StepsAdvance(mode, cur);
      [ColumnLine(cur, DateToX(ts, ppd, cur))] + GridColumns(mode, ts, ppd, Advance(cur, GridNext(mode, cur)), end)
  }

  /** The column lines from the one at cur: the first one, and the rest from the next date. */
  lemma GridColumnsUnfold(mode: ViewMode, ts: int, ppd: int, cur: int, end: int)
    requires cur <= end
    ensures var r := GridColumns(mode, ts, ppd, cur, end);
      && |r| > 0 && r[0] == ColumnLine(cur, DateToX(ts, ppd, cur))
      && r[1..] == GridColumns(mode, ts, ppd, GridNext(mode, cur), end)
  {
    StepsAdvance(mode, cur);
  }

  /** The column lines lie between cur and end at their dates' x, each the grid step after the one before. */
  lemma GridColumnsPlacement(mode: ViewMode, ts: int, ppd: int, cur: int, end: int)
    ensures var r := GridColumns(mode, ts, ppd, cur, end);
      && (|r| == 0 <==> cur > end)
      && (|r| > 0 ==> r[0].date == cur && GridNext(mode, r[|r| - 1].date) > end)
      && (forall k :: 0 <= k < |r| ==> cur <= r[k].date <= end && r[k].x == DateToX(ts, ppd, r[k].date))
      && (forall k :: 0 <= k < |r| - 1 ==> r[k + 1].date == GridNext(mode, r[k].date) > r[k].date)
  {
    GridColumnsBounds(mode, ts, ppd, cur, end);
    GridColumnsChain(mode, ts, ppd, cur, end);
  }

  /** The column lines start at cur, stay up to end at their dates' x, and the step after the last passes end. */
  lemma {:induction false} GridColumnsBounds(mode: ViewMode, ts: int, ppd: int, cur: int, end: int)
    ensures var r := GridColumns(mode, ts, ppd, cur, end);
      && (|r| == 0 <==> cur > end)
      && (|r| > 0 ==> r[0].date == cur && GridNext(mode, r[|r| - 1].date) > end)
      && (forall k :: 0 <= k < |r| ==> cur <= r[k].date <= end && r[k].x == DateToX(ts, ppd, r[k].date))
    decreases end - cur
  {
    if cur <= end {
      var r := GridColumns(mode, ts, ppd, cur, end);
      GridColumnsUnfold(mode, ts, ppd, cur, end);
      StepsAdvance(mode, cur);
      var rest := r[1..];
      GridColumnsBounds(mode, ts, ppd, GridNext(mode, cur), end);
      if |rest| > 0 {
        assert r[|r| - 1] == rest[|rest| - 1];
      }
      forall k | 1 <= k < |r|
        ensures cur <= r[k].date <= end && r[k].x == DateToX(ts, ppd, r[k].date)
      {
        assert r[k] == rest[k - 1];
      }
    }
  }

  /** Each column line is the grid step after the one before, and later. */
  lemma {:induction false} GridColumnsChain(mode: ViewMode, ts: int, ppd: int, cur: int, end: int)
    ensures var r := GridColumns(mode, ts, ppd, cur, end);
      forall k :: 0 <= k < |r| - 1 ==> r[k + 1].date == GridNext(mode, r[k].date) > r[k].date
    decreases end - cur
  {
    if cur <= end {
      var r := GridColumns(mode, ts, ppd, cur, end);
      GridColumnsUnfold(mode, ts, ppd, cur, end);
      StepsAdvance(mode, cur);
      var rest := r[1..];
      GridColumnsChain(mode, ts, ppd, GridNext(mode, cur), end);
      GridColumnsBounds(mode, ts, ppd, GridNext(mode, cur), end);
      forall k | 0 <= k < |r| - 1
        ensures r[k + 1].date == GridNext(mode, r[k].date) > r[k].date
      {
        StepsAdvance(mode, r[k].date);
        assert r[k + 1] == rest[k];
        if k > 0 {
          assert r[k] == rest[k - 1];
        }
      }
    }
  }

  /**
   * Outside the Week view, and in the Year view from a half-year start, the
   * grid draws a line at the left edge of every header column and nowhere
   * else.
   */
  lemma {:induction false} GridMatchesHeader(mode: ViewMode, ts: int, ppd: int, cur: int, end: int, last: Option<int>)
    requires mode != Week && (mode == Year ==> HalfYearStart(cur))
    ensures var g := GridColumns(mode, ts, ppd, cur, end);
      var h := HeaderTicks(mode, ts, ppd, cur, end, last);
      |g| == |h| && forall k :: 0 <= k < |g| ==> g[k].date == h[k].date && g[k].x == h[k].x
    decreases end - cur
  {
    if cur <= end {
      StepsAdvance(mode, cur);
      StepsKeepAlignment(mode, cur);
      GridMatchesHeader(mode, ts, ppd, GridNext(mode, cur), end, Some(UpperKey(mode, cur)));
    }
  }

  /** The row lines drawGrid draws for the lines 0 to n - 1: the y of each line inside the viewport. */
  function RowLines(n: int, rh: int, vp: Viewport): seq<int>
    decreases n
  {
    if n <= 0 then []
    else RowLines(n - 1, rh, vp) + (if RowLineShown(n - 1, rh, vp) then [(n - 1) * rh] else [])
  }

  /** A row line is drawn at y exactly when y is a row boundary inside the viewport, and the lines run top to bottom. */
  lemma {:induction false} RowLinesExact(n: int, rh: int, vp: Viewport, y: int)
    requires rh > 0
    ensures y in RowLines(n, rh, vp) <==> exists i :: 0 <= i < n && y == i * rh && vp.scrollTop <= y <= vp.scrollTop + vp.height
    ensures var r := RowLines(n, rh, vp); forall k :: 0 <= k < |r| - 1 ==> r[k] < r[k + 1]
    ensures var r := RowLines(n, rh, vp); forall k :: 0 <= k < |r| ==> r[k] < n * rh
    decreases n
  {
    if n > 0 {
      RowLinesExact(n - 1, rh, vp, y);
      MulMonotone(n - 1, n, rh);
      assert n * rh == (n - 1) * rh + rh;
    }
  }

  /** drawToday: the marker's x, when it falls inside the viewport. */
  function TodayMarker(x: int, vp: Viewport): (r: Option<int>)
    ensures r.Some? <==> vp.scrollLeft <= x <= vp.scrollLeft + vp.width
    ensures r.Some? ==> r.value == x
  {
    if TodayShown(x, vp) then Some(x) else None
  }

  // ----- the task bars

  /** One task drawTask drew: its id, its row, and its two bars. */
  datatype TaskDraw = TaskDraw(id: string, row: int, actual: Bar, plan: Bar)

  /** The state of drawAllTasks: the cached positions, which drawTask writes into, and what has been drawn. */
  datatype Pass = Pass(positions: map<string, TaskPosition>, drawn: seq<TaskDraw>)

  /**
   * drawAllTasks on one task of row i: nothing without a position or when
   * both bars miss the viewport; otherwise its bars are drawn and the
   * shifted coordinates go back into the position shared by its id.
   */
  function TaskStep(ps: Pass, i: int, t: Task, vp: Viewport, s: BarStyle): Pass
  {
    if t.id !in ps.positions || !BarShown(ps.positions[t.id], vp) then ps
    else
      var d := DrawTask(ps.positions[t.id], t, s);
      Pass(ps.positions[t.id := d.pos], ps.drawn + [TaskDraw(t.id, i, d.actual, d.plan)])
  }

  /** drawAllTasks on the tasks of row i, in order. */
  function RowPass(ps: Pass, i: int, tasks: seq<Task>, vp: Viewport, s: BarStyle): Pass
    decreases |tasks|
  {
    if |tasks| == 0 then ps
    else TaskStep(RowPass(ps, i, tasks[..|tasks| - 1], vp, s), i, tasks[|tasks| - 1], vp, s)
  }

  /** drawAllTasks on the rows of data, skipping the rows outside the viewport. */
  function RowsPass(ps: Pass, data: GanttData, rh: int, vp: Viewport, s: BarStyle): Pass
    decreases |data|
  {
    if |data| == 0 then ps
    else
      var before := RowsPass(ps, data[..|data| - 1], rh, vp, s);
      if RowShown(|data| - 1, rh, vp) then RowPass(before, |data| - 1, data[|data| - 1].tasks, vp, s) else before
  }

  /** A row's pass keeps the positions' ids and only adds to what was drawn, each addition a task of that row. */
  lemma {:induction false} RowPassFacts(ps: Pass, i: int, tasks: seq<Task>, vp: Viewport, s: BarStyle)
    ensures var r := RowPass(ps, i, tasks, vp, s);
      && r.positions.Keys == ps.positions.Keys
      && |ps.drawn| <= |r.drawn| && r.drawn[..|ps.drawn|] == ps.drawn
      && forall k :: |ps.drawn| <= k < |r.drawn| ==> r.drawn[k].row == i && exists j :: 0 <= j < |tasks| && tasks[j].id == r.drawn[k].id
    decreases |tasks|
  {
    if |tasks| > 0 {
      var n := |tasks| - 1;
      var mid := RowPass(ps, i, tasks[..n], vp, s);
      RowPassFacts(ps, i, tasks[..n], vp, s);
      var r := TaskStep(mid, i, tasks[n], vp, s);
      forall k | |ps.drawn| <= k < |r.drawn|
        ensures r.drawn[k].row == i && exists j :: 0 <= j < |tasks| && tasks[j].id == r.drawn[k].id
      {
        if k < |mid.drawn| {
          assert r.drawn[k] == mid.drawn[k];
          var j :| 0 <= j < n && tasks[..n][j].id == mid.drawn[k].id;
          assert tasks[j] == tasks[..n][j];
        } else {
          assert r.drawn[k].id == tasks[n].id;
        }
      }
      assert r.drawn[..|ps.drawn|] == mid.drawn[..|ps.drawn|];
    }
  }

  /**
   * drawAllTasks keeps the positions' ids and only draws tasks of rows
   * inside the viewport, each drawn entry naming a task of its row.
   */
  lemma {:induction false} RowsPassFacts(ps: Pass, data: GanttData, rh: int, vp: Viewport, s: BarStyle)
    ensures var r := RowsPass(ps, data, rh, vp, s);
      && r.positions.Keys == ps.positions.Keys
      && |ps.drawn| <= |r.drawn| && r.drawn[..|ps.drawn|] == ps.drawn
      && forall k :: |ps.drawn| <= k < |r.drawn| ==>
           && 0 <= r.drawn[k].row < |data| && RowShown(r.drawn[k].row, rh, vp)
           && exists j :: 0 <= j < |data[r.drawn[k].row].tasks| && data[r.drawn[k].row].tasks[j].id == r.drawn[k].id
    decreases |data|
  {
    if |data| > 0 {
      var n := |data| - 1;
      var before := RowsPass(ps, data[..n], rh, vp, s);
      RowsPassFacts(ps, data[..n], rh, vp, s);
      if RowShown(n, rh, vp) {
        var r := RowPass(before, n, data[n].tasks, vp, s);
        RowPassFacts(before, n, data[n].tasks, vp, s);
        forall k | |ps.drawn| <= k < |r.drawn|
          ensures && 0 <= r.drawn[k].row < |data| && RowShown(r.drawn[k].row, rh, vp)
                  && exists j :: 0 <= j < |data[r.drawn[k].row].tasks| && data[r.drawn[k].row].tasks[j].id == r.drawn[k].id
        {
          if k < |before.drawn| {
            assert r.drawn[k] == r.drawn[..|before.drawn|][k];
            assert data[..n][before.drawn[k].row] == data[before.drawn[k].row];
          }
        }
        assert r.drawn[..|ps.drawn|] == r.drawn[..|before.drawn|][..|ps.drawn|];
      } else {
        forall k | |ps.drawn| <= k < |before.drawn|
          ensures data[..n][before.drawn[k].row] == data[before.drawn[k].row]
        {
        }
      }
    }
  }

  /** A style under which drawTask shifts nothing: outside the Day view, or for tasks without offset pairs. */
  predicate Neutral(t: Task, s: BarStyle)
  {
    OffsetPair(s.mode, t.actualOffsetPercent) == (0.0, 1.0) && OffsetPair(s.mode, t.planOffsetPercent) == (0.0, 1.0)
  }

  /** What drawAllTasks draws for the shown tasks of a row when nothing shifts, read off the positions alone. */
  function ShownInRow(positions: map<string, TaskPosition>, i: int, tasks: seq<Task>, vp: Viewport, s: BarStyle): seq<TaskDraw>
    decreases |tasks|
  {
    if |tasks| == 0 then []
    else
      var t := tasks[|tasks| - 1];
      ShownInRow(positions, i, tasks[..|tasks| - 1], vp, s) +
        (if t.id in positions && BarShown(positions[t.id], vp)
         then [TaskDraw(t.id, i, DrawTask(positions[t.id], t, s).actual, DrawTask(positions[t.id], t, s).plan)]
         else [])
  }

  /** The same over all rows inside the viewport. */
  function ShownTasks(positions: map<string, TaskPosition>, data: GanttData, rh: int, vp: Viewport, s: BarStyle): seq<TaskDraw>
    decreases |data|
  {
    if |data| == 0 then []
    else
      ShownTasks(positions, data[..|data| - 1], rh, vp, s) +
        (if RowShown(|data| - 1, rh, vp) then ShownInRow(positions, |data| - 1, data[|data| - 1].tasks, vp, s) else [])
  }

  predicate AllNeutral(data: GanttData, s: BarStyle)
  {
    forall i, j :: 0 <= i < |data| && 0 <= j < |data[i].tasks| ==> Neutral(data[i].tasks[j], s)
  }

  lemma {:induction false} RowPassNeutral(ps: Pass, i: int, tasks: seq<Task>, vp: Viewport, s: BarStyle)
    requires forall j :: 0 <= j < |tasks| ==> Neutral(tasks[j], s)
    ensures RowPass(ps, i, tasks, vp, s) == Pass(ps.positions, ps.drawn + ShownInRow(ps.positions, i, tasks, vp, s))
    decreases |tasks|
  {
    if |tasks| > 0 {
      var n := |tasks| - 1;
      assert forall j :: 0 <= j < n ==> tasks[..n][j] == tasks[j];
      RowPassNeutral(ps, i, tasks[..n], vp, s);
      var t := tasks[n];
      if t.id in ps.positions && BarShown(ps.positions[t.id], vp) {
        DrawTaskNeutral(ps.positions[t.id], t, s);
        assert ps.positions[t.id := ps.positions[t.id]] == ps.positions;
      }
    }
  }

  /**
   * When no task shifts (in particular outside the Day view), drawAllTasks
   * leaves the cached positions as they are and draws exactly the tasks
   * inside the viewport, row by row in order.
   */
  lemma {:induction false} RowsPassNeutral(ps: Pass, data: GanttData, rh: int, vp: Viewport, s: BarStyle)
    requires AllNeutral(data, s)
    ensures RowsPass(ps, data, rh, vp, s) == Pass(ps.positions, ps.drawn + ShownTasks(ps.positions, data, rh, vp, s))
    decreases |data|
  {
    if |data| > 0 {
      var n := |data| - 1;
      NeutralSplit(data, n, s);
      RowsPassNeutral(ps, data[..n], rh, vp, s);
      var before := RowsPass(ps, data[..n], rh, vp, s);
      var shown := ShownTasks(ps.positions, data[..n], rh, vp, s);
      if RowShown(n, rh, vp) {
        var row := ShownInRow(ps.positions, n, data[n].tasks, vp, s);
        RowPassNeutral(before, n, data[n].tasks, vp, s);
        assert (ps.drawn + shown) + row == ps.drawn + (shown + row);
      } else {
        assert shown + [] == shown;
      }
    }
  }

  /** No two tasks of the data share an id. */
  predicate UniqueIds(data: GanttData)
  {
    forall i1, j1, i2, j2 ::
      (0 <= i1 < |data| && 0 <= j1 < |data[i1].tasks| && 0 <= i2 < |data| && 0 <= j2 < |data[i2].tasks|
       && data[i1].tasks[j1].id == data[i2].tasks[j2].id) ==> i1 == i2 && j1 == j2
  }

  /** No two tasks of a row share an id. */
  predicate UniqueInRow(tasks: seq<Task>)
  {
    forall j, k :: 0 <= j < |tasks| && 0 <= k < |tasks| && tasks[j].id == tasks[k].id ==> j == k
  }

  /** What ShownInRow reads of the positions is the entries of the row's own ids. */
  lemma {:induction false} ShownInRowAgree(p1: map<string, TaskPosition>, p2: map<string, TaskPosition>, i: int, tasks: seq<Task>, vp: Viewport, s: BarStyle)
    requires forall j :: 0 <= j < |tasks| ==> (tasks[j].id in p1 <==> tasks[j].id in p2)
    requires forall j :: 0 <= j < |tasks| && tasks[j].id in p1 ==> p1[tasks[j].id] == p2[tasks[j].id]
    ensures ShownInRow(p1, i, tasks, vp, s) == ShownInRow(p2, i, tasks, vp, s)
    decreases |tasks|
  {
    if |tasks| > 0 {
      var n := |tasks| - 1;
      assert forall j :: 0 <= j < n ==> tasks[..n][j] == tasks[j];
      ShownInRowAgree(p1, p2, i, tasks[..n], vp, s);
    }
  }

  /** drawTask writes back only under the id it draws, so a row's pass keeps the positions of ids outside the row. */
  lemma {:induction false} RowPassKeeps(ps: Pass, i: int, tasks: seq<Task>, vp: Viewport, s: BarStyle, id: string)
    requires id in ps.positions && forall j :: 0 <= j < |tasks| ==> tasks[j].id != id
    ensures id in RowPass(ps, i, tasks, vp, s).positions && RowPass(ps, i, tasks, vp, s).positions[id] == ps.positions[id]
    decreases |tasks|
  {
    if |tasks| > 0 {
      var n := |tasks| - 1;
      assert forall j :: 0 <= j < n ==> tasks[..n][j] == tasks[j];
      RowPassKeeps(ps, i, tasks[..n], vp, s, id);
      assert tasks[n].id != id;
    }
  }

  /** The same over the rows: the positions of ids no task has are kept. */
  lemma {:induction false} RowsPassKeeps(ps: Pass, data: GanttData, rh: int, vp: Viewport, s: BarStyle, id: string)
    requires id in ps.positions && forall i, j :: 0 <= i < |data| && 0 <= j < |data[i].tasks| ==> data[i].tasks[j].id != id
    ensures id in RowsPass(ps, data, rh, vp, s).positions && RowsPass(ps, data, rh, vp, s).positions[id] == ps.positions[id]
    decreases |data|
  {
    if |data| > 0 {
      var n := |data| - 1;
      assert forall i :: 0 <= i < n ==> data[..n][i] == data[i];
      RowsPassKeeps(ps, data[..n], rh, vp, s, id);
      if RowShown(n, rh, vp) {
        RowPassKeeps(RowsPass(ps, data[..n], rh, vp, s), n, data[n].tasks, vp, s, id);
      }
    }
  }

  /**
   * With distinct ids in a row, each task is tested and drawn from the
   * position it had before the row's pass, so the row draws exactly its
   * shown tasks, Day-view shifts included.
   */
  lemma {:induction false} RowPassUnique(ps: Pass, i: int, tasks: seq<Task>, vp: Viewport, s: BarStyle)
    requires UniqueInRow(tasks)
    ensures RowPass(ps, i, tasks, vp, s).drawn == ps.drawn + ShownInRow(ps.positions, i, tasks, vp, s)
    decreases |tasks|
  {
    if |tasks| > 0 {
      var n := |tasks| - 1;
      var pre := tasks[..n];
      assert forall j :: 0 <= j < n ==> pre[j] == tasks[j];
      RowPassUnique(ps, i, pre, vp, s);
      RowPassFacts(ps, i, pre, vp, s);
      var mid := RowPass(ps, i, pre, vp, s);
      var t := tasks[n];
      assert forall j :: 0 <= j < n ==> pre[j].id != t.id;
      if t.id in ps.positions {
        RowPassKeeps(ps, i, pre, vp, s, t.id);
      }
      var shown := ShownInRow(ps.positions, i, pre, vp, s);
      if t.id in ps.positions && BarShown(ps.positions[t.id], vp) {
        var d := DrawTask(ps.positions[t.id], t, s);
        var last := [TaskDraw(t.id, i, d.actual, d.plan)];
        assert ShownInRow(ps.positions, i, tasks, vp, s) == shown + last;
        assert (ps.drawn + shown) + last == ps.drawn + (shown + last);
      } else {
        assert ShownInRow(ps.positions, i, tasks, vp, s) == shown + [] == shown;
      }
    }
  }

  /**
   * With distinct task ids, drawAllTasks draws exactly the tasks whose row
   * is inside the viewport and whose bars meet it, each from its cached
   * position, in row order; Day-view offset pairs shift only the bars drawn
   * and the positions written back.
   */
  lemma {:induction false} RowsPassUnique(ps: Pass, data: GanttData, rh: int, vp: Viewport, s: BarStyle)
    requires UniqueIds(data)
    ensures RowsPass(ps, data, rh, vp, s).drawn == ps.drawn + ShownTasks(ps.positions, data, rh, vp, s)
    decreases |data|
  {
    if |data| > 0 {
      var n := |data| - 1;
      var pre := data[..n];
      assert forall i :: 0 <= i < n ==> pre[i] == data[i];
      RowsPassUnique(ps, pre, rh, vp, s);
      RowsPassFacts(ps, pre, rh, vp, s);
      var before := RowsPass(ps, pre, rh, vp, s);
      var tasks := data[n].tasks;
      if RowShown(n, rh, vp) {
        assert UniqueInRow(tasks);
        forall j | 0 <= j < |tasks| && tasks[j].id in ps.positions
          ensures before.positions[tasks[j].id] == ps.positions[tasks[j].id]
        {
          RowsPassKeeps(ps, pre, rh, vp, s, tasks[j].id);
        }
        ShownInRowAgree(before.positions, ps.positions, n, tasks, vp, s);
        RowPassUnique(before, n, tasks, vp, s);
        var shown := ShownTasks(ps.positions, pre, rh, vp, s);
        var row := ShownInRow(ps.positions, n, tasks, vp, s);
        assert (ps.drawn + shown) + row == ps.drawn + (shown + row);
      } else {
        assert ShownTasks(ps.positions, pre, rh, vp, s) + [] == ShownTasks(ps.positions, pre, rh, vp, s);
      }
    }
  }

  /** The rows before the last and the last row's tasks are neutral when all are. */
  lemma NeutralSplit(data: GanttData, n: nat, s: BarStyle)
    requires AllNeutral(data, s) && n == |data| - 1
    ensures AllNeutral(data[..n], s)
    ensures forall j :: 0 <= j < |data[n].tasks| ==> Neutral(data[n].tasks[j], s)
  {
    assert forall i :: 0 <= i < n ==> data[..n][i] == data[i];
  }

  /** Outside the Day view every task is neutral. */
  lemma OtherViewsAreNeutral(data: GanttData, s: BarStyle)
    requires s.mode != Day
    ensures AllNeutral(data, s)
  {
    forall i, j | 0 <= i < |data| && 0 <= j < |data[i].tasks|
      ensures Neutral(data[i].tasks[j], s)
    {
      ViewOtherThanDayIsNeutral(s.mode, data[i].tasks[j].actualOffsetPercent);
      ViewOtherThanDayIsNeutral(s.mode, data[i].tasks[j].planOffsetPercent);
    }
  }

  // ----- a frame

  /** Everything one render draws. */
  datatype Frame = Frame(
    header: seq<HeaderTick>,
    rowLines: seq<int>,
    columns: seq<ColumnLine>,
    today: Option<int>,
    connectors: set<Route>,
    bars: seq<TaskDraw>)

  function EmptyFrame(): Frame
  {
    Frame([], [], [], None, {}, [])
  }
}
