/**
 * The GanttChart class of src/core/ganttChart.ts with its canvases replaced
 * by the frame it last drew: the layout state it keeps in fields, the
 * operations that update that state, and the draw lists render produces.
 */
module Gantt {
  import opened Wrappers
  import opened Calendar
  import opened DateUtils
  import opened GanttTypes
  import opened TaskIndex
  import opened Layout
  import opened Timeline
  import opened Render

  /** The positions calculateAllTaskPositions stores: one per indexed task, at that task's row. */
  function PositionsOf(m: map<string, TaskEntry>, ts: int, ppd: int, rh: int): (r: map<string, TaskPosition>)
    ensures r.Keys == m.Keys
    ensures forall id :: id in m ==> r[id].row == m[id].row && r[id].y == RowCenter(m[id].row, rh)
  {
    map id | id in m :: PositionOf(ts, ppd, rh, m[id].row, m[id].task)
  }

  /** Setting one index entry sets one position. */
  lemma PositionsOfUpdate(m: map<string, TaskEntry>, id: string, e: TaskEntry, ts: int, ppd: int, rh: int)
    ensures PositionsOf(m[id := e], ts, ppd, rh) == PositionsOf(m, ts, ppd, rh)[id := PositionOf(ts, ppd, rh, e.row, e.task)]
  {
  }

  /**
   * After calculateAllTaskPositions every task id of the data has a
   * position, and it is the position of the last task carrying that id, at
   * that task's row.
   */
  lemma PositionsAreOfLastOccurrence(data: GanttData, ts: int, ppd: int, rh: int, id: string)
    ensures id in PositionsOf(Index(data), ts, ppd, rh) <==>
      exists i, j :: 0 <= i < |data| && 0 <= j < |data[i].tasks| && data[i].tasks[j].id == id
    ensures id in PositionsOf(Index(data), ts, ppd, rh) ==>
      exists i, j :: && 0 <= i < |data| && 0 <= j < |data[i].tasks| && data[i].tasks[j].id == id
                     && PositionsOf(Index(data), ts, ppd, rh)[id] == PositionOf(ts, ppd, rh, i, data[i].tasks[j])
                     && (forall j' :: j < j' < |data[i].tasks| ==> data[i].tasks[j'].id != id)
                     && (forall i', j' :: i < i' < |data| && 0 <= j' < |data[i'].tasks| ==> data[i'].tasks[j'].id != id)
  {
    IndexIsLastOccurrence(data, id);
    if id in Index(data) {
      var e := Index(data)[id];
      var j :| && 0 <= j < |data[e.row].tasks| && data[e.row].tasks[j] == e.task
               && forall j' :: j < j' < |data[e.row].tasks| ==> data[e.row].tasks[j'].id != id;
      assert data[e.row].tasks[j].id == id;
    }
  }

  /** updateVirtualRanges widens the viewport by this many pixels on either side. */
  const VisibleBuffer: int := 200

  /** Every pixel column of the viewport maps to a date inside the visible range. */
  lemma VisibleRangeCoversViewport(ts: int, ppd: int, scrollLeft: int, width: int, x: int)
    requires ppd > 0 && scrollLeft <= x <= scrollLeft + width
    ensures XToDate(ts, ppd, scrollLeft - VisibleBuffer) <= XToDate(ts, ppd, x) <= XToDate(ts, ppd, scrollLeft + width + VisibleBuffer)
  {
    XToDateMonotone(ts, ppd, scrollLeft - VisibleBuffer, x);
    XToDateMonotone(ts, ppd, x, scrollLeft + width + VisibleBuffer);
  }

  /** The scroll area is as wide as the timeline's days: the last day's column ends at its right edge. */
  lemma TotalWidthFitsTimeline(ts: int, te: int, ppd: int)
    requires Rebuildable(ts) && Rebuildable(te)
    ensures (DiffDays(ts, te) + 1) * ppd == (te - ts + 1) * ppd
    ensures (DiffDays(ts, te) + 1) * ppd == DateToX(ts, ppd, te) + ppd
  {
    DiffDaysExact(ts, te);
  }

  /** The entry under id holds a task with that id. */
  lemma TaskIdOfEntry(data: GanttData, id: string)
    requires id in Index(data)
    ensures Index(data)[id].task.id == id
  {
    IndexIsLastOccurrence(data, id);
  }

  /** A task whose dependencies are empty, or which has no position, has no connectors. */
  lemma NoConnectors(index: map<string, TaskEntry>, positions: map<string, TaskPosition>, id: string, deps: seq<string>, rh: int)
    requires |deps| == 0 || id !in positions
    ensures TaskConnectors(index, positions, id, deps, rh) == {}
  {
    forall r | r in TaskConnectors(index, positions, id, deps, rh)
      ensures false
    {
      TaskConnectorsMembership(index, positions, id, deps, rh, r);
    }
  }

  /** The comparisons calculateFullTimeline makes for one task. */
  method FoldTask(lo0: int, hi0: int, t: Task) returns (lo: int, hi: int)
    ensures lo == FoldStart(lo0, t) && hi == FoldEnd(hi0, t)
  {
    lo, hi := lo0, hi0;
    if t.planStart.Some? && t.planStart.value < lo {
      lo := t.planStart.value;
    }
    if t.planEnd.Some? && t.planEnd.value > hi {
      hi := t.planEnd.value;
    }
    if t.actualStart.Some? {
      if t.actualStart.value < lo {
        lo := t.actualStart.value;
      }
      if t.actualEnd.Some? && t.actualEnd.value > hi {
        hi := t.actualEnd.value;
      }
    }
  }

  /** The loop of calculateFullTimeline over taskMap, starting from the two sentinels lo0 and hi0. */
  method FoldDates(m: map<string, TaskEntry>, lo0: int, hi0: int) returns (lo: int, hi: int)
    ensures EarliestOver(lo, lo0, m, m.Keys) && LatestOver(hi, hi0, m, m.Keys)
  {
    lo, hi := lo0, hi0;
    var keys := m.Keys;
    ghost var done: set<string> := {};
    while keys != {}
      invariant keys <= m.Keys && done == m.Keys - keys
      invariant EarliestOver(lo, lo0, m, done) && LatestOver(hi, hi0, m, done)
      decreases |keys|
    {
      var id :| id in keys;
      EarliestStep(lo, lo0, m, done, id);
      LatestStep(hi, hi0, m, done, id);
      lo, hi := FoldTask(lo, hi, m[id].task);
      done, keys := done + {id}, keys - {id};
    }
  }

  /** The fields of the chart that a render reads. */
  datatype Snapshot = Snapshot(
    data: GanttData,
    config: GanttConfig,
    today: int,
    timelineStart: int,
    pixelsPerDay: int,
    taskMap: map<string, TaskEntry>,
    view: Viewport,
    visibleStart: int,
    visibleEnd: int)

  /** The draw-time switches drawTask reads, with today's x. */
  function StyleOf(config: GanttConfig, ts: int, ppd: int, today: int): BarStyle
  {
    BarStyle(config.viewMode, config.showActual, config.showPlan, DateToX(ts, ppd, today) as real)
  }

  /** The date at which both column loops stop catching up: from the iteration start of the visible range's first date. */
  function FirstColumnOf(mode: ViewMode, ts: int, ppd: int, visibleStart: int, scrollLeft: int): int
    requires ppd > 0
  {
    Preroll(mode, ts, ppd, IterationStart(mode, visibleStart), PrerollBound(scrollLeft, ppd))
  }

  /** What a render of state s draws: the positions are recalculated first, so nothing drawn before carries over. */
  function FrameOf(s: Snapshot): Frame
    requires s.pixelsPerDay > 0
  {
    var c, ts, ppd := s.config, s.timelineStart, s.pixelsPerDay;
    var first := FirstColumnOf(c.viewMode, ts, ppd, s.visibleStart, s.view.scrollLeft);
    var positions := PositionsOf(s.taskMap, ts, ppd, c.rowHeight);
    Frame(
      HeaderTicks(c.viewMode, ts, ppd, first, s.visibleEnd, None),
      if c.showRowLines then RowLines(|s.data| + 1, c.rowHeight, s.view) else [],
      if c.showColLines then GridColumns(c.viewMode, ts, ppd, first, s.visibleEnd) else [],
      TodayMarker(DateToX(ts, ppd, s.today), s.view),
      Connectors(s.taskMap, positions, c.rowHeight),
      RowsPass(Pass(positions, []), s.data, c.rowHeight, s.view, StyleOf(c, ts, ppd, s.today)).drawn)
  }

  /** The positions a render of state s leaves: drawTask shifts those of the tasks it draws. */
  function PositionsAfter(s: Snapshot): map<string, TaskPosition>
  {
    var c := s.config;
    RowsPass(Pass(PositionsOf(s.taskMap, s.timelineStart, s.pixelsPerDay, c.rowHeight), []), s.data, c.rowHeight, s.view, StyleOf(c, s.timelineStart, s.pixelsPerDay, s.today)).positions
  }

  /** A frame and positions are what a render of s leaves. */
  predicate Rendered(s: Snapshot, frame: Frame, positions: map<string, TaskPosition>)
  {
    s.pixelsPerDay > 0 && frame == FrameOf(s) && positions == PositionsAfter(s)
  }

  /** The fields of the chart that neither updateDimensions nor render writes. */
  datatype ChartInputs = ChartInputs(
    data: GanttData,
    config: GanttConfig,
    today: int,
    timelineStart: int,
    timelineEnd: int,
    minDate: Option<int>,
    maxDate: Option<int>,
    pixelsPerDay: int,
    scrollLeft: int,
    scrollTop: int,
    viewportWidth: int,
    viewportHeight: int,
    taskMap: map<string, TaskEntry>,
    hoverEnabled: bool)

  /** What the pointer over the task canvas shows: no listeners, a hidden tooltip, or the tooltip for a row and a day. */
  datatype Hover = NotListening | Hidden | Tooltip(row: int, date: int, tasks: seq<Task>)

  class GanttChart {
    var data: GanttData
    var config: GanttConfig
    /** The day the chart was created, as this.today (time of day dropped). */
    var today: int
    var timelineStart: int
    var timelineEnd: int
    var minDate: Option<int>
    var maxDate: Option<int>
    var pixelsPerDay: int
    var scrollLeft: int
    var scrollTop: int
    /** visibleDateRange.start and visibleDateRange.end. */
    var visibleStart: int
    var visibleEnd: int
    var viewportWidth: int
    var viewportHeight: int
    var totalWidth: int
    var totalHeight: int
    var taskMap: map<string, TaskEntry>
    var taskPositions: map<string, TaskPosition>
    /** Whether the mouse listeners were attached, which setupEvents decides once from showTooltip. */
    var hoverEnabled: bool
    /** What the last render drew on the two canvases. */
    var frame: Frame

    /** The configuration can be divided by, and the task index belongs to the data. */
    predicate Valid()
      reads this`config, this`pixelsPerDay, this`taskMap, this`data
    {
      ValidConfig(config) && pixelsPerDay > 0 && taskMap == Index(data)
    }

    /** buildTaskMap: every task of every row, in order, under its id. */
    method BuildTaskMap()
      modifies this`taskMap
      ensures taskMap == Index(data)
    {
      var m: map<string, TaskEntry> := map[];
      for i := 0 to |data|
        invariant m == Index(data[..i])
      {
        var tasks := data[i].tasks;
        for j := 0 to |tasks|
          invariant m == AddRowTasks(Index(data[..i]), tasks[..j], i)
        {
          assert tasks[..j + 1][..j] == tasks[..j];
          m := m[tasks[j].id := TaskEntry(i, tasks[j])];
        }
        assert tasks[..|tasks|] == tasks;
        assert data[..i + 1][..i] == data[..i];
      }
      assert data[..|data|] == data;
      taskMap := m;
    }

    /**
     * calculateFullTimeline: the earliest start and the latest end over the
     * indexed tasks (or now and 60 days later without rows), stored as
     * minDate and maxDate, then buffered and snapped to the view mode.
     */
    method CalculateFullTimeline(now: int)
      modifies this`minDate, this`maxDate, this`timelineStart, this`timelineEnd
      ensures minDate == Some(FullSpan(data, taskMap, now).0) && maxDate == Some(FullSpan(data, taskMap, now).1)
      ensures timelineStart == SnapStart(config.viewMode, BufferedStart(minDate.value, today))
      ensures timelineEnd == SnapEnd(config.viewMode, BufferedEnd(maxDate.value, today))
    {
      var lo, hi;
      if |data| == 0 {
        lo, hi := now, AddDays(now, 60);
      } else {
        lo, hi := FoldDates(taskMap, MinSentinel(), MaxSentinel());
        FullSpanIsRange(data, taskMap, now);
        FoldsAreUnique(lo, FullSpan(data, taskMap, now).0, hi, FullSpan(data, taskMap, now).1, taskMap);
      }
      var start := SnapStart(config.viewMode, BufferedStart(lo, today));
      var end := SnapEnd(config.viewMode, BufferedEnd(hi, today));
      minDate, maxDate, timelineStart, timelineEnd := Some(lo), Some(hi), start, end;
    }

    /** buildTaskMap then calculateFullTimeline, as init and setData call them: the index of the rows and the range over it. */
    method Bound(now: int)
      modifies this`taskMap, this`minDate, this`maxDate, this`timelineStart, this`timelineEnd
      ensures var span := FullSpan(data, Index(data), now);
        Inputs() == old(Inputs()).(taskMap := Index(data), minDate := Some(span.0), maxDate := Some(span.1),
          timelineStart := SnapStart(config.viewMode, BufferedStart(span.0, today)),
          timelineEnd := SnapEnd(config.viewMode, BufferedEnd(span.1, today)))
    {
      BuildTaskMap();
      ghost var mid := Inputs();
      CalculateFullTimeline(now);
      assert Inputs() == mid.(minDate := minDate, maxDate := maxDate, timelineStart := timelineStart, timelineEnd := timelineEnd);
    }

    /** updatePixelsPerDay: the view mode's factor. */
    method UpdatePixelsPerDay()
      modifies this`pixelsPerDay
      ensures pixelsPerDay == Factor(config.viewFactors, config.viewMode)
    {
      pixelsPerDay := Factor(config.viewFactors, config.viewMode);
    }

    /** The scroll area spans every day of the timeline and every row below the header. */
    predicate Dimensioned()
      reads this`totalWidth, this`totalHeight, this`timelineStart, this`timelineEnd, this`pixelsPerDay, this`data, this`config
    {
      totalWidth == (DiffDays(timelineStart, timelineEnd) + 1) * pixelsPerDay
      && totalHeight == |data| * config.rowHeight + config.headerHeight
    }

    /** updateDimensions: sets the scroll area's size, writing it only when it differs. */
    method UpdateDimensions()
      modifies this`totalWidth, this`totalHeight
      ensures Dimensioned()
    {
      var newWidth := (DiffDays(timelineStart, timelineEnd) + 1) * pixelsPerDay;
      var newHeight := |data| * config.rowHeight + config.headerHeight;
      if totalWidth != newWidth || totalHeight != newHeight {
        totalWidth, totalHeight := newWidth, newHeight;
      }
    }

    /** The visible range is the one the current scroll offset and viewport width give. */
    predicate VisibleRangeCurrent()
      requires pixelsPerDay > 0
      reads this`visibleStart, this`visibleEnd, this`timelineStart, this`pixelsPerDay, this`scrollLeft, this`viewportWidth
    {
      visibleStart == XToDate(timelineStart, pixelsPerDay, scrollLeft - VisibleBuffer)
      && visibleEnd == XToDate(timelineStart, pixelsPerDay, scrollLeft + viewportWidth + VisibleBuffer)
    }

    /** updateVirtualRanges: the dates under the viewport widened by VisibleBuffer pixels on each side. */
    method UpdateVirtualRanges()
      requires pixelsPerDay > 0
      modifies this`visibleStart, this`visibleEnd
      ensures VisibleRangeCurrent()
    {
      visibleStart := XToDate(timelineStart, pixelsPerDay, scrollLeft - VisibleBuffer);
      visibleEnd := XToDate(timelineStart, pixelsPerDay, scrollLeft + viewportWidth + VisibleBuffer);
    }

    /** calculateAllTaskPositions: the position of every task, row by row, under its id. */
    method CalculateAllTaskPositions()
      requires Valid()
      modifies this`taskPositions
      ensures Inputs() == old(Inputs())
      ensures taskPositions == PositionsOf(taskMap, timelineStart, pixelsPerDay, config.rowHeight)
    {
      var ts, ppd, rh := timelineStart, pixelsPerDay, config.rowHeight;
      var ps: map<string, TaskPosition> := map[];
      for i := 0 to |data|
        invariant ps == PositionsOf(Index(data[..i]), ts, ppd, rh)
      {
        var tasks := data[i].tasks;
        for j := 0 to |tasks|
          invariant ps == PositionsOf(AddRowTasks(Index(data[..i]), tasks[..j], i), ts, ppd, rh)
        {
          assert tasks[..j + 1][..j] == tasks[..j];
          PositionsOfUpdate(AddRowTasks(Index(data[..i]), tasks[..j], i), tasks[j].id, TaskEntry(i, tasks[j]), ts, ppd, rh);
          ps := ps[tasks[j].id := PositionOf(ts, ppd, rh, i, tasks[j])];
        }
        assert tasks[..|tasks|] == tasks;
        assert data[..i + 1][..i] == data[..i];
      }
      assert data[..|data|] == data;
      taskPositions := ps;
    }

    /** The scroll offsets and the size of the viewport. */
    function View(): Viewport
      reads this`scrollLeft, this`scrollTop, this`viewportWidth, this`viewportHeight
    {
      Viewport(scrollLeft, scrollTop, viewportWidth, viewportHeight)
    }

    /** The draw-time switches drawTask reads, with today's x. */
    function Style(): BarStyle
      reads this`config, this`timelineStart, this`pixelsPerDay, this`today
    {
      StyleOf(config, timelineStart, pixelsPerDay, today)
    }

    /** The date at which both column loops stop catching up: from the iteration start of the visible range's first date. */
    function FirstColumn(): int
      requires pixelsPerDay > 0
      reads this`config, this`timelineStart, this`pixelsPerDay, this`visibleStart, this`scrollLeft
    {
      FirstColumnOf(config.viewMode, timelineStart, pixelsPerDay, visibleStart, scrollLeft)
    }

    /** The catch-up loop of renderHeader, with its guard against a step that does not move. */
    method HeaderPreroll(start: int) returns (cur: int)
      requires pixelsPerDay > 0
      ensures cur == Preroll(config.viewMode, timelineStart, pixelsPerDay, start, PrerollBound(scrollLeft, pixelsPerDay))
    {
      var mode, ts, ppd := config.viewMode, timelineStart, pixelsPerDay;
      var bound := PrerollBound(scrollLeft, ppd);
      cur := start;
      while DateToX(ts, ppd, cur) < bound
        invariant Preroll(mode, ts, ppd, cur, bound) == Preroll(mode, ts, ppd, start, bound)
        decreases PrerollPhase(cur), PrerollRank(ts, ppd, cur, bound)
      {
        PrerollProgress(mode, ts, ppd, cur, bound);
        StepsAdvance(mode, cur);
        var next := PrerollStep(mode, cur);
        cur := Advance(cur, next);
      }
    }

    /** The main loop of renderHeader: one column per step up to the visible range's last date. */
    method HeaderColumns(start: int) returns (ticks: seq<HeaderTick>)
      ensures ticks == HeaderTicks(config.viewMode, timelineStart, pixelsPerDay, start, visibleEnd, None)
    {
      var mode, ts, ppd, end := config.viewMode, timelineStart, pixelsPerDay, visibleEnd;
      var cur := start;
      var last: Option<int> := None;
      ticks := [];
      while cur <= end
        invariant ticks + HeaderTicks(mode, ts, ppd, cur, end, last) == HeaderTicks(mode, ts, ppd, start, end, None)
        decreases end - cur
      {
        if mode == Year && !HalfYearStart(cur) {
          HeaderTicksSkip(ts, ppd, cur, end, last);
          AddDaysShifts(cur, 1);
          cur := AddDays(cur, 1);
          continue;
        }
        var x := DateToX(ts, ppd, cur);
        var key := UpperKey(mode, cur);
        var next := HeaderNext(mode, cur);
        var drawUpper := last != Some(key);
        var tick := HeaderTick(cur, next, x, DateToX(ts, ppd, next) - x, key, drawUpper);
        HeaderTicksCons(mode, ts, ppd, cur, end, last);
        ghost var rest := HeaderTicks(mode, ts, ppd, Advance(cur, next), end, Some(key));
        assert ticks + ([tick] + rest) == (ticks + [tick]) + rest;
        if drawUpper {
          last := Some(key);
        }
        ticks := ticks + [tick];
        StepsAdvance(mode, cur);
        cur := Advance(cur, next);
      }
    }

    /** renderHeader: the columns from the first date the catch-up loop reaches. */
    method RenderHeader() returns (ticks: seq<HeaderTick>)
      requires pixelsPerDay > 0
      ensures ticks == HeaderTicks(config.viewMode, timelineStart, pixelsPerDay, FirstColumn(), visibleEnd, None)
    {
      var cur := IterationStart(config.viewMode, visibleStart);
      cur := HeaderPreroll(cur);
      ticks := HeaderColumns(cur);
    }

    /** The catch-up loop of drawGrid, which has no guard. */
    method GridPreroll(start: int) returns (cur: int)
      requires pixelsPerDay > 0
      ensures cur == Preroll(config.viewMode, timelineStart, pixelsPerDay, start, PrerollBound(scrollLeft, pixelsPerDay))
    {
      var mode, ts, ppd := config.viewMode, timelineStart, pixelsPerDay;
      var bound := PrerollBound(scrollLeft, ppd);
      cur := start;
      while DateToX(ts, ppd, cur) < bound
        invariant Preroll(mode, ts, ppd, cur, bound) == Preroll(mode, ts, ppd, start, bound)
        decreases PrerollPhase(cur), PrerollRank(ts, ppd, cur, bound)
      {
        PrerollProgress(mode, ts, ppd, cur, bound);
        cur := PrerollStep(mode, cur);
      }
    }

    /** The row lines of drawGrid: the top of every row and the bottom of the last, where inside the viewport. */
    method RowLineYs() returns (rows: seq<int>)
      ensures rows == RowLines(|data| + 1, config.rowHeight, View())
    {
      var rh, vp := config.rowHeight, View();
      rows := [];
      for i := 0 to |data| + 1
        invariant rows == RowLines(i, rh, vp)
      {
        if RowLineShown(i, rh, vp) {
          rows := rows + [i * rh];
        }
      }
    }

    /** The main column loop of drawGrid, from start up to the visible range's last date. */
    method GridColumnLines(start: int) returns (columns: seq<ColumnLine>)
      ensures columns == GridColumns(config.viewMode, timelineStart, pixelsPerDay, start, visibleEnd)
    {
      var mode, ts, ppd, end := config.viewMode, timelineStart, pixelsPerDay, visibleEnd;
      var cur := start;
      columns := [];
      while cur <= end
        invariant columns + GridColumns(mode, ts, ppd, cur, end) == GridColumns(mode, ts, ppd, start, end)
        decreases end - cur
      {
        GridColumnsUnfold(mode, ts, ppd, cur, end);
        columns := columns + [ColumnLine(cur, DateToX(ts, ppd, cur))];
        StepsAdvance(mode, cur);
        var next := GridNext(mode, cur);
        cur := Advance(cur, next);
      }
    }

    /** drawGrid: the row lines inside the viewport, then the column lines from the catch-up date to the visible range's last date. */
    method DrawGrid() returns (rows: seq<int>, columns: seq<ColumnLine>)
      requires pixelsPerDay > 0
      ensures rows == (if config.showRowLines then RowLines(|data| + 1, config.rowHeight, View()) else [])
      ensures columns == (if config.showColLines then GridColumns(config.viewMode, timelineStart, pixelsPerDay, FirstColumn(), visibleEnd) else [])
    {
      rows, columns := [], [];
      if config.showRowLines {
        rows := RowLineYs();
      }
      if config.showColLines {
        var cur := IterationStart(config.viewMode, visibleStart);
        cur := GridPreroll(cur);
        columns := GridColumnLines(cur);
      }
    }

    /** drawToday: the marker at today's x, when it is inside the viewport. */
    method DrawToday() returns (marker: Option<int>)
      ensures marker == TodayMarker(DateToX(timelineStart, pixelsPerDay, today), View())
    {
      var x := DateToX(timelineStart, pixelsPerDay, today);
      marker := None;
      if x >= scrollLeft && x <= scrollLeft + viewportWidth {
        marker := Some(x);
      }
    }

    /** The inner loop of drawAllDependencies: a connector into task id from each of its dependencies with a position. */
    method TaskConnectorsInto(id: string, deps: seq<string>) returns (acc: set<Route>)
      requires id in taskMap && id in taskPositions && taskPositions.Keys == taskMap.Keys
      ensures acc == TaskConnectors(taskMap, taskPositions, id, deps, config.rowHeight)
    {
      var rh := config.rowHeight;
      var toPos := taskPositions[id];
      var toRow := taskMap[id].row;
      acc := {};
      for k := 0 to |deps|
        invariant acc == TaskConnectors(taskMap, taskPositions, id, deps[..k], rh)
      {
        assert deps[..k + 1][..k] == deps[..k];
        var depId := deps[k];
        if depId in taskPositions {
          var r := ConnectorRoute(taskPositions[depId], toPos, taskMap[depId].row, toRow, rh);
          if r.Some? {
            acc := acc + {r.value};
          }
        }
      }
      assert deps[..|deps|] == deps;
    }

    /** The forEach callback of drawAllDependencies: nothing for a task without dependencies or position, else its connectors. */
    method DependenciesOf(id: string) returns (acc: set<Route>)
      requires Valid() && id in taskMap && taskPositions.Keys == taskMap.Keys
      ensures acc == TaskConnectors(taskMap, taskPositions, id, taskMap[id].task.dependencies, config.rowHeight)
    {
      var task := taskMap[id].task;
      TaskIdOfEntry(data, id);
      if |task.dependencies| > 0 && task.id in taskPositions {
        acc := TaskConnectorsInto(task.id, task.dependencies);
      } else {
        NoConnectors(taskMap, taskPositions, id, task.dependencies, config.rowHeight);
        acc := {};
      }
    }

    /** drawAllDependencies: for every indexed task, a connector from each dependency with a position. */
    method DrawAllDependencies() returns (routes: set<Route>)
      requires Valid() && taskPositions.Keys == taskMap.Keys
      ensures routes == Connectors(taskMap, taskPositions, config.rowHeight)
    {
      var m, ps, rh := taskMap, taskPositions, config.rowHeight;
      var keys := m.Keys;
      ghost var done: set<string> := {};
      routes := {};
      while keys != {}
        invariant keys <= m.Keys && done == m.Keys - keys
        invariant routes == ConnectorsOver(m, ps, rh, done)
        decreases |keys|
      {
        var id :| id in keys;
        var acc := DependenciesOf(id);
        ConnectorsOverAdd(m, ps, rh, done, id);
        routes := routes + acc;
        done, keys := done + {id}, keys - {id};
      }
    }

    /** drawAllTasks: the rows inside the viewport, each task with a bar inside it drawn, in the Day view with its position shifted. */
    method DrawAllTasks() returns (bars: seq<TaskDraw>)
      modifies this`taskPositions
      ensures var r := RowsPass(Pass(old(taskPositions), []), data, config.rowHeight, View(), Style());
        taskPositions == r.positions && bars == r.drawn
    {
      var rh, vp, s := config.rowHeight, View(), Style();
      ghost var start := Pass(taskPositions, []);
      var ps := taskPositions;
      bars := [];
      for i := 0 to |data|
        invariant Pass(ps, bars) == RowsPass(start, data[..i], rh, vp, s)
      {
        assert data[..i + 1][..i] == data[..i];
        if !RowShown(i, rh, vp) {
          continue;
        }
        var tasks := data[i].tasks;
        ghost var before := Pass(ps, bars);
        for j := 0 to |tasks|
          invariant Pass(ps, bars) == RowPass(before, i, tasks[..j], vp, s)
        {
          assert tasks[..j + 1][..j] == tasks[..j];
          var task := tasks[j];
          if task.id in ps {
            var pos := ps[task.id];
            if !(PlanOutside(pos, vp) && ActualOutside(pos, vp)) {
              var d := DrawTask(pos, task, s);
              ps := ps[task.id := d.pos];
              bars := bars + [TaskDraw(task.id, i, d.actual, d.plan)];
            }
          }
        }
        assert tasks[..|tasks|] == tasks;
      }
      assert data[..|data|] == data;
      taskPositions := ps;
    }

    /** The fields a refresh leaves alone. */
    function Inputs(): ChartInputs
      reads this`data, this`config, this`today, this`timelineStart, this`timelineEnd, this`minDate, this`maxDate, this`pixelsPerDay
      reads this`scrollLeft, this`scrollTop, this`viewportWidth, this`viewportHeight, this`taskMap, this`hoverEnabled
    {
      ChartInputs(data, config, today, timelineStart, timelineEnd, minDate, maxDate, pixelsPerDay,
        scrollLeft, scrollTop, viewportWidth, viewportHeight, taskMap, hoverEnabled)
    }

    /** The fields a render reads. */
    function Snap(): Snapshot
      reads this`data, this`config, this`today, this`timelineStart, this`pixelsPerDay, this`taskMap
      reads this`scrollLeft, this`scrollTop, this`viewportWidth, this`viewportHeight, this`visibleStart, this`visibleEnd
    {
      Snapshot(data, config, today, timelineStart, pixelsPerDay, taskMap, View(), visibleStart, visibleEnd)
    }

    /** renderMain: the grid, the today marker, the connectors and the bars, in that order, so connectors use the positions before drawTask shifts them. */
    method RenderMain() returns (rows: seq<int>, columns: seq<ColumnLine>, marker: Option<int>, routes: set<Route>, bars: seq<TaskDraw>)
      requires Valid() && taskPositions.Keys == taskMap.Keys
      modifies this`taskPositions
      ensures Inputs() == old(Inputs())
      ensures rows == (if config.showRowLines then RowLines(|data| + 1, config.rowHeight, View()) else [])
      ensures columns == (if config.showColLines then GridColumns(config.viewMode, timelineStart, pixelsPerDay, FirstColumn(), visibleEnd) else [])
      ensures marker == TodayMarker(DateToX(timelineStart, pixelsPerDay, today), View())
      ensures routes == Connectors(taskMap, old(taskPositions), config.rowHeight)
      ensures var r := RowsPass(Pass(old(taskPositions), []), data, config.rowHeight, View(), Style());
        taskPositions == r.positions && bars == r.drawn
    {
      rows, columns := DrawGrid();
      marker := DrawToday();
      routes := DrawAllDependencies();
      bars := DrawAllTasks();
    }

    /** The drawing half of render: positions, header, grid, today, connectors, bars; the frame depends on the current state alone. */
    method Redraw()
      requires Valid()
      modifies this`taskPositions, this`frame
      ensures Inputs() == old(Inputs())
      ensures Rendered(Snap(), frame, taskPositions)
    {
      CalculateAllTaskPositions();
      var header := RenderHeader();
      var rows, columns, marker, routes, bars := RenderMain();
      frame := Frame(header, rows, columns, marker, routes, bars);
    }

    /** render: the visible range first, then the drawing. */
    method Render()
      requires Valid()
      modifies this`visibleStart, this`visibleEnd, this`taskPositions, this`frame
      ensures Inputs() == old(Inputs())
      ensures VisibleRangeCurrent()
      ensures Rendered(Snap(), frame, taskPositions)
    {
      UpdateVirtualRanges();
      label ranged:
      Redraw();
      assert unchanged@ranged(this`visibleStart, this`visibleEnd, this`timelineStart, this`pixelsPerDay, this`scrollLeft, this`viewportWidth);
    }

    /** What every public operation leaves besides the drawing: a consistent state, the scroll area sized, the visible range current. */
    predicate Settled()
      reads this`config, this`pixelsPerDay, this`taskMap, this`data, this`totalWidth, this`totalHeight, this`timelineStart, this`timelineEnd
      reads this`visibleStart, this`visibleEnd, this`scrollLeft, this`viewportWidth
    {
      Valid() && Dimensioned() && VisibleRangeCurrent()
    }

    /** updateDimensions then render, as every public operation ends. */
    method Refresh()
      requires Valid()
      modifies this`totalWidth, this`totalHeight, this`visibleStart, this`visibleEnd, this`taskPositions, this`frame
      ensures Inputs() == old(Inputs())
      ensures Settled() && Rendered(Snap(), frame, taskPositions)
    {
      UpdateDimensions();
      RenderSized();
    }

    /** A render once the scroll area is sized. */
    method RenderSized()
      requires Valid() && Dimensioned()
      modifies this`visibleStart, this`visibleEnd, this`taskPositions, this`frame
      ensures Inputs() == old(Inputs())
      ensures Settled() && Rendered(Snap(), frame, taskPositions)
    {
      label sized:
      Render();
      SizeKept@sized();
    }

    /** Drawing leaves the task index, the configuration and the scroll area's size as they were. */
    twostate lemma SizeKept()
      requires old(Valid() && Dimensioned())
      requires unchanged(this`totalWidth, this`totalHeight, this`timelineStart, this`timelineEnd, this`pixelsPerDay, this`data, this`config, this`taskMap)
      ensures Valid() && Dimensioned()
    {
    }

    /**
     * The constructor and init: the defaults overridden by the caller's configuration,
     * today as the creation day, then the task index, the timeline, the scale, the
     * listeners and a first resize to the container's client size.
     */
    constructor (data0: GanttData, update: ConfigUpdate, now: int, clientWidth: int, clientHeight: int)
      requires ValidConfig(ApplyUpdate(DefaultConfig(), update))
      ensures data == data0 && config == ApplyUpdate(DefaultConfig(), update) && today == now
      ensures scrollLeft == 0 && scrollTop == 0
      ensures viewportWidth == clientWidth && viewportHeight == clientHeight
      ensures hoverEnabled == config.showTooltip
      ensures taskMap == Index(data)
      ensures minDate == Some(FullSpan(data, taskMap, now).0) && maxDate == Some(FullSpan(data, taskMap, now).1)
      ensures timelineStart == SnapStart(config.viewMode, BufferedStart(minDate.value, today))
      ensures timelineEnd == SnapEnd(config.viewMode, BufferedEnd(maxDate.value, today))
      ensures pixelsPerDay == Factor(config.viewFactors, config.viewMode)
      ensures Settled() && Rendered(Snap(), frame, taskPositions)
    {
      data := data0;
      config := ApplyUpdate(DefaultConfig(), update);
      today := now;
      timelineStart, timelineEnd := now, now;
      minDate, maxDate := None, None;
      pixelsPerDay := 40;
      scrollLeft, scrollTop := 0, 0;
      visibleStart, visibleEnd := now, now;
      viewportWidth, viewportHeight := 0, 0;
      totalWidth, totalHeight := 0, 0;
      taskMap, taskPositions := map[], map[];
      hoverEnabled := false;
      frame := EmptyFrame();
      new;
      Init(now, clientWidth, clientHeight);
    }

    /** init: the index, the timeline, the scale and the listeners, then the first resize. */
    method Init(now: int, clientWidth: int, clientHeight: int)
      requires ValidConfig(config)
      modifies this`taskMap, this`minDate, this`maxDate, this`timelineStart, this`timelineEnd, this`pixelsPerDay, this`hoverEnabled
      modifies this`viewportWidth, this`viewportHeight
      modifies this`totalWidth, this`totalHeight, this`visibleStart, this`visibleEnd, this`taskPositions, this`frame
      ensures data == old(data) && config == old(config) && today == old(today)
      ensures scrollLeft == old(scrollLeft) && scrollTop == old(scrollTop)
      ensures viewportWidth == clientWidth && viewportHeight == clientHeight
      ensures hoverEnabled == config.showTooltip
      ensures taskMap == Index(data)
      ensures minDate == Some(FullSpan(data, taskMap, now).0) && maxDate == Some(FullSpan(data, taskMap, now).1)
      ensures timelineStart == SnapStart(config.viewMode, BufferedStart(minDate.value, today))
      ensures timelineEnd == SnapEnd(config.viewMode, BufferedEnd(maxDate.value, today))
      ensures pixelsPerDay == Factor(config.viewFactors, config.viewMode)
      ensures Settled() && Rendered(Snap(), frame, taskPositions)
    {
      Prepare(now);
      ghost var mid := Inputs();
      HandleResize(clientWidth, clientHeight);
      assert Inputs() == mid.(viewportWidth := clientWidth, viewportHeight := clientHeight);
    }

    /** The steps of init before the first resize; setupEvents attaches the pointer listeners only for the built-in tooltip. */
    method Prepare(now: int)
      requires ValidConfig(config)
      modifies this`taskMap, this`minDate, this`maxDate, this`timelineStart, this`timelineEnd, this`pixelsPerDay, this`hoverEnabled
      ensures hoverEnabled == config.showTooltip
      ensures taskMap == Index(data)
      ensures minDate == Some(FullSpan(data, taskMap, now).0) && maxDate == Some(FullSpan(data, taskMap, now).1)
      ensures timelineStart == SnapStart(config.viewMode, BufferedStart(minDate.value, today))
      ensures timelineEnd == SnapEnd(config.viewMode, BufferedEnd(maxDate.value, today))
      ensures pixelsPerDay == Factor(config.viewFactors, config.viewMode)
      ensures Valid()
    {
      Bound(now);
      ghost var mid := Inputs();
      UpdatePixelsPerDay();
      hoverEnabled := config.showTooltip;
      assert Inputs() == mid.(pixelsPerDay := pixelsPerDay, hoverEnabled := hoverEnabled);
      assert data == mid.data && taskMap == mid.taskMap && config == mid.config && today == mid.today;
      assert minDate == mid.minDate && maxDate == mid.maxDate;
      assert timelineStart == mid.timelineStart && timelineEnd == mid.timelineEnd;
    }

    /** handleResize: the viewport takes the container's client size, then the chart is refreshed. */
    method HandleResize(clientWidth: int, clientHeight: int)
      requires Valid()
      modifies this`viewportWidth, this`viewportHeight
      modifies this`totalWidth, this`totalHeight, this`visibleStart, this`visibleEnd, this`taskPositions, this`frame
      ensures Inputs() == old(Inputs()).(viewportWidth := clientWidth, viewportHeight := clientHeight)
      ensures Settled() && Rendered(Snap(), frame, taskPositions)
    {
      viewportWidth, viewportHeight := clientWidth, clientHeight;
      Refresh();
    }

    /** handleScroll: the new offsets, then a render (the animation frame is taken to come right after). */
    method HandleScroll(left: int, top: int)
      requires Settled()
      modifies this`scrollLeft, this`scrollTop, this`visibleStart, this`visibleEnd, this`taskPositions, this`frame
      ensures scrollLeft == left && scrollTop == top
      ensures Settled() && Rendered(Snap(), frame, taskPositions)
    {
      scrollLeft, scrollTop := left, top;
      RenderSized();
    }

    /**
     * updateConfig: the given options replace the current ones; a new view mode
     * scrolls back to the left edge and takes its scale, but the timeline is not
     * recomputed for it.
     */
    method UpdateConfig(u: ConfigUpdate)
      requires Valid() && ValidConfig(ApplyUpdate(config, u))
      modifies this`config, this`scrollLeft, this`pixelsPerDay
      modifies this`totalWidth, this`totalHeight, this`visibleStart, this`visibleEnd, this`taskPositions, this`frame
      ensures var c := ApplyUpdate(old(config), u);
        Inputs() == old(Inputs()).(config := c,
          scrollLeft := if u.viewMode.Some? then 0 else old(scrollLeft),
          pixelsPerDay := if u.viewMode.Some? then Factor(c.viewFactors, c.viewMode) else old(pixelsPerDay))
      ensures Settled() && Rendered(Snap(), frame, taskPositions)
    {
      ApplyOptions(u);
      Refresh();
    }

    /** The part of updateConfig before its refresh: the merged options, and for a new view mode the left edge and its scale. */
    method ApplyOptions(u: ConfigUpdate)
      requires Valid() && ValidConfig(ApplyUpdate(config, u))
      modifies this`config, this`scrollLeft, this`pixelsPerDay
      ensures var c := ApplyUpdate(old(config), u);
        Inputs() == old(Inputs()).(config := c,
          scrollLeft := if u.viewMode.Some? then 0 else old(scrollLeft),
          pixelsPerDay := if u.viewMode.Some? then Factor(c.viewFactors, c.viewMode) else old(pixelsPerDay))
      ensures Valid()
    {
      config := ApplyUpdate(config, u);
      if u.viewMode.Some? {
        scrollLeft := 0;
        UpdatePixelsPerDay();
      }
    }

    /**
     * setData: the new rows and their index; with options, updateConfig alone
     * follows (the timeline keeps the old data's range), otherwise the timeline
     * is recomputed from the new rows before the refresh.
     */
    method SetData(newData: GanttData, u: Option<ConfigUpdate>, now: int)
      requires Valid()
      requires u.Some? ==> ValidConfig(ApplyUpdate(config, u.value))
      modifies this`data, this`taskMap, this`config, this`scrollLeft, this`pixelsPerDay
      modifies this`minDate, this`maxDate, this`timelineStart, this`timelineEnd
      modifies this`totalWidth, this`totalHeight, this`visibleStart, this`visibleEnd, this`taskPositions, this`frame
      ensures u.Some? ==> var c := ApplyUpdate(old(config), u.value);
        Inputs() == old(Inputs()).(data := newData, taskMap := Index(newData), config := c,
          scrollLeft := if u.value.viewMode.Some? then 0 else old(scrollLeft),
          pixelsPerDay := if u.value.viewMode.Some? then Factor(c.viewFactors, c.viewMode) else old(pixelsPerDay))
      ensures u.None? ==> var span := FullSpan(newData, Index(newData), now);
        Inputs() == old(Inputs()).(data := newData, taskMap := Index(newData),
          minDate := Some(span.0), maxDate := Some(span.1),
          timelineStart := SnapStart(config.viewMode, BufferedStart(span.0, today)),
          timelineEnd := SnapEnd(config.viewMode, BufferedEnd(span.1, today)))
      ensures Settled() && Rendered(Snap(), frame, taskPositions)
    {
      if u.Some? {
        Reconfigure(newData, u.value);
      } else {
        Reload(newData, now);
      }
    }

    /** setData with options: the new rows and their index, then updateConfig; the timeline and its range are not recomputed. */
    method Reconfigure(newData: GanttData, u: ConfigUpdate)
      requires Valid() && ValidConfig(ApplyUpdate(config, u))
      modifies this`data, this`taskMap, this`config, this`scrollLeft, this`pixelsPerDay
      modifies this`totalWidth, this`totalHeight, this`visibleStart, this`visibleEnd, this`taskPositions, this`frame
      ensures var c := ApplyUpdate(old(config), u);
        Inputs() == old(Inputs()).(data := newData, taskMap := Index(newData), config := c,
          scrollLeft := if u.viewMode.Some? then 0 else old(scrollLeft),
          pixelsPerDay := if u.viewMode.Some? then Factor(c.viewFactors, c.viewMode) else old(pixelsPerDay))
      ensures Settled() && Rendered(Snap(), frame, taskPositions)
    {
      data := newData;
      BuildTaskMap();
      assert Inputs() == old(Inputs()).(data := newData, taskMap := Index(newData));
      UpdateConfig(u);
    }

    /** setData without options: the new rows, the timeline from them, then the refresh. */
    method Reload(newData: GanttData, now: int)
      requires Valid()
      modifies this`data, this`taskMap, this`minDate, this`maxDate, this`timelineStart, this`timelineEnd
      modifies this`totalWidth, this`totalHeight, this`visibleStart, this`visibleEnd, this`taskPositions, this`frame
      ensures var span := FullSpan(newData, Index(newData), now);
        Inputs() == old(Inputs()).(data := newData, taskMap := Index(newData),
          minDate := Some(span.0), maxDate := Some(span.1),
          timelineStart := SnapStart(config.viewMode, BufferedStart(span.0, today)),
          timelineEnd := SnapEnd(config.viewMode, BufferedEnd(span.1, today)))
      ensures Settled() && Rendered(Snap(), frame, taskPositions)
    {
      data := newData;
      Bound(now);
      Refresh();
    }

    /**
     * handleMouseMove with the built-in tooltip: nothing without the listeners; the
     * tooltip is hidden off the rows or when no task of the row covers the day under
     * the pointer, and otherwise lists those tasks in row order.
     */
    method HoverAt(mouseX: int, mouseY: int) returns (h: Hover)
      requires Valid()
      ensures h == NotListening <==> !hoverEnabled
      ensures h.Tooltip? <==> (hoverEnabled && HoverRow(mouseY + scrollTop, config.rowHeight, |data|).Some?
        && HoverTasks(data[HoverRow(mouseY + scrollTop, config.rowHeight, |data|).value].tasks, XToDate(timelineStart, pixelsPerDay, mouseX + scrollLeft)) != [])
      ensures h.Tooltip? ==> 0 <= h.row < |data| && h.row * config.rowHeight <= mouseY + scrollTop < h.row * config.rowHeight + config.rowHeight
      ensures h.Tooltip? ==> h.date == XToDate(timelineStart, pixelsPerDay, mouseX + scrollLeft)
      ensures h.Tooltip? ==> forall t :: t in h.tasks <==> t in data[h.row].tasks && Covers(t, h.date)
      ensures h.Tooltip? ==> h.tasks == HoverTasks(data[h.row].tasks, h.date)
    {
      if !hoverEnabled {
        return NotListening;
      }
      var row := HoverRow(mouseY + scrollTop, config.rowHeight, |data|);
      var date := XToDate(timelineStart, pixelsPerDay, mouseX + scrollLeft);
      if row.None? {
        return Hidden;
      }
      var tasks := HoverTasks(data[row.value].tasks, date);
      if tasks == [] {
        return Hidden;
      }
      h := Tooltip(row.value, date, tasks);
    }

    /** scrollToStartDate: the scrollLeft requested for the date, or for minDate without one; nothing changes here. */
    method ScrollToStartDate(date: Option<int>) returns (target: Option<int>)
      requires Valid()
      ensures target.None? <==> date.None? && minDate.None?
      ensures target.Some? ==> target == ScrollTarget(timelineStart, pixelsPerDay, date, minDate)
    {
      var start := if date.Some? then date else minDate;
      if start.Some? {
        target := Some(DateToX(timelineStart, pixelsPerDay, start.value) - ScrollMargin);
      } else {
        target := None;
      }
    }
  }
}
