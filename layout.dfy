/**
 * The pure geometry of the chart (src/core/ganttChart.ts): the date/pixel
 * mapping, the cached position of a task, dependency routes, the
 * visibility tests, drawTask's sub-day offsets, the hover hit-test,
 * getTaskWidthPercent, the scrollToStartDate target and the steps of the
 * header and grid loops.
 */
module Layout {
  import opened Wrappers
  import opened Calendar
  import opened DateUtils
  import opened GanttTypes

  /** new Date(y, m, d) rebuilds the day d from its own parts: its year is outside 0..99. */
  predicate Rebuildable(d: int)
  {
    !TwoDigitYear(FullYear(d))
  }

  // ----- dateToX / xToDate

  /** dateToX: whole days from the timeline start, times the pixels per day. */
  function DateToX(ts: int, ppd: int, d: int): int
  {
    DiffDays(ts, d) * ppd
  }

  /** xToDate: addDays(timelineStart, x / pixelsPerDay). */
  function XToDate(ts: int, ppd: int, x: int): int
    requires ppd > 0
  {
    AddDaysRatio(ts, x, ppd)
  }

  lemma DateToXOrigin(ts: int, ppd: int)
    ensures DateToX(ts, ppd, ts) == 0
  {
  }

  lemma DateToXExact(ts: int, ppd: int, d: int)
    requires Rebuildable(ts) && Rebuildable(d)
    ensures DateToX(ts, ppd, d) == (d - ts) * ppd
  {
    DiffDaysExact(ts, d);
  }

  lemma DateToXMonotone(ts: int, ppd: int, d1: int, d2: int)
    requires ppd >= 0 && d1 <= d2 && Rebuildable(d1) && Rebuildable(d2)
    ensures DateToX(ts, ppd, d1) <= DateToX(ts, ppd, d2)
  {
    ReconstructedIdentity(d1);
    ReconstructedIdentity(d2);
    MulMonotone(DiffDays(ts, d1), DiffDays(ts, d2), ppd);
  }

  /** xToDate undoes dateToX: the offset is a whole number of days times the pixels per day. */
  lemma XToDateOfDateToX(ts: int, ppd: int, d: int)
    requires ppd > 0 && Rebuildable(ts) && Rebuildable(d)
    ensures XToDate(ts, ppd, DateToX(ts, ppd, d)) == d
  {
    DateToXExact(ts, ppd, d);
    AddDaysRatioExact(ts, d - ts, ppd);
  }

  lemma XToDateMonotone(ts: int, ppd: int, x1: int, x2: int)
    requires ppd > 0 && x1 <= x2
    ensures XToDate(ts, ppd, x1) <= XToDate(ts, ppd, x2)
  {
    AddDaysRatioMonotone(ts, x1, x2, ppd);
  }

  /** At a pixel right of the timeline start, xToDate finds the day whose column holds that pixel. */
  lemma XToDateColumn(ts: int, ppd: int, x: int)
    requires ppd > 0 && x >= 0 && Rebuildable(ts) && Rebuildable(XToDate(ts, ppd, x))
    ensures var d := XToDate(ts, ppd, x);
      DateToX(ts, ppd, d) <= x < DateToX(ts, ppd, d) + ppd
  {
    var d := XToDate(ts, ppd, x);
    CivilParts(ts);
    MulMonotone(1, DayOfMonth(ts), ppd);
    AddDaysRatioRounding(ts, x, ppd);
    DateToXExact(ts, ppd, d);
    assert ppd * (d - ts) == (d - ts) * ppd;
  }

  // ----- calculateAllTaskPositions

  function PlanStartX(ts: int, ppd: int, t: Task): Coord
  {
    if t.planStart.Some? then Num(DateToX(ts, ppd, t.planStart.value) as real) else NaN
  }

  /** The plan bar ends where the day after planEnd begins. */
  function PlanEndX(ts: int, ppd: int, t: Task): Coord
  {
    if t.planEnd.Some? then Num(DateToX(ts, ppd, AddDays(t.planEnd.value, 1)) as real) else NaN
  }

  function ActualStartX(ts: int, ppd: int, t: Task): Option<real>
  {
    if t.actualStart.Some? then Some(DateToX(ts, ppd, t.actualStart.value) as real) else None
  }

  function ActualEndX(ts: int, ppd: int, t: Task): Option<real>
  {
    if t.actualEnd.Some? then Some(DateToX(ts, ppd, AddDays(t.actualEnd.value, 1)) as real) else None
  }

  /** The y of a row's centre line: row * rowHeight + rowHeight * 0.5. */
  function RowCenter(row: int, rh: int): real
  {
    (row * rh) as real + rh as real * 0.5
  }

  /** The position calculateAllTaskPositions stores for task t of row `row`. */
  function PositionOf(ts: int, ppd: int, rh: int, row: int, t: Task): TaskPosition
  {
    TaskPosition(PlanStartX(ts, ppd, t), PlanEndX(ts, ppd, t), ActualStartX(ts, ppd, t), ActualEndX(ts, ppd, t),
                 RowCenter(row, rh), row)
  }

  /** The plan bar spans the inclusive day count of the plan, times the pixels per day. */
  lemma PlanWidth(ts: int, ppd: int, rh: int, row: int, t: Task)
    requires t.planStart.Some? && t.planEnd.Some?
    requires Rebuildable(ts) && Rebuildable(t.planStart.value) && Rebuildable(t.planEnd.value)
    requires Rebuildable(t.planEnd.value + 1)
    ensures var p := PositionOf(ts, ppd, rh, row, t);
      && p.xPlanStart.Num? && p.xPlanEnd.Num?
      && p.xPlanEnd.v - p.xPlanStart.v == (DiffDaysInclusive(t.planStart.value, t.planEnd.value) * ppd) as real
  {
    var s, e := t.planStart.value, t.planEnd.value;
    AddDaysShifts(e, 1);
    DateToXExact(ts, ppd, s);
    DateToXExact(ts, ppd, e + 1);
    DiffDaysExact(s, e);
    assert (e + 1 - ts) * ppd - (s - ts) * ppd == (e - s + 1) * ppd;
  }

  /** The same for the actual bar, when both actual dates are given. */
  lemma ActualWidth(ts: int, ppd: int, rh: int, row: int, t: Task)
    requires t.actualStart.Some? && t.actualEnd.Some?
    requires Rebuildable(ts) && Rebuildable(t.actualStart.value) && Rebuildable(t.actualEnd.value)
    requires Rebuildable(t.actualEnd.value + 1)
    ensures var p := PositionOf(ts, ppd, rh, row, t);
      && p.xActualStart.Some? && p.xActualEnd.Some?
      && p.xActualEnd.value - p.xActualStart.value == (DiffDaysInclusive(t.actualStart.value, t.actualEnd.value) * ppd) as real
  {
    var s, e := t.actualStart.value, t.actualEnd.value;
    AddDaysShifts(e, 1);
    DateToXExact(ts, ppd, s);
    DateToXExact(ts, ppd, e + 1);
    DiffDaysExact(s, e);
    assert (e + 1 - ts) * ppd - (s - ts) * ppd == (e - s + 1) * ppd;
  }

  /**
   * Which coordinates are missing: a plan x is NaN exactly when its date is
   * absent, an actual x is null exactly when its date is absent, and the
   * centre line lies strictly inside the row's band.
   */
  lemma PositionShape(ts: int, ppd: int, rh: int, row: int, t: Task)
    requires rh > 0
    ensures var p := PositionOf(ts, ppd, rh, row, t);
      && (p.xPlanStart.NaN? <==> t.planStart.None?)
      && (p.xPlanEnd.NaN? <==> t.planEnd.None?)
      && (p.xActualStart.None? <==> t.actualStart.None?)
      && (p.xActualEnd.None? <==> t.actualEnd.None?)
      && (row * rh) as real < p.y < (row * rh + rh) as real
      && p.row == row
  {
  }

  /** A plan whose end is n - 1 days after its start spans n days. */
  lemma PlanWidthOfDays(ts: int, ppd: int, rh: int, row: int, t: Task, n: int)
    requires t.planStart.Some? && t.planEnd == Some(t.planStart.value + n - 1)
    requires Rebuildable(ts) && Rebuildable(t.planStart.value) && Rebuildable(t.planEnd.value)
    requires Rebuildable(t.planEnd.value + 1)
    ensures var p := PositionOf(ts, ppd, rh, row, t);
      && p.xPlanStart.Num? && p.xPlanEnd.Num?
      && p.xPlanEnd.v - p.xPlanStart.v == (n * ppd) as real
  {
    PlanWidth(ts, ppd, rh, row, t);
    DiffDaysExact(t.planStart.value, t.planEnd.value);
  }

  // ----- drawAllDependencies

  datatype Arrow = Down | Up | Right

  datatype Point = Point(x: real, y: real)

  /** A connector: the polyline's points in drawing order and the arrowhead at its last point. */
  datatype Route = Route(points: seq<Point>, arrow: Arrow)

  /** Horizontal clearance of a connector from the bars it joins. */
  const Gap: real := 15.0

  /** a || b on an actual x (null or 0 is falsy) and a plan x. */
  function OrElse(a: Option<real>, b: Coord): Coord
  {
    if a.Some? && a.value != 0.0 then Num(a.value) else b
  }

  /** Math.max, which is NaN when either operand is. */
  function CoordMax(a: Coord, b: Coord): Coord
  {
    if a.NaN? || b.NaN? then NaN else Num(if a.v >= b.v then a.v else b.v)
  }

  /** Math.min, which is NaN when either operand is. */
  function CoordMin(a: Coord, b: Coord): Coord
  {
    if a.NaN? || b.NaN? then NaN else Num(if a.v <= b.v then a.v else b.v)
  }

  /** Where a connector leaves its source: the later of the plan end and the actual end. */
  function FromX(p: TaskPosition): Coord
  {
    CoordMax(p.xPlanEnd, OrElse(p.xActualEnd, p.xPlanEnd))
  }

  /** Where a connector enters its target: the earlier of the plan start and the actual start. */
  function ToX(p: TaskPosition): Coord
  {
    CoordMin(p.xPlanStart, OrElse(p.xActualStart, p.xPlanStart))
  }

  predicate Adjacent(fromRow: int, toRow: int)
  {
    toRow - fromRow == 1 || fromRow - toRow == 1
  }

  /** The polyline of one dependency, from the source's exit point to the target's entry point. */
  function RouteBetween(fromX: real, fromY: real, toX: real, toY: real, fromRow: int, toRow: int, rh: real): Route
  {
    if Adjacent(fromRow, toRow) then
      var isDown := toRow > fromRow;
      var fromEdge := fromY + (if isDown then rh * 0.3 else -rh * 0.3);
      var toEdge := toY + (if isDown then -rh * 0.3 else rh * 0.3);
      var midY := (fromY + toY) / 2.0;
      Route([Point(fromX, fromEdge), Point(fromX, midY), Point(toX, midY), Point(toX, toEdge)], if isDown then Down else Up)
    else
      var exitX := fromX + Gap;
      if toX > exitX + Gap then
        Route([Point(fromX, fromY), Point(exitX, fromY), Point(exitX, toY), Point(toX, toY)], Right)
      else
        var isDown := toRow > fromRow;
        var gapY := toY - (if isDown then rh / 2.0 else -rh / 2.0);
        var entryX := toX - Gap;
        Route([Point(fromX, fromY), Point(exitX, fromY), Point(exitX, gapY), Point(entryX, gapY), Point(entryX, toY), Point(toX, toY)], Right)
  }

  /** The connector from task position `from` to task position `to`; a NaN end point gives none. */
  function ConnectorRoute(from: TaskPosition, to: TaskPosition, fromRow: int, toRow: int, rh: int): Option<Route>
  {
    var fx := FromX(from);
    var tx := ToX(to);
    if fx.NaN? || tx.NaN? then None
    else Some(RouteBetween(fx.v, from.y, tx.v, to.y, fromRow, toRow, rh as real))
  }

  /** The connector drawn for dependency depId of task toId: none unless both have a position and an index entry. */
  function ConnectorFor(index: map<string, TaskEntry>, positions: map<string, TaskPosition>, toId: string, depId: string, rh: int): Option<Route>
  {
    if toId in positions && depId in positions && toId in index && depId in index
    then ConnectorRoute(positions[depId], positions[toId], index[depId].row, index[toId].row, rh)
    else None
  }

  /** The connectors of task toId, one per dependency in deps that draws one. */
  function TaskConnectors(index: map<string, TaskEntry>, positions: map<string, TaskPosition>, toId: string, deps: seq<string>, rh: int): set<Route>
    decreases |deps|
  {
    if |deps| == 0 then {}
    else
      var c := ConnectorFor(index, positions, toId, deps[|deps| - 1], rh);
      TaskConnectors(index, positions, toId, deps[..|deps| - 1], rh) + (if c.Some? then {c.value} else {})
  }

  /** The connectors of the tasks under the ids ids. */
  function ConnectorsOver(index: map<string, TaskEntry>, positions: map<string, TaskPosition>, rh: int, ids: set<string>): set<Route>
  {
    set id, r | id in ids && id in index && r in TaskConnectors(index, positions, id, index[id].task.dependencies, rh) :: r
  }

  /** Every connector drawAllDependencies draws. */
  function Connectors(index: map<string, TaskEntry>, positions: map<string, TaskPosition>, rh: int): set<Route>
  {
    ConnectorsOver(index, positions, rh, index.Keys)
  }

  /** A task's connectors are exactly the routes of those of its dependencies that draw one. */
  lemma {:induction false} TaskConnectorsMembership(index: map<string, TaskEntry>, positions: map<string, TaskPosition>, toId: string, deps: seq<string>, rh: int, r: Route)
    ensures r in TaskConnectors(index, positions, toId, deps, rh) <==>
      exists k :: 0 <= k < |deps| && ConnectorFor(index, positions, toId, deps[k], rh) == Some(r)
    decreases |deps|
  {
    if |deps| > 0 {
      var n := |deps| - 1;
      TaskConnectorsMembership(index, positions, toId, deps[..n], rh, r);
      if exists k :: 0 <= k < n && ConnectorFor(index, positions, toId, deps[..n][k], rh) == Some(r) {
        var k :| 0 <= k < n && ConnectorFor(index, positions, toId, deps[..n][k], rh) == Some(r);
        assert deps[k] == deps[..n][k];
      }
      if exists k :: 0 <= k < |deps| && ConnectorFor(index, positions, toId, deps[k], rh) == Some(r) {
        var k :| 0 <= k < |deps| && ConnectorFor(index, positions, toId, deps[k], rh) == Some(r);
        if k < n {
          assert deps[..n][k] == deps[k];
        }
      }
    }
  }

  /** Adding the connectors of one more task. */
  lemma ConnectorsOverAdd(index: map<string, TaskEntry>, positions: map<string, TaskPosition>, rh: int, ids: set<string>, id: string)
    requires id in index
    ensures ConnectorsOver(index, positions, rh, ids + {id}) ==
      ConnectorsOver(index, positions, rh, ids) + TaskConnectors(index, positions, id, index[id].task.dependencies, rh)
  {
  }

  /** Every segment is horizontal or vertical, and the route runs from the exit x to the entry x. */
  lemma RouteIsManhattan(fromX: real, fromY: real, toX: real, toY: real, fromRow: int, toRow: int, rh: real)
    ensures var r := RouteBetween(fromX, fromY, toX, toY, fromRow, toRow, rh);
      && |r.points| >= 4
      && (forall k :: 0 <= k < |r.points| - 1 ==> r.points[k].x == r.points[k + 1].x || r.points[k].y == r.points[k + 1].y)
      && r.points[0].x == fromX
      && r.points[|r.points| - 1].x == toX
  {
  }

  /**
   * Adjacent rows: three segments and a vertical arrowhead pointing towards
   * the target row. Other rows: three segments when the target starts more
   * than two gaps right of the source's end, five otherwise, and an
   * arrowhead pointing right at the end of a rightward last segment.
   */
  lemma RouteShape(fromX: real, fromY: real, toX: real, toY: real, fromRow: int, toRow: int, rh: real)
    ensures var r := RouteBetween(fromX, fromY, toX, toY, fromRow, toRow, rh);
      var n := |r.points|;
      && (Adjacent(fromRow, toRow) ==> n == 4 && r.arrow == (if toRow > fromRow then Down else Up))
      && (!Adjacent(fromRow, toRow) ==>
            && n == (if toX > fromX + 2.0 * Gap then 4 else 6)
            && r.arrow == Right
            && r.points[n - 1] == Point(toX, toY)
            && r.points[n - 2].y == toY && r.points[n - 2].x < toX)
  {
  }

  /**
   * With rows at their centre lines, an adjacent connector turns on the
   * boundary between the two rows and its last segment runs in the arrow's
   * direction; a detour crosses over on the boundary of the target row on
   * the side it comes from.
   */
  lemma RouteOnRowBoundaries(fromX: real, toX: real, fromRow: int, toRow: int, rh: int)
    requires rh > 0
    ensures var r := RouteBetween(fromX, RowCenter(fromRow, rh), toX, RowCenter(toRow, rh), fromRow, toRow, rh as real);
      && (Adjacent(fromRow, toRow) ==>
            && r.points[1].y == r.points[2].y == (if toRow > fromRow then toRow * rh else fromRow * rh) as real
            && (r.arrow == Down ==> r.points[2].y < r.points[3].y)
            && (r.arrow == Up ==> r.points[2].y > r.points[3].y))
      && (!Adjacent(fromRow, toRow) && !(toX > fromX + 2.0 * Gap) ==>
            r.points[2].y == r.points[3].y == (if toRow > fromRow then toRow * rh else toRow * rh + rh) as real)
  {
    assert (toRow * rh) as real == toRow as real * rh as real;
    assert (fromRow * rh) as real == fromRow as real * rh as real;
    assert (toRow * rh + rh) as real == toRow as real * rh as real + rh as real;
  }

  /** fromX is the later of the two ends and toX the earlier of the two starts; a 0 actual x counts as absent. */
  lemma ExitAndEntryPoints(p: TaskPosition)
    ensures FromX(p).Num? ==> p.xPlanEnd.Num? && FromX(p).v >= p.xPlanEnd.v
    ensures FromX(p).Num? && p.xActualEnd.Some? && p.xActualEnd.value != 0.0 ==> FromX(p).v >= p.xActualEnd.value
    ensures FromX(p).Num? ==> FromX(p).v == p.xPlanEnd.v || Some(FromX(p).v) == p.xActualEnd
    ensures ToX(p).Num? ==> p.xPlanStart.Num? && ToX(p).v <= p.xPlanStart.v
    ensures ToX(p).Num? && p.xActualStart.Some? && p.xActualStart.value != 0.0 ==> ToX(p).v <= p.xActualStart.value
    ensures ToX(p).Num? ==> ToX(p).v == p.xPlanStart.v || Some(ToX(p).v) == p.xActualStart
    ensures p.xActualEnd == Some(0.0) ==> FromX(p) == FromX(p.(xActualEnd := None)) == CoordMax(p.xPlanEnd, p.xPlanEnd)
    ensures p.xActualStart == Some(0.0) ==> ToX(p) == ToX(p.(xActualStart := None)) == CoordMin(p.xPlanStart, p.xPlanStart)
  {
  }

  /** A dependency without a position, or a task without one, draws nothing; with both, a NaN-free pair draws its route, and it is among the connectors drawn. */
  lemma ConnectorsDrawn(index: map<string, TaskEntry>, positions: map<string, TaskPosition>, rh: int, id: string, k: int)
    requires id in index && 0 <= k < |index[id].task.dependencies|
    ensures var dep := index[id].task.dependencies[k];
      && (dep !in positions || id !in positions ==> ConnectorFor(index, positions, id, dep, rh).None?)
      && (ConnectorFor(index, positions, id, dep, rh).Some? ==> ConnectorFor(index, positions, id, dep, rh).value in Connectors(index, positions, rh))
      && (id in positions && dep in positions && dep in index && FromX(positions[dep]).Num? && ToX(positions[id]).Num? ==>
            ConnectorFor(index, positions, id, dep, rh).Some?)
  {
    var deps := index[id].task.dependencies;
    var c := ConnectorFor(index, positions, id, deps[k], rh);
    if c.Some? {
      TaskConnectorsMembership(index, positions, id, deps, rh, c.value);
    }
  }

  /** Conversely, every connector drawn is the route of some dependency of some indexed task. */
  lemma ConnectorsAreDependencies(index: map<string, TaskEntry>, positions: map<string, TaskPosition>, rh: int, r: Route)
    requires r in Connectors(index, positions, rh)
    ensures exists id, k ::
      && id in index && 0 <= k < |index[id].task.dependencies|
      && ConnectorFor(index, positions, id, index[id].task.dependencies[k], rh) == Some(r)
  {
    var id :| id in index && r in TaskConnectors(index, positions, id, index[id].task.dependencies, rh);
    TaskConnectorsMembership(index, positions, id, index[id].task.dependencies, rh, r);
  }

  // ----- visibility (drawAllTasks, drawGrid, drawToday)

  /** The scroll offsets and the size of the viewport. */
  datatype Viewport = Viewport(scrollLeft: int, scrollTop: int, width: int, height: int)

  /** drawAllTasks skips a row whose band ends above or starts below the viewport. */
  predicate RowShown(row: int, rh: int, vp: Viewport)
  {
    !(row * rh + rh < vp.scrollTop || row * rh > vp.scrollTop + vp.height)
  }

  /** a < b in JavaScript: false when a is NaN. */
  predicate Below(a: Coord, b: real)
  {
    a.Num? && a.v < b
  }

  /** a > b in JavaScript: false when a is NaN. */
  predicate Above(a: Coord, b: real)
  {
    a.Num? && a.v > b
  }

  predicate Truthy(a: Option<real>)
  {
    a.Some? && a.value != 0.0
  }

  /** null in a comparison with a number reads as 0. */
  function NullAsZero(a: Option<real>): real
  {
    if a.Some? then a.value else 0.0
  }

  predicate PlanOutside(p: TaskPosition, vp: Viewport)
  {
    Below(p.xPlanEnd, vp.scrollLeft as real) || Above(p.xPlanStart, (vp.scrollLeft + vp.width) as real)
  }

  predicate ActualOutside(p: TaskPosition, vp: Viewport)
  {
    || !Truthy(p.xActualStart)
    || NullAsZero(p.xActualEnd) < vp.scrollLeft as real
    || p.xActualStart.value > (vp.scrollLeft + vp.width) as real
  }

  /** The bar test of drawAllTasks: a task is skipped only when both its plan and its actual bar miss the viewport. */
  predicate BarShown(p: TaskPosition, vp: Viewport)
  {
    !(PlanOutside(p, vp) && ActualOutside(p, vp))
  }

  /** drawGrid draws the line at the top of row i (0 <= i <= rows) only inside the viewport. */
  predicate RowLineShown(i: int, rh: int, vp: Viewport)
  {
    !(i * rh < vp.scrollTop || i * rh > vp.scrollTop + vp.height)
  }

  /** drawToday draws the marker only inside the viewport. */
  predicate TodayShown(x: int, vp: Viewport)
  {
    x >= vp.scrollLeft && x <= vp.scrollLeft + vp.width
  }

  predicate Within(x: real, a: real, b: real)
  {
    a <= x <= b
  }

  /** The closed spans [a, b] and [c, d] share a point. */
  ghost predicate Overlap(a: real, b: real, c: real, d: real)
  {
    exists x: real :: Within(x, a, b) && Within(x, c, d)
  }

  lemma OverlapIff(a: real, b: real, c: real, d: real)
    requires a <= b && c <= d
    ensures Overlap(a, b, c, d) <==> b >= c && a <= d
  {
    if b >= c && a <= d {
      var x := if a >= c then a else c;
      assert Within(x, a, b) && Within(x, c, d);
    }
  }

  /** A row is shown exactly when its band meets the viewport's vertical extent. */
  lemma RowShownIffOverlap(row: int, rh: int, vp: Viewport)
    requires rh >= 0 && vp.height >= 0
    ensures RowShown(row, rh, vp) <==> Overlap((row * rh) as real, (row * rh + rh) as real, vp.scrollTop as real, (vp.scrollTop + vp.height) as real)
  {
    OverlapIff((row * rh) as real, (row * rh + rh) as real, vp.scrollTop as real, (vp.scrollTop + vp.height) as real);
  }

  /**
   * For a task with both plan coordinates, a bar is drawn exactly when its
   * plan span meets the viewport or it has a truthy actual start and its
   * actual span meets the viewport.
   */
  lemma BarShownIffOverlap(p: TaskPosition, vp: Viewport)
    requires vp.width >= 0
    requires p.xPlanStart.Num? && p.xPlanEnd.Num? && p.xPlanStart.v <= p.xPlanEnd.v
    requires p.xActualStart.Some? ==> p.xActualEnd.Some? && p.xActualStart.value <= p.xActualEnd.value
    ensures var l, r := vp.scrollLeft as real, (vp.scrollLeft + vp.width) as real;
      BarShown(p, vp) <==>
        || Overlap(p.xPlanStart.v, p.xPlanEnd.v, l, r)
        || (Truthy(p.xActualStart) && Overlap(p.xActualStart.value, p.xActualEnd.value, l, r))
  {
    var l, r := vp.scrollLeft as real, (vp.scrollLeft + vp.width) as real;
    OverlapIff(p.xPlanStart.v, p.xPlanEnd.v, l, r);
    if p.xActualStart.Some? {
      OverlapIff(p.xActualStart.value, p.xActualEnd.value, l, r);
    }
  }

  /**
   * NaN compares false, so a task without plan dates always passes the bar
   * test; a null actual end reads as 0, so right of the origin such a task
   * is tested by its plan span alone.
   */
  lemma BarShownEdgeCases(p: TaskPosition, vp: Viewport)
    ensures p.xPlanStart.NaN? && p.xPlanEnd.NaN? ==> BarShown(p, vp)
    ensures p.xActualEnd.None? && vp.scrollLeft > 0 ==> (BarShown(p, vp) <==> !PlanOutside(p, vp))
  {
  }

  // ----- drawTask

  /** [offset, fraction] of a bar: the task's own pair in the Day view, [0, 1] otherwise. */
  function OffsetPair(mode: ViewMode, o: Option<(real, real)>): (real, real)
  {
    if mode == Day && o.Some? then o.value else (0.0, 1.0)
  }

  predicate TruthyCoord(a: Coord)
  {
    a.Num? && a.v != 0.0
  }

  /** A bar drawTask fills, with its left x and its width, or none. */
  datatype Bar = NoBar | Span(x: real, width: real)

  /** What drawTask leaves in the cached position, and the two bars it draws. */
  datatype DrawnBars = DrawnBars(pos: TaskPosition, actual: Bar, plan: Bar)

  /** The draw-time switches drawTask reads. */
  datatype BarStyle = BarStyle(mode: ViewMode, showActual: bool, showPlan: bool, todayX: real)

  /**
   * drawTask: an actual bar (running to today when the actual end is
   * missing) and a plan bar, each shifted by its offset and scaled by its
   * fraction, with the shifted coordinates written back into the position.
   */
  function DrawTask(p: TaskPosition, t: Task, s: BarStyle): DrawnBars
  {
    var width := if p.xPlanStart.Num? && p.xPlanEnd.Num? then p.xPlanEnd.v - p.xPlanStart.v else 0.0;
    DrawPlan(DrawActual(p, t, s), width, t, s)
  }

  /** The actual bar of drawTask, shifted by the actual pair. */
  function DrawActual(p: TaskPosition, t: Task, s: BarStyle): (r: DrawnBars)
    ensures r.pos.xPlanStart == p.xPlanStart && r.pos.xPlanEnd == p.xPlanEnd && r.plan.NoBar?
  {
    var (o, f) := OffsetPair(s.mode, t.actualOffsetPercent);
    if s.showActual && Truthy(p.xActualStart) then
      var aWidth := (if Truthy(p.xActualEnd) then p.xActualEnd.value else s.todayX) - p.xActualStart.value;
      var start := p.xActualStart.value + aWidth * o;
      var end := if Truthy(p.xActualEnd) then Some(start + aWidth * f) else p.xActualEnd;
      DrawnBars(p.(xActualStart := Some(start), xActualEnd := end), Span(start, aWidth * f), NoBar)
    else DrawnBars(p, NoBar, NoBar)
  }

  /** The plan bar of drawTask, shifted by the plan pair; width is the plan width before any shift. */
  function DrawPlan(b: DrawnBars, width: real, t: Task, s: BarStyle): DrawnBars
  {
    var (o, f) := OffsetPair(s.mode, t.planOffsetPercent);
    var q := b.pos;
    if s.showPlan && TruthyCoord(q.xPlanStart) && TruthyCoord(q.xPlanEnd) then
      var start := q.xPlanStart.v + width * o;
      b.(pos := q.(xPlanStart := Num(start), xPlanEnd := Num(start + width * f)), plan := Span(start, width * f))
    else b
  }

  /**
   * Outside the Day view, or with [0, 1] pairs, drawTask leaves the cached
   * position as it was, and its bars span the cached coordinates.
   */
  lemma DrawTaskNeutral(p: TaskPosition, t: Task, s: BarStyle)
    requires OffsetPair(s.mode, t.actualOffsetPercent) == (0.0, 1.0) && OffsetPair(s.mode, t.planOffsetPercent) == (0.0, 1.0)
    ensures var r := DrawTask(p, t, s);
      && r.pos == p
      && (r.actual.Span? <==> s.showActual && Truthy(p.xActualStart))
      && (r.actual.Span? ==>
            && r.actual.x == p.xActualStart.value
            && r.actual.x + r.actual.width == (if Truthy(p.xActualEnd) then p.xActualEnd.value else s.todayX))
      && (r.plan.Span? <==> s.showPlan && TruthyCoord(p.xPlanStart) && TruthyCoord(p.xPlanEnd))
      && (r.plan.Span? ==> r.plan == Span(p.xPlanStart.v, p.xPlanEnd.v - p.xPlanStart.v))
  {
  }

  lemma ViewOtherThanDayIsNeutral(mode: ViewMode, o: Option<(real, real)>)
    requires mode != Day || o.None?
    ensures OffsetPair(mode, o) == (0.0, 1.0)
  {
  }

  /** A fraction [o, o + f] of a span of width w starting at x stays inside the span. */
  lemma SubSpan(x: real, w: real, o: real, f: real)
    requires 0.0 <= w && 0.0 <= o && 0.0 <= f && o + f <= 1.0
    ensures x <= x + w * o <= x + w * o + w * f <= x + w
    ensures w * o + w * f == w * (o + f)
  {
    assert 0.0 <= w * o;
    assert 0.0 <= w * f;
    assert w - (w * o + w * f) == w * (1.0 - (o + f));
  }

  lemma DrawPlanShifts(b: DrawnBars, w: real, t: Task, s: BarStyle)
    requires s.mode == Day && t.planOffsetPercent.Some?
    requires s.showPlan && TruthyCoord(b.pos.xPlanStart) && TruthyCoord(b.pos.xPlanEnd)
    ensures DrawPlan(b, w, t, s).plan == Span(b.pos.xPlanStart.v + w * t.planOffsetPercent.value.0, w * t.planOffsetPercent.value.1)
    ensures DrawPlan(b, w, t, s).pos.xPlanStart == Num(b.pos.xPlanStart.v + w * t.planOffsetPercent.value.0)
    ensures DrawPlan(b, w, t, s).pos.xPlanEnd == Num(b.pos.xPlanStart.v + w * t.planOffsetPercent.value.0 + w * t.planOffsetPercent.value.1)
  {
  }

  /**
   * In the Day view a plan pair [o, f] draws the plan bar from o of the way
   * along its plan span w, f of the span wide, and moves the cached plan
   * coordinates to the ends of that bar (for 0 <= o, 0 <= f and o + f <= 1
   * SubSpan keeps them inside the span).
   */
  lemma DrawTaskSubDayPlan(p: TaskPosition, t: Task, s: BarStyle, o: real, f: real, w: real)
    requires s.mode == Day && t.planOffsetPercent == Some((o, f))
    requires s.showPlan && TruthyCoord(p.xPlanStart) && TruthyCoord(p.xPlanEnd)
    requires w == p.xPlanEnd.v - p.xPlanStart.v
    ensures var r := DrawTask(p, t, s);
      && r.plan == Span(p.xPlanStart.v + w * o, w * f)
      && r.pos.xPlanStart == Num(p.xPlanStart.v + w * o)
      && r.pos.xPlanEnd == Num(p.xPlanStart.v + w * o + w * f)
  {
    DrawPlanShifts(DrawActual(p, t, s), w, t, s);
  }

  /**
   * In the Day view an actual pair [o, f] draws the actual bar from o of the
   * way along its actual span w (which runs to today's x when the actual end
   * is missing), f of the span wide. The shifted start is written back; the
   * end is written back only when it was truthy, so a missing end stays
   * missing.
   */
  lemma DrawTaskSubDayActual(p: TaskPosition, t: Task, s: BarStyle, o: real, f: real, w: real)
    requires s.mode == Day && t.actualOffsetPercent == Some((o, f))
    requires s.showActual && Truthy(p.xActualStart)
    requires w == (if Truthy(p.xActualEnd) then p.xActualEnd.value else s.todayX) - p.xActualStart.value
    ensures var r := DrawTask(p, t, s);
      && r.actual == Span(p.xActualStart.value + w * o, w * f)
      && r.pos.xActualStart == Some(p.xActualStart.value + w * o)
      && r.pos.xActualEnd == (if Truthy(p.xActualEnd) then Some(p.xActualStart.value + w * o + w * f) else p.xActualEnd)
  {
    var a := DrawActual(p, t, s);
    assert a.actual == Span(p.xActualStart.value + w * o, w * f);
    var width := if p.xPlanStart.Num? && p.xPlanEnd.Num? then p.xPlanEnd.v - p.xPlanStart.v else 0.0;
    DrawPlanKeepsActual(a, width, t, s);
  }

  /** The plan half of drawTask leaves the actual bar and the actual coordinates as the actual half left them. */
  lemma DrawPlanKeepsActual(b: DrawnBars, width: real, t: Task, s: BarStyle)
    ensures var r := DrawPlan(b, width, t, s);
      r.actual == b.actual && r.pos.xActualStart == b.pos.xActualStart && r.pos.xActualEnd == b.pos.xActualEnd
  {
  }

  // ----- handleMouseMove

  /** Floor division by a positive row height finds the band holding y. */
  lemma FloorDivBands(y: int, rh: int, rows: int)
    requires rh > 0
    ensures y / rh * rh <= y < y / rh * rh + rh
    ensures y < 0 ==> y / rh < 0
    ensures y >= rows * rh ==> y / rh >= rows
    ensures 0 <= y < rows * rh ==> 0 <= y / rh < rows
  {
    var i := y / rh;
    assert i * rh <= y < i * rh + rh;
    if y < 0 && i >= 0 {
      MulMonotone(0, i, rh);
    }
    if i < rows {
      MulMonotone(i + 1, rows, rh);
      assert (i + 1) * rh == i * rh + rh;
    }
    if i < 0 {
      MulMonotone(i + 1, 0, rh);
      assert (i + 1) * rh == i * rh + rh;
    }
    if i >= rows {
      MulMonotone(rows, i, rh);
    }
  }

  /** Math.floor(chartY / rowHeight), when it names a row. */
  function HoverRow(chartY: int, rh: int, rows: int): (r: Option<int>)
    requires rh > 0
    ensures r.Some? ==> 0 <= r.value < rows && r.value * rh <= chartY < r.value * rh + rh
    ensures r.None? <==> chartY < 0 || chartY >= rows * rh
  {
    FloorDivBands(chartY, rh, rows);
    var i := chartY / rh;
    if i < 0 || i >= rows then None else Some(i)
  }

  /** The hover filter: d falls in [planStart, planEnd + 1), or, with an actual start, in [actualStart, actualEnd + 1). */
  predicate Covers(t: Task, d: int)
  {
    || (t.planStart.Some? && t.planEnd.Some? && t.planStart.value <= d < AddDays(t.planEnd.value, 1))
    || (t.actualStart.Some? && t.actualEnd.Some? && t.actualStart.value <= d < AddDays(t.actualEnd.value, 1))
  }

  /** row.tasks.filter(...): the tasks of a row under the hovered date, in row order. */
  function HoverTasks(tasks: seq<Task>, d: int): (r: seq<Task>)
    ensures |r| <= |tasks|
    ensures forall t :: t in r <==> t in tasks && Covers(t, d)
    decreases |tasks|
  {
    if |tasks| == 0 then []
    else
      var rest := HoverTasks(tasks[..|tasks| - 1], d);
      assert forall t :: t in tasks <==> t in tasks[..|tasks| - 1] || t == tasks[|tasks| - 1] by {
        forall t | t in tasks ensures t in tasks[..|tasks| - 1] || t == tasks[|tasks| - 1] {
          var j :| 0 <= j < |tasks| && tasks[j] == t;
          if j < |tasks| - 1 { assert tasks[..|tasks| - 1][j] == t; }
        }
      }
      if Covers(tasks[|tasks| - 1], d) then rest + [tasks[|tasks| - 1]] else rest
  }

  /** On one task the filter keeps it exactly when it covers the date. */
  lemma HoverTasksOne(t: Task, d: int)
    ensures HoverTasks([t], d) == if Covers(t, d) then [t] else []
  {
    assert [t][..0] == [];
  }

  /** The filter of a concatenation is the concatenation of the filters: HoverTasks keeps the row's order and its repeats. */
  lemma {:induction false} HoverTasksConcat(a: seq<Task>, b: seq<Task>, d: int)
    ensures HoverTasks(a + b, d) == HoverTasks(a, d) + HoverTasks(b, d)
    decreases |b|
  {
    if b == [] {
      assert a + b == a;
    } else {
      var c := b[..|b| - 1];
      assert (a + b)[..|a + b| - 1] == a + c;
      assert (a + b)[|a + b| - 1] == b[|b| - 1];
      HoverTasksConcat(a, c, d);
    }
  }

  /** Scaling by a positive factor keeps the order of two column counts. */
  lemma ScaleOrder(a: int, b: int, k: int)
    requires k > 0
    ensures (a <= b <==> a * k <= b * k) && (a < b <==> a * k < b * k)
  {
    if a <= b {
      MulMonotone(a, b, k);
    } else {
      MulMonotone(b + 1, a, k);
      assert (b + 1) * k == b * k + k;
    }
    if a < b {
      MulMonotone(a + 1, b, k);
      assert (a + 1) * k == a * k + k;
    } else {
      MulMonotone(b, a, k);
    }
  }

  /** A day is covered by a plan exactly when its column lies inside the plan bar. */
  lemma CoversPlanIffInsideBar(ts: int, ppd: int, rh: int, row: int, t: Task, d: int)
    requires ppd > 0 && t.planStart.Some? && t.planEnd.Some?
    requires Rebuildable(ts) && Rebuildable(d) && Rebuildable(t.planStart.value) && Rebuildable(t.planEnd.value + 1)
    ensures var p := PositionOf(ts, ppd, rh, row, t);
      (t.planStart.value <= d < AddDays(t.planEnd.value, 1)) <==>
        (p.xPlanStart.v <= DateToX(ts, ppd, d) as real < p.xPlanEnd.v)
  {
    var s, e1 := t.planStart.value, t.planEnd.value + 1;
    AddDaysShifts(t.planEnd.value, 1);
    DateToXExact(ts, ppd, s);
    DateToXExact(ts, ppd, e1);
    DateToXExact(ts, ppd, d);
    ScaleOrder(s - ts, d - ts, ppd);
    ScaleOrder(d - ts, e1 - ts, ppd);
  }


  /** Hovering over any pixel of a plan bar right of the timeline start lists that task. */
  lemma HoverFindsPlanBar(ts: int, ppd: int, rh: int, row: int, tasks: seq<Task>, j: int, x: int)
    requires ppd > 0 && 0 <= j < |tasks| && x >= 0
    requires tasks[j].planStart.Some? && tasks[j].planEnd.Some?
    requires Rebuildable(ts) && Rebuildable(tasks[j].planStart.value) && Rebuildable(tasks[j].planEnd.value + 1)
    requires Rebuildable(XToDate(ts, ppd, x))
    requires var p := PositionOf(ts, ppd, rh, row, tasks[j]); p.xPlanStart.v <= x as real < p.xPlanEnd.v
    ensures tasks[j] in HoverTasks(tasks, XToDate(ts, ppd, x))
  {
    var t := tasks[j];
    var d := XToDate(ts, ppd, x);
    var s, e1 := t.planStart.value, t.planEnd.value + 1;
    XToDateColumn(ts, ppd, x);
    DateToXExact(ts, ppd, d);
    DateToXExact(ts, ppd, s);
    AddDaysShifts(t.planEnd.value, 1);
    DateToXExact(ts, ppd, e1);
    ColumnInSpan(s - ts, d - ts, e1 - ts, ppd, x);
    assert Covers(t, d);
  }

  /** A pixel inside a span [a*k, b*k) and inside column c's pixels [c*k, c*k + k) puts column c in [a, b). */
  lemma ColumnInSpan(a: int, c: int, b: int, k: int, x: int)
    requires k > 0 && c * k <= x < c * k + k && a * k <= x < b * k
    ensures a <= c < b
  {
    assert (c + 1) * k == c * k + k;
    ScaleOrder(a, c + 1, k);
    ScaleOrder(c, b, k);
  }


  // ----- getTaskWidthPercent and scrollToStartDate

  /** getTaskWidthPercent: the width in pixels of a duration in milliseconds. */
  function TaskWidthPercent(diffMs: real, ppd: real): real
  {
    diffMs * ppd / OneDayMs as real
  }

  /** Whole days give whole day columns, and widths add up over consecutive durations. */
  lemma TaskWidthPercentScales(k: int, a: real, b: real, ppd: real)
    ensures TaskWidthPercent((k * OneDayMs) as real, ppd) == k as real * ppd
    ensures TaskWidthPercent(a + b, ppd) == TaskWidthPercent(a, ppd) + TaskWidthPercent(b, ppd)
  {
    assert (k * OneDayMs) as real == k as real * OneDayMs as real;
  }

  /** Distance from the viewport's left edge at which scrollToStartDate places its date. */
  const ScrollMargin: int := 80

  /** The scrollLeft scrollToStartDate asks for: the date's x less the margin, or nothing without a date. */
  function ScrollTarget(ts: int, ppd: int, date: Option<int>, minDate: Option<int>): Option<int>
  {
    var start := if date.Some? then date else minDate;
    if start.Some? then Some(DateToX(ts, ppd, start.value) - ScrollMargin) else None
  }

  /** After the scroll, the pixel ScrollMargin into the viewport shows the requested date (by default minDate). */
  lemma ScrollTargetShowsDate(ts: int, ppd: int, date: Option<int>, minDate: Option<int>)
    requires ppd > 0 && Rebuildable(ts)
    requires var start := if date.Some? then date else minDate; start.Some? ==> Rebuildable(start.value)
    ensures ScrollTarget(ts, ppd, date, minDate).None? <==> date.None? && minDate.None?
    ensures ScrollTarget(ts, ppd, date, minDate).Some? ==>
      XToDate(ts, ppd, ScrollTarget(ts, ppd, date, minDate).value + ScrollMargin) == (if date.Some? then date.value else minDate.value)
  {
    if date.Some? {
      XToDateOfDateToX(ts, ppd, date.value);
    } else if minDate.Some? {
      XToDateOfDateToX(ts, ppd, minDate.value);
    }
  }

  // ----- header and grid stepping

  /** The step of the header's and the grid's catch-up loops. */
  function PrerollStep(mode: ViewMode, cur: int): int
  {
    match mode
    case Day => AddDays(cur, 1)
    case Week => AddDays(cur, 7)
    case Month => AddMonths(cur, 1)
    case Year => AddMonths(cur, 6)
  }

  /** The loops' guard against a step that does not move: one day ahead instead. */
  function Advance(cur: int, next: int): int
  {
    if next == cur then AddDays(cur, 1) else next
  }

  /** 1 January or 1 July: where the Year view labels a half-year. */
  predicate HalfYearStart(d: int)
  {
    (MonthIndex(d) == 0 || MonthIndex(d) == 6) && DayOfMonth(d) == 1
  }

  /** The header's next column after cur (in the Year view only from a half-year start). */
  function HeaderNext(mode: ViewMode, cur: int): int
  {
    match mode
    case Day => AddDays(cur, 1)
    case Week => AddDays(GetStartOfWeek(cur), 7)
    case Month => AddMonths(cur, 1)
    case Year => AddMonths(cur, 6)
  }

  /** The grid's next column line after cur. */
  function GridNext(mode: ViewMode, cur: int): int
  {
    match mode
    case Day => AddDays(cur, 1)
    case Week => AddDays(cur, 7)
    case Month => AddMonths(cur, 1)
    case Year => if HalfYearStart(cur) then AddMonths(cur, 6) else AddDays(cur, 1)
  }

  /** getIterationStartDate, which drawGrid also applies to its start date. */
  function IterationStart(mode: ViewMode, d: int): int
  {
    match mode
    case Year => GetStartOfYear(d)
    case Month => GetStartOfMonth(d)
    case Week => GetStartOfWeek(d)
    case Day => Reconstructed(d)
  }

  /** Every step moves strictly forward, so the guard in the loops never fires. */
  lemma StepsAdvance(mode: ViewMode, cur: int)
    ensures PrerollStep(mode, cur) > cur
    ensures HeaderNext(mode, cur) > cur
    ensures GridNext(mode, cur) > cur
    ensures Advance(cur, PrerollStep(mode, cur)) == PrerollStep(mode, cur)
    ensures Advance(cur, HeaderNext(mode, cur)) == HeaderNext(mode, cur)
    ensures Advance(cur, GridNext(mode, cur)) == GridNext(mode, cur)
  {
    AddDaysShifts(cur, 1);
    AddDaysShifts(cur, 7);
    AddMonthsAdvances(cur, 1);
    AddMonthsAdvances(cur, 6);
    StartOfWeekNotEarlier(cur);
    AddDaysShifts(GetStartOfWeek(cur), 7);
  }

  /** The Month view's steps keep to first days of months, and the Year view's steps keep to half-year starts. */
  lemma StepsKeepAlignment(mode: ViewMode, cur: int)
    ensures mode == Month ==> DayOfMonth(PrerollStep(mode, cur)) == 1 && DayOfMonth(HeaderNext(mode, cur)) == 1
    ensures mode == Month ==> DayOfMonth(GridNext(mode, cur)) == 1
    ensures mode == Year && HalfYearStart(cur) ==>
      HalfYearStart(PrerollStep(mode, cur)) && HalfYearStart(HeaderNext(mode, cur)) && HalfYearStart(GridNext(mode, cur))
  {
    if mode == Month {
      AddMonthsFirstOfMonth(cur, 1);
    } else if mode == Year && HalfYearStart(cur) {
      HalfYearSteps(cur);
    }
  }

  /** Six months on from January 1 or July 1 is again one of the two. */
  lemma HalfYearSteps(cur: int)
    requires HalfYearStart(cur)
    ensures HalfYearStart(AddMonths(cur, 6))
  {
    AddMonthsFirstOfMonth(cur, 6);
    AddMonthsYearAndMonth(cur, 6);
  }

  /** The first column of the Month view is a first of month, and of the Year view 1 January. */
  lemma IterationStartAlignment(mode: ViewMode, d: int)
    ensures mode == Month ==> DayOfMonth(IterationStart(mode, d)) == 1
    ensures mode == Year ==> HalfYearStart(IterationStart(mode, d)) && MonthIndex(IterationStart(mode, d)) == 0
    ensures mode == Week && Rebuildable(WeekMonday(d)) ==> IsoWeekday(IterationStart(mode, d)) == 1
  {
    StartOfMonthIsFirst(d);
    StartOfYearIsJanuaryFirst(d);
    if mode == Week && Rebuildable(WeekMonday(d)) {
      StartOfWeekFacts(d);
    }
  }
}
