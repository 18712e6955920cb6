/**
 * The records of src/core/types.ts and the configuration defaults of the
 * GanttChart constructor. Dates are day numbers, already parsed from the
 * task's strings; an absent (or empty) date string is None.
 */
module GanttTypes {
  import opened Wrappers

  /** A task. The remark texts, colours, style class and custom data only feed drawing and tooltips and are not modelled. */
  datatype Task = Task(
    id: string,
    name: string,
    planStart: Option<int>,
    planEnd: Option<int>,
    actualStart: Option<int>,
    actualEnd: Option<int>,
    dependencies: seq<string>,
    /** [start offset, shown fraction] of the plan bar in the Day view. */
    planOffsetPercent: Option<(real, real)>,
    /** [start offset, shown fraction] of the actual bar in the Day view. */
    actualOffsetPercent: Option<(real, real)>)

  datatype Row = Row(id: string, name: string, tasks: seq<Task>)

  type GanttData = seq<Row>

  datatype ViewMode = Day | Week | Month | Year

  /** Pixels per day for each view mode. */
  datatype ViewFactors = ViewFactors(day: int, week: int, month: int, year: int)

  function Factor(f: ViewFactors, m: ViewMode): int
  {
    match m
    case Day => f.day
    case Week => f.week
    case Month => f.month
    case Year => f.year
  }

  predicate PositiveFactors(f: ViewFactors)
  {
    f.day > 0 && f.week > 0 && f.month > 0 && f.year > 0
  }

  /** The configuration fields the layout reads. */
  datatype GanttConfig = GanttConfig(
    viewMode: ViewMode,
    rowHeight: int,
    headerHeight: int,
    showPlan: bool,
    showActual: bool,
    showRowLines: bool,
    showColLines: bool,
    showTooltip: bool,
    viewFactors: ViewFactors)

  /** A partial configuration as passed to the constructor, updateConfig or setData: None leaves a field as it is. */
  datatype ConfigUpdate = ConfigUpdate(
    viewMode: Option<ViewMode>,
    rowHeight: Option<int>,
    headerHeight: Option<int>,
    showPlan: Option<bool>,
    showActual: Option<bool>,
    showRowLines: Option<bool>,
    showColLines: Option<bool>,
    showTooltip: Option<bool>,
    viewFactors: Option<ViewFactors>)

  function DefaultConfig(): (c: GanttConfig)
    ensures c.viewMode == Month && c.rowHeight == 48 && c.headerHeight == 56
    ensures c.showPlan && c.showActual && c.showRowLines && c.showColLines && c.showTooltip
    ensures c.viewFactors == ViewFactors(80, 20, 15, 6)
  {
    GanttConfig(Month, 48, 56, true, true, true, true, true, ViewFactors(80, 20, 15, 6))
  }

  function Pick<T>(o: Option<T>, current: T): T
  {
    if o.Some? then o.value else current
  }

  /** Object.assign(config, update), and equally { ...defaults, ...update }: the fields the update sets win. */
  function ApplyUpdate(c: GanttConfig, u: ConfigUpdate): (r: GanttConfig)
    ensures u.viewMode.Some? ==> r.viewMode == u.viewMode.value
    ensures u.viewMode.None? ==> r.viewMode == c.viewMode
    ensures u.rowHeight.Some? ==> r.rowHeight == u.rowHeight.value
    ensures u.rowHeight.None? ==> r.rowHeight == c.rowHeight
    ensures u.headerHeight.Some? ==> r.headerHeight == u.headerHeight.value
    ensures u.headerHeight.None? ==> r.headerHeight == c.headerHeight
    ensures u.showPlan.Some? ==> r.showPlan == u.showPlan.value
    ensures u.showPlan.None? ==> r.showPlan == c.showPlan
    ensures u.showActual.Some? ==> r.showActual == u.showActual.value
    ensures u.showActual.None? ==> r.showActual == c.showActual
    ensures u.showRowLines.Some? ==> r.showRowLines == u.showRowLines.value
    ensures u.showRowLines.None? ==> r.showRowLines == c.showRowLines
    ensures u.showColLines.Some? ==> r.showColLines == u.showColLines.value
    ensures u.showColLines.None? ==> r.showColLines == c.showColLines
    ensures u.showTooltip.Some? ==> r.showTooltip == u.showTooltip.value
    ensures u.showTooltip.None? ==> r.showTooltip == c.showTooltip
    ensures u.viewFactors.Some? ==> r.viewFactors == u.viewFactors.value
    ensures u.viewFactors.None? ==> r.viewFactors == c.viewFactors
  {
    GanttConfig(
      Pick(u.viewMode, c.viewMode),
      Pick(u.rowHeight, c.rowHeight),
      Pick(u.headerHeight, c.headerHeight),
      Pick(u.showPlan, c.showPlan),
      Pick(u.showActual, c.showActual),
      Pick(u.showRowLines, c.showRowLines),
      Pick(u.showColLines, c.showColLines),
      Pick(u.showTooltip, c.showTooltip),
      Pick(u.viewFactors, c.viewFactors))
  }

  /** The update that sets nothing. */
  function NoUpdate(): ConfigUpdate
  {
    ConfigUpdate(None, None, None, None, None, None, None, None, None)
  }

  /** Applying an update twice is applying it once, and the empty update changes nothing. */
  lemma ApplyUpdateIdempotent(c: GanttConfig, u: ConfigUpdate)
    ensures ApplyUpdate(ApplyUpdate(c, u), u) == ApplyUpdate(c, u)
    ensures ApplyUpdate(c, NoUpdate()) == c
  {
  }

  /** A configuration the layout can divide by. */
  predicate ValidConfig(c: GanttConfig)
  {
    c.rowHeight > 0 && PositiveFactors(c.viewFactors)
  }

  /** A JavaScript number that may be NaN, as the plan coordinates of a task without plan dates are. */
  datatype Coord = Num(v: real) | NaN

  /** TaskPosition: the cached geometry of one task. */
  datatype TaskPosition = TaskPosition(
    xPlanStart: Coord,
    xPlanEnd: Coord,
    xActualStart: Option<real>,
    xActualEnd: Option<real>,
    y: real,
    row: int)

  /** A value of taskMap: the row index and the task. */
  datatype TaskEntry = TaskEntry(row: int, task: Task)
}
