/**
 * What calculateFullTimeline (src/core/ganttChart.ts:210-259) computes:
 * the earliest start and the latest end over the indexed tasks, starting
 * from the sentinels 9999-01-01 and 1000-01-01; a buffer of 7 days before
 * and 14 days after, with the current year standing in for an earliest
 * date still in year 9999 or a latest date still in year 1000 (the latter
 * also when a real task end in year 1000 replaced the sentinel); and the
 * snapping of both ends to the view mode's unit.
 */
module Timeline {
  import opened Wrappers
  import opened Calendar
  import opened DateUtils
  import opened GanttTypes
  import opened Layout

  const MinSentinelYear: int := 9999
  const MaxSentinelYear: int := 1000

  /** new Date(9999, 0, 1): the fold's starting point for the earliest date. */
  function MinSentinel(): int { NewDate(MinSentinelYear, 0, 1) }

  /** new Date(1000, 0, 1): the fold's starting point for the latest date. */
  function MaxSentinel(): int { NewDate(MaxSentinelYear, 0, 1) }

  /** The two sentinels as day numbers (SentinelDays), so that contracts mentioning them need not evaluate the calendar. */
  const MinSentinelDay: int := 2932532
  const MaxSentinelDay: int := -354285

  lemma SentinelDays()
    ensures MinSentinel() == MinSentinelDay && MaxSentinel() == MaxSentinelDay
  {
    MinSentinelValue();
    MaxSentinelValue();
  }

  lemma MinSentinelValue()
    ensures MinSentinel() == MinSentinelDay
  {
    assert MinSentinel() == MonthStart(12 * 9999);
    assert 119988 / 12 == 9999 && 119988 % 12 == 0;
    assert MonthStart(12 * 9999) == DayFromYmd(9999, 1, 1);
    assert 9998 / 4 == 2499 && 9998 / 100 == 99 && 9998 / 400 == 24;
    assert DaysBeforeYear(9999) == 3651694;
  }

  lemma MaxSentinelValue()
    ensures MaxSentinel() == MaxSentinelDay
  {
    assert MaxSentinel() == MonthStart(12 * 1000);
    assert 12000 / 12 == 1000 && 12000 % 12 == 0;
    assert MonthStart(12 * 1000) == DayFromYmd(1000, 1, 1);
    assert 999 / 4 == 249 && 999 / 100 == 9 && 999 / 400 == 2;
    assert DaysBeforeYear(1000) == 364877;
  }

  /** The dates the earliest-date fold compares: the plan start, and the actual start when there is one. */
  predicate IsStartDate(d: int, t: Task)
  {
    t.planStart == Some(d) || t.actualStart == Some(d)
  }

  /** The dates the latest-date fold compares: the plan end, and the actual end when there is an actual start. */
  predicate IsEndDate(d: int, t: Task)
  {
    t.planEnd == Some(d) || (t.actualStart.Some? && t.actualEnd == Some(d))
  }

  /** lo is the smallest of init and the start dates of the tasks of m under the keys ks. */
  ghost predicate EarliestOver(lo: int, init: int, m: map<string, TaskEntry>, ks: set<string>)
  {
    && lo <= init
    && (forall id, d :: id in ks && id in m && IsStartDate(d, m[id].task) ==> lo <= d)
    && (lo == init || exists id :: id in ks && id in m && IsStartDate(lo, m[id].task))
  }

  /** hi is the largest of init and the end dates of the tasks of m under the keys ks. */
  ghost predicate LatestOver(hi: int, init: int, m: map<string, TaskEntry>, ks: set<string>)
  {
    && hi >= init
    && (forall id, d :: id in ks && id in m && IsEndDate(d, m[id].task) ==> hi >= d)
    && (hi == init || exists id :: id in ks && id in m && IsEndDate(hi, m[id].task))
  }

  /** One step of the earliest-date fold: planStart, then actualStart, replaces lo when it is earlier. */
  function FoldStart(lo: int, t: Task): int
  {
    var a := if t.planStart.Some? && t.planStart.value < lo then t.planStart.value else lo;
    if t.actualStart.Some? && t.actualStart.value < a then t.actualStart.value else a
  }

  /** One step of the latest-date fold: planEnd, then actualEnd when there is an actual start, replaces hi when it is later. */
  function FoldEnd(hi: int, t: Task): int
  {
    var a := if t.planEnd.Some? && t.planEnd.value > hi then t.planEnd.value else hi;
    if t.actualStart.Some? && t.actualEnd.Some? && t.actualEnd.value > a then t.actualEnd.value else a
  }

  /** Folding one more task's dates keeps lo the earliest date seen. */
  lemma EarliestStep(lo: int, init: int, m: map<string, TaskEntry>, ks: set<string>, id: string)
    requires EarliestOver(lo, init, m, ks) && id in m
    ensures EarliestOver(FoldStart(lo, m[id].task), init, m, ks + {id})
  {
    var lo' := FoldStart(lo, m[id].task);
    if lo' != lo {
      assert IsStartDate(lo', m[id].task);
    } else if lo != init {
      var w :| w in ks && w in m && IsStartDate(lo, m[w].task);
      assert w in ks + {id};
    }
  }

  /** Folding one more task's dates keeps hi the latest date seen. */
  lemma LatestStep(hi: int, init: int, m: map<string, TaskEntry>, ks: set<string>, id: string)
    requires LatestOver(hi, init, m, ks) && id in m
    ensures LatestOver(FoldEnd(hi, m[id].task), init, m, ks + {id})
  {
    var hi' := FoldEnd(hi, m[id].task);
    if hi' != hi {
      assert IsEndDate(hi', m[id].task);
    } else if hi != init {
      var w :| w in ks && w in m && IsEndDate(hi, m[w].task);
      assert w in ks + {id};
    }
  }

  /** The earliest and the latest date are determined by the tasks: the folds' order does not matter. */
  lemma FoldsAreUnique(lo1: int, lo2: int, hi1: int, hi2: int, m: map<string, TaskEntry>)
    requires EarliestOver(lo1, MinSentinel(), m, m.Keys) && EarliestOver(lo2, MinSentinel(), m, m.Keys)
    requires LatestOver(hi1, MaxSentinel(), m, m.Keys) && LatestOver(hi2, MaxSentinel(), m, m.Keys)
    ensures lo1 == lo2 && hi1 == hi2
  {
  }

  /**
   * The range calculateFullTimeline stores as minDate and maxDate for the rows
   * data indexed by m: now and 60 days later without rows, else the fold over
   * the index from the sentinels.
   */
  ghost predicate FullRange(data: GanttData, m: map<string, TaskEntry>, now: int, lo: int, hi: int)
  {
    if |data| == 0 then lo == now && hi == AddDays(now, 60)
    else EarliestOver(lo, MinSentinel(), m, m.Keys) && LatestOver(hi, MaxSentinel(), m, m.Keys)
  }

  /** The rows, their index and the clock determine the range: two ranges of the same inputs are equal. */
  lemma FullRangeUnique(data: GanttData, m: map<string, TaskEntry>, now: int, lo1: int, hi1: int, lo2: int, hi2: int)
    requires FullRange(data, m, now, lo1, hi1) && FullRange(data, m, now, lo2, hi2)
    ensures lo1 == lo2 && hi1 == hi2
  {
    if |data| > 0 {
      FoldsAreUnique(lo1, lo2, hi1, hi2, m);
    }
  }

  /**
   * The two folds of calculateFullTimeline over the keys ks of m, from lo0 and
   * hi0, taking the keys in some order (FoldOverBounds shows the order does
   * not matter).
   */
  ghost function FoldOver(m: map<string, TaskEntry>, ks: set<string>, lo0: int, hi0: int): (int, int)
    decreases ks, 1
  {
    if ks == {} then (lo0, hi0) else FoldPick(m, ks, lo0, hi0)
  }

  /** One step of FoldOver: some key of ks folded last, over the fold of the others. */
  ghost function FoldPick(m: map<string, TaskEntry>, ks: set<string>, lo0: int, hi0: int): (int, int)
    requires ks != {}
    decreases ks, 0
  {
    var id :| id in ks;
    var r := FoldOver(m, ks - {id}, lo0, hi0);
    if id in m then (FoldStart(r.0, m[id].task), FoldEnd(r.1, m[id].task)) else r
  }

  /** minDate and maxDate as calculateFullTimeline sets them: now and 60 days later without rows, else the folds over the index. */
  ghost function FullSpan(data: GanttData, m: map<string, TaskEntry>, now: int): (int, int)
  {
    if |data| == 0 then (now, AddDays(now, 60)) else FoldOver(m, m.Keys, MinSentinelDay, MaxSentinelDay)
  }

  /** The folds give the earliest start and the latest end over the keys folded. */
  lemma {:induction false} FoldOverBounds(m: map<string, TaskEntry>, ks: set<string>, lo0: int, hi0: int)
    ensures EarliestOver(FoldOver(m, ks, lo0, hi0).0, lo0, m, ks) && LatestOver(FoldOver(m, ks, lo0, hi0).1, hi0, m, ks)
    decreases ks
  {
    if ks != {} {
      var id :| id in ks && FoldPick(m, ks, lo0, hi0) ==
        (var r := FoldOver(m, ks - {id}, lo0, hi0); if id in m then (FoldStart(r.0, m[id].task), FoldEnd(r.1, m[id].task)) else r);
      var r := FoldOver(m, ks - {id}, lo0, hi0);
      FoldOverBounds(m, ks - {id}, lo0, hi0);
      assert ks - {id} + {id} == ks;
      if id in m {
        EarliestStep(r.0, lo0, m, ks - {id}, id);
        LatestStep(r.1, hi0, m, ks - {id}, id);
      }
    }
  }

  /** The span is the range of the rows: the characterisation FullRange holds of it. */
  lemma FullSpanIsRange(data: GanttData, m: map<string, TaskEntry>, now: int)
    ensures FullRange(data, m, now, FullSpan(data, m, now).0, FullSpan(data, m, now).1)
  {
    if |data| > 0 {
      SentinelDays();
      FoldOverBounds(m, m.Keys, MinSentinelDay, MaxSentinelDay);
    }
  }

  /** The start of the buffered range: 7 days before the earliest date, or before 1 January of the current year when no task date beat the sentinel. */
  function BufferedStart(lo: int, today: int): int
  {
    AddDays(if FullYear(lo) == MinSentinelYear then NewDate(FullYear(today), 0, 1) else lo, -7)
  }

  /**
   * The end of the buffered range: 14 days after the latest date, or after
   * 1 January of next year when the latest date is in year 1000, which is
   * the sentinel itself or a real task end in that year.
   */
  function BufferedEnd(hi: int, today: int): int
  {
    AddDays(if FullYear(hi) == MaxSentinelYear then NewDate(FullYear(today) + 1, 0, 1) else hi, 14)
  }

  /** timelineStart for the view mode, from the buffered start. */
  function SnapStart(mode: ViewMode, d: int): int
  {
    match mode
    case Year => GetStartOfYear(d)
    case Month => GetStartOfMonth(d)
    case Week => GetStartOfWeek(d)
    case Day => AddDays(d, -3)
  }

  /** timelineEnd for the view mode, from the buffered end. */
  function SnapEnd(mode: ViewMode, d: int): int
  {
    match mode
    case Year => AddDays(AddYears(GetStartOfYear(d), 1), -1)
    case Month => AddDays(AddMonths(GetStartOfMonth(d), 1), -1)
    case Week => AddDays(GetStartOfWeek(d), 7)
    case Day => AddDays(d, 3)
  }

  /** The sentinels are the first days of the years 9999 and 1000. */
  lemma SentinelYears()
    ensures FullYear(MinSentinel()) == MinSentinelYear && FullYear(MaxSentinel()) == MaxSentinelYear
  {
    SameDateLater(MinSentinelYear, 1, 1);
    SameDateLater(MaxSentinelYear, 1, 1);
  }

  /** A day in year y or later is not before 1 January of y. */
  lemma YearStartBound(d: int, y: int)
    requires FullYear(d) >= y
    ensures d >= MonthStart(12 * y)
  {
    CivilParts(d);
    MonthStartsMonotone(12 * y, MonthNumber(d));
    MonthNumberStart(d);
  }

  /** A day in year y or earlier is before 1 January of y + 1. */
  lemma YearEndBound(d: int, y: int)
    requires FullYear(d) <= y
    ensures d < MonthStart(12 * y + 12)
  {
    CivilParts(d);
    MonthNumberStart(d);
    MonthStartsMonotone(MonthNumber(d) + 1, 12 * y + 12);
  }

  /** When the fold's earliest date is in the sentinel's year, no task start beat the sentinel. */
  lemma SentinelYearMeansNoStart(lo: int, m: map<string, TaskEntry>)
    requires EarliestOver(lo, MinSentinel(), m, m.Keys)
    ensures FullYear(lo) == MinSentinelYear <==> lo == MinSentinel()
    ensures FullYear(lo) == MinSentinelYear ==> forall id, d :: id in m && IsStartDate(d, m[id].task) ==> d >= MinSentinel()
  {
    SentinelYears();
    if FullYear(lo) == MinSentinelYear {
      YearStartBound(lo, MinSentinelYear);
      assert MinSentinel() == MonthStart(12 * MinSentinelYear);
    }
  }

  /** 1 January of year y. */
  lemma JanuaryFirst(y: int)
    ensures ToCivil(MonthStart(12 * y)) == Civil(y, 1, 1)
  {
    assert (12 * y) / 12 == y && (12 * y) % 12 == 0;
    ToCivilOfMonthStart(12 * y);
  }

  /** One year after 1 January of y is 1 January of y + 1. */
  lemma NextJanuary(s: int, y: int)
    requires ToCivil(s) == Civil(y, 1, 1)
    ensures AddYears(s, 1) == MonthStart(12 * y + 12)
  {
    assert AddYears(s, 1) == MakeDay(y + 1, 0, 1);
  }

  /** One month after the first of month t is the first of month t + 1. */
  lemma NextMonthStart(t: int)
    ensures AddMonths(MonthStart(t), 1) == MonthStart(t + 1)
  {
    MonthStartFacts(t);
  }

  /** The month count of getStartOfMonth(d), which is d's own unless the two-digit-year rule moves it on. */
  function StartMonthCount(d: int): (t: int)
    ensures GetStartOfMonth(d) == MonthStart(t) && MonthNumber(d) <= t
  {
    12 * (if TwoDigitYear(FullYear(d)) then 1900 + FullYear(d) else FullYear(d)) + MonthIndex(d)
  }

  /** The last day of the month of d's start of month is not before d. */
  lemma MonthEndCovers(d: int)
    ensures AddDays(AddMonths(GetStartOfMonth(d), 1), -1) >= d
  {
    var t := StartMonthCount(d);
    NextMonthStart(t);
    MonthNumberStart(d);
    MonthStartsMonotone(MonthNumber(d) + 1, t + 1);
    AddDaysShifts(MonthStart(t + 1), -1);
  }

  /** The last day of the year of d's start of year is not before d. */
  lemma YearEndCovers(d: int)
    ensures AddDays(AddYears(GetStartOfYear(d), 1), -1) >= d
  {
    var y := if TwoDigitYear(FullYear(d)) then 1900 + FullYear(d) else FullYear(d);
    var s := GetStartOfYear(d);
    assert s == MonthStart(12 * y);
    JanuaryFirst(y);
    NextJanuary(s, y);
    YearEndBound(d, y);
    AddDaysShifts(AddYears(s, 1), -1);
  }

  /** timelineEnd is never before the buffered end, whatever the view mode. */
  lemma SnapEndCovers(mode: ViewMode, d: int)
    ensures SnapEnd(mode, d) >= d
  {
    match mode
    case Day =>
      AddDaysShifts(d, 3);
    case Week =>
      StartOfWeekNotEarlier(d);
      AddDaysShifts(GetStartOfWeek(d), 7);
    case Month =>
      MonthEndCovers(d);
    case Year =>
      YearEndCovers(d);
  }

  /**
   * timelineStart is never after the buffered start when that start rebuilds
   * from its parts; in the Month view it is a first of month, in the Year
   * view a 1 January, and in the Week view a Monday.
   */
  lemma SnapStartCovers(mode: ViewMode, d: int)
    requires Rebuildable(d) && Rebuildable(WeekMonday(d))
    ensures SnapStart(mode, d) <= d
    ensures mode == Month ==> DayOfMonth(SnapStart(mode, d)) == 1
    ensures mode == Year ==> MonthIndex(SnapStart(mode, d)) == 0 && DayOfMonth(SnapStart(mode, d)) == 1
    ensures mode == Week ==> IsoWeekday(SnapStart(mode, d)) == 1
  {
    match mode
    case Day =>
      AddDaysShifts(d, -3);
    case Week =>
      StartOfWeekFacts(d);
    case Month =>
      StartOfMonthFacts(d);
      StartOfMonthIsFirst(d);
    case Year =>
      StartOfYearFacts(d);
      StartOfYearIsJanuaryFirst(d);
  }

  /**
   * The start side on its own: once some task start beats the sentinel,
   * every start date of an indexed task is at least 7 days after
   * timelineStart, whatever the end dates are.
   */
  lemma StartCoversTasks(mode: ViewMode, m: map<string, TaskEntry>, lo: int, today: int)
    requires EarliestOver(lo, MinSentinel(), m, m.Keys)
    requires FullYear(lo) != MinSentinelYear
    requires Rebuildable(lo - 7) && Rebuildable(WeekMonday(lo - 7))
    ensures BufferedStart(lo, today) == lo - 7
    ensures forall id, d :: id in m && IsStartDate(d, m[id].task) ==> SnapStart(mode, BufferedStart(lo, today)) <= d - 7
  {
    AddDaysShifts(lo, -7);
    SnapStartCovers(mode, lo - 7);
  }

  /**
   * A latest date in year 1000, sentinel or real task end, is replaced by
   * 1 January of next year; from the year 1000 on that still lies after
   * every indexed end date, so the ends stay covered.
   */
  lemma EndInSentinelYearCovers(mode: ViewMode, m: map<string, TaskEntry>, hi: int, today: int)
    requires LatestOver(hi, MaxSentinel(), m, m.Keys)
    requires FullYear(hi) == MaxSentinelYear && FullYear(today) >= MaxSentinelYear
    ensures BufferedEnd(hi, today) == NewDate(FullYear(today) + 1, 0, 1) + 14
    ensures forall id, d :: id in m && IsEndDate(d, m[id].task) ==> SnapEnd(mode, BufferedEnd(hi, today)) >= d + 14
  {
    EndFallback(hi, today);
    BeforeLaterJanuary(hi, FullYear(today) + 1);
    SnapEndCovers(mode, BufferedEnd(hi, today));
  }

  /** A day in year 1000 is before 1 January of any later year. */
  lemma BeforeLaterJanuary(d: int, y: int)
    requires FullYear(d) == MaxSentinelYear && y > MaxSentinelYear
    ensures d < NewDate(y, 0, 1)
  {
    YearEndBound(d, MaxSentinelYear);
    assert NewDate(y, 0, 1) == MonthStart(12 * y);
    MonthStartsMonotone(12 * MaxSentinelYear + 12, 12 * y);
  }

  /**
   * The end side on its own: every end date of an indexed task is at least
   * 14 days before timelineEnd, whatever the start dates are. The buffer is
   * taken from the latest date unless that is in year 1000, where the
   * current year stands in; from the year 1000 on that covers the ends too.
   */
  lemma EndCoversTasks(mode: ViewMode, m: map<string, TaskEntry>, hi: int, today: int)
    requires LatestOver(hi, MaxSentinel(), m, m.Keys)
    requires FullYear(hi) == MaxSentinelYear ==> FullYear(today) >= MaxSentinelYear
    ensures FullYear(hi) != MaxSentinelYear ==> BufferedEnd(hi, today) == hi + 14
    ensures FullYear(hi) == MaxSentinelYear ==> BufferedEnd(hi, today) == NewDate(FullYear(today) + 1, 0, 1) + 14
    ensures forall id, d :: id in m && IsEndDate(d, m[id].task) ==> SnapEnd(mode, BufferedEnd(hi, today)) >= d + 14
  {
    if FullYear(hi) == MaxSentinelYear {
      EndInSentinelYearCovers(mode, m, hi, today);
    } else {
      AddDaysShifts(hi, 14);
      SnapEndCovers(mode, hi + 14);
    }
  }

  /** Both sides together: with a task start beating its sentinel, the timeline covers every indexed date with its buffers. */
  lemma TimelineCoversTasks(mode: ViewMode, m: map<string, TaskEntry>, lo: int, hi: int, today: int)
    requires EarliestOver(lo, MinSentinel(), m, m.Keys) && LatestOver(hi, MaxSentinel(), m, m.Keys)
    requires FullYear(lo) != MinSentinelYear
    requires FullYear(hi) == MaxSentinelYear ==> FullYear(today) >= MaxSentinelYear
    requires Rebuildable(lo - 7) && Rebuildable(WeekMonday(lo - 7))
    ensures BufferedStart(lo, today) == lo - 7
    ensures FullYear(hi) != MaxSentinelYear ==> BufferedEnd(hi, today) == hi + 14
    ensures forall id, d :: id in m && IsStartDate(d, m[id].task) ==> SnapStart(mode, BufferedStart(lo, today)) <= d - 7
    ensures forall id, d :: id in m && IsEndDate(d, m[id].task) ==> SnapEnd(mode, BufferedEnd(hi, today)) >= d + 14
  {
    StartCoversTasks(mode, m, lo, today);
    EndCoversTasks(mode, m, hi, today);
  }

  /** With no task start beating its sentinel, the buffered start is 7 days before 1 January of the current year, whatever the end side holds. */
  lemma StartFallback(lo: int, today: int)
    requires FullYear(lo) == MinSentinelYear
    ensures BufferedStart(lo, today) == NewDate(FullYear(today), 0, 1) - 7
  {
    AddDaysShifts(NewDate(FullYear(today), 0, 1), -7);
  }

  /** With maxDate in year 1000, the sentinel or a real task end in that year, the buffered end is 14 days after 1 January of next year, whatever the start side holds. */
  lemma EndFallback(hi: int, today: int)
    requires FullYear(hi) == MaxSentinelYear
    ensures BufferedEnd(hi, today) == NewDate(FullYear(today) + 1, 0, 1) + 14
  {
    AddDaysShifts(NewDate(FullYear(today) + 1, 0, 1), 14);
  }

  /** With minDate in year 9999 and maxDate in year 1000, the buffered range runs from 7 days before this year to 14 days into the next. */
  lemma TimelineFallback(lo: int, hi: int, today: int)
    requires FullYear(lo) == MinSentinelYear && FullYear(hi) == MaxSentinelYear
    ensures BufferedStart(lo, today) == NewDate(FullYear(today), 0, 1) - 7
    ensures BufferedEnd(hi, today) == NewDate(FullYear(today) + 1, 0, 1) + 14
  {
    StartFallback(lo, today);
    EndFallback(hi, today);
  }
}
