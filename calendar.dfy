/**
 * The proleptic Gregorian calendar on day numbers. Day 0 is 1970-01-01, the
 * day of JavaScript's time value 0; a Date at local midnight is identified
 * with its day number (time of day and time zones are not modelled).
 * DayFromYmd and ToCivil are mutually inverse (ToCivilCorrect, ToCivilOfDay).
 */
module Calendar {
  /** Days from 0001-01-01 to 1970-01-01. */
  const EpochOffset: int := 719162

  predicate IsLeapYear(y: int) { y % 4 == 0 && (y % 100 != 0 || y % 400 == 0) }

  function YearLength(y: int): int { if IsLeapYear(y) then 366 else 365 }

  function MonthLength(y: int, m: int): (n: int)
    requires 1 <= m <= 12
    ensures 28 <= n <= 31
  {
    if m == 2 then (if IsLeapYear(y) then 29 else 28)
    else if m == 4 || m == 6 || m == 9 || m == 11 then 30
    else 31
  }

  /** Days of year y before the first of month m; DaysBeforeMonth(y, 13) is the length of the year. */
  function DaysBeforeMonth(y: int, m: int): (r: int)
    requires 1 <= m <= 13
    ensures 0 <= r
  {
    if m == 1 then 0 else DaysBeforeMonth(y, m - 1) + MonthLength(y, m - 1)
  }

  /** Days from 0001-01-01 to January 1 of year y. */
  function DaysBeforeYear(y: int): int
  {
    var a := y - 1;
    365 * a + a / 4 - a / 100 + a / 400
  }

  /** The day number of day d of month m (1 = January) of year y. */
  function DayFromYmd(y: int, m: int, d: int): int
    requires 1 <= m <= 12
  {
    DaysBeforeYear(y) + DaysBeforeMonth(y, m) + d - 1 - EpochOffset
  }

  datatype Civil = Civil(year: int, month: int, day: int)

  predicate ValidCivil(c: Civil)
  {
    1 <= c.month <= 12 && 1 <= c.day <= MonthLength(c.year, c.month)
  }

  /** The last month among 1..m that starts on or before day doy of year y. */
  function MonthOfDayOfYear(y: int, doy: int, m: int): (r: int)
    requires 0 <= doy && 1 <= m <= 12
    ensures 1 <= r <= m && DaysBeforeMonth(y, r) <= doy
    ensures r < m ==> doy < DaysBeforeMonth(y, r + 1)
    decreases m
  {
    if m == 1 || DaysBeforeMonth(y, m) <= doy then m else MonthOfDayOfYear(y, doy, m - 1)
  }

  /** A day count from 0001-01-01 split into 400-, 100-, 4- and 1-year blocks and a day of the year. */
  datatype YearSplit = YearSplit(n400: int, n100: int, n4: int, n1: int, doy: int)

  function SplitDays(n: int): YearSplit
  {
    var n400 := n / 146097;
    var r400 := n % 146097;
    var n100 := if r400 / 36524 == 4 then 3 else r400 / 36524;
    var r100 := r400 - 36524 * n100;
    var n4 := r100 / 1461;
    var r4 := r100 % 1461;
    var n1 := if r4 / 365 == 4 then 3 else r4 / 365;
    YearSplit(n400, n100, n4, n1, r4 - 365 * n1)
  }

  function SplitYear(s: YearSplit): int
  {
    400 * s.n400 + 100 * s.n100 + 4 * s.n4 + s.n1 + 1
  }

  lemma SplitDaysFacts(n: int)
    ensures var s := SplitDays(n);
      && 0 <= s.n100 <= 3 && 0 <= s.n4 <= 24 && 0 <= s.n1 <= 3 && 0 <= s.doy <= 365
      && n == 146097 * s.n400 + 36524 * s.n100 + 1461 * s.n4 + 365 * s.n1 + s.doy
      && (s.doy == 365 ==> s.n1 == 3 && (s.n4 == 24 ==> s.n100 == 3))
  {
  }

  /** How far day number z lies before 0001-01-01 (0 from that day on). */
  function EraMeasure(z: int): nat
  {
    if z + EpochOffset < 0 then -(z + EpochOffset) else 0
  }

  /** Year, month (1 = January) and day of the month of day number z. */
  function ToCivil(z: int): Civil
    decreases EraMeasure(z), 1
  {
    CivilFrom(z)
  }

  /**
   * The conversion itself. A day before 0001-01-01 is converted 146097 days
   * (400 Gregorian years, one full cycle) later and moved back 400 years.
   */
  function CivilFrom(z: int): Civil
    decreases EraMeasure(z), 0
  {
    if z + EpochOffset < 0 then
      var c := ToCivil(z + 146097);
      Civil(c.year - 400, c.month, c.day)
    else
      var s := SplitDays(z + EpochOffset);
      var y := SplitYear(s);
      var doy := if 0 <= s.doy then s.doy else 0;
      var m := MonthOfDayOfYear(y, doy, 12);
      Civil(y, m, doy - DaysBeforeMonth(y, m) + 1)
  }

  lemma {:induction false} DaysBeforeMonthCycle(y: int, m: int)
    requires 1 <= m <= 13
    ensures DaysBeforeMonth(y - 400, m) == DaysBeforeMonth(y, m)
    decreases m
  {
    if m > 1 {
      DaysBeforeMonthCycle(y, m - 1);
      LeapCycle(y);
      assert MonthLength(y - 400, m - 1) == MonthLength(y, m - 1);
    }
  }

  /** Leap years repeat every 400 years. */
  lemma LeapCycle(y: int)
    ensures IsLeapYear(y - 400) == IsLeapYear(y)
  {
    assert (y - 400) % 4 == y % 4;
    assert (y - 400) % 100 == y % 100;
    assert (y - 400) % 400 == y % 400;
  }

  /** The calendar repeats every 400 years, which are 146097 days. */
  lemma CycleShift(c: Civil)
    requires ValidCivil(c)
    ensures ValidCivil(Civil(c.year - 400, c.month, c.day))
    ensures DayFromYmd(c.year - 400, c.month, c.day) == DayFromYmd(c.year, c.month, c.day) - 146097
  {
    var a := c.year - 1;
    assert (a - 400) / 4 == a / 4 - 100;
    assert (a - 400) / 100 == a / 100 - 4;
    assert (a - 400) / 400 == a / 400 - 1;
    LeapCycle(c.year);
    DaysBeforeMonthCycle(c.year, c.month);
  }

  lemma YearSpan(y: int)
    ensures DaysBeforeMonth(y, 12) + 31 == YearLength(y)
  {
    assert DaysBeforeMonth(y, 2) == 31;
    assert DaysBeforeMonth(y, 4) == DaysBeforeMonth(y, 3) + 31;
    assert DaysBeforeMonth(y, 6) == DaysBeforeMonth(y, 5) + 31;
    assert DaysBeforeMonth(y, 8) == DaysBeforeMonth(y, 7) + 31;
    assert DaysBeforeMonth(y, 10) == DaysBeforeMonth(y, 9) + 30;
    assert DaysBeforeMonth(y, 12) == DaysBeforeMonth(y, 11) + 30;
  }

  lemma DaysBeforeYearOf(n400: int, n100: int, n4: int, n1: int)
    requires 0 <= n100 <= 3 && 0 <= n4 <= 24 && 0 <= n1 <= 3
    ensures DaysBeforeYear(400 * n400 + 100 * n100 + 4 * n4 + n1 + 1)
         == 146097 * n400 + 36524 * n100 + 1461 * n4 + 365 * n1
  {
    var a := 400 * n400 + 100 * n100 + 4 * n4 + n1;
    assert a / 4 == 100 * n400 + 25 * n100 + n4;
    assert a / 100 == 4 * n400 + n100;
    assert a / 400 == n400;
  }

  lemma SplitWithinYear(s: YearSplit)
    requires 0 <= s.n100 <= 3 && 0 <= s.n4 <= 24 && 0 <= s.n1 <= 3 && 0 <= s.doy <= 365
    requires s.doy == 365 ==> s.n1 == 3 && (s.n4 == 24 ==> s.n100 == 3)
    ensures s.doy < YearLength(SplitYear(s))
  {
    var y := SplitYear(s);
    if s.doy == 365 {
      var k := 100 * s.n400 + 25 * s.n100 + s.n4 + 1;
      assert y == 4 * k;
      assert y % 4 == 0;
      if s.n4 == 24 {
        assert y == 400 * (s.n400 + 1);
      } else {
        assert y == 100 * (4 * s.n400 + s.n100) + 4 * (s.n4 + 1);
        assert y % 100 != 0;
      }
    }
  }

  lemma CivilOfDayOfYear(y: int, doy: int)
    requires 0 <= doy < YearLength(y)
    ensures var m := MonthOfDayOfYear(y, doy, 12);
      ValidCivil(Civil(y, m, doy - DaysBeforeMonth(y, m) + 1))
  {
    var m := MonthOfDayOfYear(y, doy, 12);
    if m == 12 { YearSpan(y); }
  }

  lemma {:induction false} ToCivilCorrect(z: int)
    ensures ValidCivil(ToCivil(z))
    ensures DayFromYmd(ToCivil(z).year, ToCivil(z).month, ToCivil(z).day) == z
    decreases EraMeasure(z)
  {
    assert ToCivil(z) == CivilFrom(z);
    if z + EpochOffset < 0 {
      ToCivilCorrect(z + 146097);
      CycleShift(ToCivil(z + 146097));
    } else {
      CivilFromCorrect(z);
    }
  }

  lemma CivilFromCorrect(z: int)
    requires z + EpochOffset >= 0
    ensures ValidCivil(CivilFrom(z))
    ensures DayFromYmd(CivilFrom(z).year, CivilFrom(z).month, CivilFrom(z).day) == z
  {
    var s := SplitDays(z + EpochOffset);
    SplitDaysFacts(z + EpochOffset);
    DaysBeforeYearOf(s.n400, s.n100, s.n4, s.n1);
    SplitWithinYear(s);
    CivilOfYearDay(SplitYear(s), s.doy, z);
  }

  /** The civil date of day doy of year y: valid, and back at the same day number. */
  lemma CivilOfYearDay(y: int, doy: int, z: int)
    requires 0 <= doy < YearLength(y) && DaysBeforeYear(y) + doy == z + EpochOffset
    ensures var m := MonthOfDayOfYear(y, doy, 12);
      && ValidCivil(Civil(y, m, doy - DaysBeforeMonth(y, m) + 1))
      && DayFromYmd(y, m, doy - DaysBeforeMonth(y, m) + 1) == z
  {
    CivilOfDayOfYear(y, doy);
  }

  lemma DaysBeforeYearStep(y: int)
    ensures DaysBeforeYear(y + 1) == DaysBeforeYear(y) + YearLength(y)
  {
    QuarterStep(y);
    CenturyStep(y);
    QuadCenturyStep(y);
  }

  lemma QuarterStep(y: int)
    ensures y / 4 == (y - 1) / 4 + (if y % 4 == 0 then 1 else 0)
  {
  }

  lemma CenturyStep(y: int)
    ensures y / 100 == (y - 1) / 100 + (if y % 100 == 0 then 1 else 0)
  {
  }

  lemma QuadCenturyStep(y: int)
    ensures y / 400 == (y - 1) / 400 + (if y % 400 == 0 then 1 else 0)
  {
  }

  lemma {:induction false} DaysBeforeYearMonotone(a: int, b: int)
    requires a < b
    ensures DaysBeforeYear(a) + YearLength(a) <= DaysBeforeYear(b)
    decreases b - a
  {
    DaysBeforeYearStep(a);
    if a + 1 < b {
      DaysBeforeYearMonotone(a + 1, b);
    }
  }

  lemma {:induction false} MonthsOrdered(y: int, m1: int, m2: int)
    requires 1 <= m1 < m2 <= 13
    ensures DaysBeforeMonth(y, m1) + MonthLength(y, m1) <= DaysBeforeMonth(y, m2)
    decreases m2 - m1
  {
    if m1 + 1 < m2 {
      MonthsOrdered(y, m1 + 1, m2);
    }
  }

  lemma DayOfYearBounds(c: Civil)
    requires ValidCivil(c)
    ensures 0 <= DaysBeforeMonth(c.year, c.month) + c.day - 1 < YearLength(c.year)
  {
    MonthsOrdered(c.year, c.month, 13);
    YearSpan(c.year);
  }

  lemma DayFromYmdInjective(c1: Civil, c2: Civil)
    requires ValidCivil(c1) && ValidCivil(c2)
    requires DayFromYmd(c1.year, c1.month, c1.day) == DayFromYmd(c2.year, c2.month, c2.day)
    ensures c1 == c2
  {
    DayOfYearBounds(c1);
    DayOfYearBounds(c2);
    if c1.year < c2.year {
      DaysBeforeYearMonotone(c1.year, c2.year);
    } else if c2.year < c1.year {
      DaysBeforeYearMonotone(c2.year, c1.year);
    } else if c1.month < c2.month {
      MonthsOrdered(c1.year, c1.month, c2.month);
    } else if c2.month < c1.month {
      MonthsOrdered(c1.year, c2.month, c1.month);
    }
  }

  lemma ToCivilOfDay(c: Civil)
    requires ValidCivil(c)
    ensures ToCivil(DayFromYmd(c.year, c.month, c.day)) == c
  {
    var z := DayFromYmd(c.year, c.month, c.day);
    ToCivilCorrect(z);
    DayFromYmdInjective(ToCivil(z), c);
  }

  /** JavaScript's MakeDay: a year, a month index of any size (0 = January) and a day of the month of any size. */
  function MakeDay(year: int, monthIndex: int, date: int): int
  {
    MonthStart(12 * year + monthIndex) + date - 1
  }

  /** The first day of the month numbered t, counting months from January of year 0. */
  function MonthStart(t: int): int
  {
    DayFromYmd(t / 12, t % 12 + 1, 1)
  }

  predicate TwoDigitYear(y: int) { 0 <= y <= 99 }

  /** new Date(year, monthIndex, date) and Date.UTC(year, monthIndex, date): years 0 to 99 mean 1900 to 1999. */
  function NewDate(year: int, monthIndex: int, date: int): int
  {
    MakeDay(if TwoDigitYear(year) then 1900 + year else year, monthIndex, date)
  }

  /** Date.prototype.getDay: 0 is Sunday; day 0 (1970-01-01) was a Thursday. */
  function Weekday(z: int): int { (z + 4) % 7 }

  lemma ToCivilOfMonthStart(t: int)
    ensures ToCivil(MonthStart(t)) == Civil(t / 12, t % 12 + 1, 1)
  {
    ToCivilOfDay(Civil(t / 12, t % 12 + 1, 1));
  }

  lemma ToCivilOfMakeDay(year: int, monthIndex: int)
    ensures ToCivil(MakeDay(year, monthIndex, 1)) == Civil(year + monthIndex / 12, monthIndex % 12 + 1, 1)
  {
    var t := 12 * year + monthIndex;
    ToCivilOfMonthStart(t);
    assert t / 12 == year + monthIndex / 12 && t % 12 == monthIndex % 12;
  }

  lemma MonthStartOfCivil(c: Civil)
    requires 1 <= c.month <= 12
    ensures MonthStart(12 * c.year + c.month - 1) + c.day - 1 == DayFromYmd(c.year, c.month, c.day)
  {
    var t := 12 * c.year + c.month - 1;
    assert t / 12 == c.year && t % 12 == c.month - 1;
  }

  lemma MonthStartStep(t: int)
    ensures MonthStart(t + 1) == MonthStart(t) + MonthLength(t / 12, t % 12 + 1)
  {
    var y := t / 12;
    if t % 12 < 11 {
      assert (t + 1) / 12 == y && (t + 1) % 12 == t % 12 + 1;
    } else {
      assert (t + 1) / 12 == y + 1 && (t + 1) % 12 == 0;
      DaysBeforeYearStep(y);
      YearSpan(y);
    }
  }

  lemma MonthStartsMonotone(t1: int, t2: int)
    requires t1 <= t2
    ensures MonthStart(t1) <= MonthStart(t2)
  {
    if t1 < t2 {
      MonthStartsIncrease(t1, t2);
    }
  }

  lemma {:induction false} MonthStartsIncrease(t1: int, t2: int)
    requires t1 < t2
    ensures MonthStart(t1) + 28 <= MonthStart(t2)
    decreases t2 - t1
  {
    MonthStartStep(t1);
    if t1 + 1 < t2 {
      MonthStartsIncrease(t1 + 1, t2);
    }
  }

  lemma YearBounds(z: int)
    ensures DayFromYmd(ToCivil(z).year, 1, 1) <= z < DayFromYmd(ToCivil(z).year + 1, 1, 1)
  {
    ToCivilCorrect(z);
    var c := ToCivil(z);
    DayOfYearBounds(c);
    DaysBeforeYearStep(c.year);
  }

  lemma YearOfBetween(z: int, y: int)
    requires DayFromYmd(y, 1, 1) <= z < DayFromYmd(y + 1, 1, 1)
    ensures ToCivil(z).year == y
  {
    YearBounds(z);
    var y' := ToCivil(z).year;
    if y' < y {
      DaysBeforeYearMonotone(y', y);
      DaysBeforeYearStep(y');
    } else if y < y' {
      DaysBeforeYearMonotone(y, y');
      DaysBeforeYearStep(y);
    }
  }
}
