/**
 * The static helpers of the DateUtils class (src/core/dateUtils.ts) on day
 * numbers. Each helper builds a JavaScript Date and moves it with a setter
 * (setDate, setMonth, setFullYear, setHours) or rebuilds it with the
 * constructor; the setters use the date's own year while the constructor and
 * Date.UTC read years 0 to 99 as 1900 to 1999 (Calendar.NewDate), which is
 * why several lemmas below exclude those years.
 */
module DateUtils {
  import opened Calendar

  /** DateUtils.ONE_DAY_MS. */
  const OneDayMs: int := 24 * 60 * 60 * 1000

  /** Date.prototype.getFullYear. */
  function FullYear(d: int): int { ToCivil(d).year }

  /** Date.prototype.getMonth: 0 is January. */
  function MonthIndex(d: int): int { ToCivil(d).month - 1 }

  /** Date.prototype.getDate. */
  function DayOfMonth(d: int): int { ToCivil(d).day }

  /** Months since January of year 0: 12 * getFullYear() + getMonth(). */
  function MonthNumber(d: int): int { 12 * FullYear(d) + MonthIndex(d) }

  /** getDay() || 7: Monday is 1 and Sunday is 7. */
  function IsoWeekday(d: int): (w: int)
    ensures 1 <= w <= 7
    ensures w % 7 == (d + 4) % 7
  {
    if Weekday(d) == 0 then 7 else Weekday(d)
  }

  /** new Date(d.getFullYear(), d.getMonth(), d.getDate()). */
  function Reconstructed(d: int): int
  {
    NewDate(FullYear(d), MonthIndex(d), DayOfMonth(d))
  }

  /**
   * ToIntegerOrInfinity(a / b): the quotient rounded toward zero, that is
   * the count of whole b's in a, taken on a's own side of zero.
   */
  function TruncDiv(a: int, b: int): (q: int)
    requires b > 0
    ensures a >= 0 ==> 0 <= q && q * b <= a < q * b + b
    ensures a < 0 ==> q <= 0 && q * b - b < a <= q * b
  {
    if a >= 0 then
      FloorDivParts(a, b);
      a / b
    else
      FloorDivParts(-a, b);
      var p := (-a) / b;
      assert (-p) * b == -(p * b);
      -p
  }

  /**
   * addDays(date, num / den): setDate(getDate() + num / den). setDate drops
   * the fraction of its argument, rounding toward zero.
   */
  function AddDaysRatio(date: int, num: int, den: int): int
    requires den > 0
  {
    MakeDay(FullYear(date), MonthIndex(date), TruncDiv(DayOfMonth(date) * den + num, den))
  }

  /** addDays(date, days) for a whole number of days. */
  function AddDays(date: int, days: int): int
  {
    AddDaysRatio(date, days, 1)
  }

  /** addMonths: setDate(1), then setMonth(getMonth() + months). */
  function AddMonths(date: int, months: int): int
  {
    MakeDay(FullYear(date), MonthIndex(date) + months, 1)
  }

  /** addYears: setFullYear(getFullYear() + years), keeping month and day. */
  function AddYears(date: int, years: int): int
  {
    MakeDay(FullYear(date) + years, MonthIndex(date), DayOfMonth(date))
  }

  /** diffDays: the rounded difference of the two dates rebuilt at midnight. */
  function DiffDays(date1: int, date2: int): int
  {
    Reconstructed(date2) - Reconstructed(date1)
  }

  function DiffDaysInclusive(date1: int, date2: int): int
  {
    DiffDays(date1, date2) + 1
  }

  /** new Date(year, month + 1, 0).getDate(): day 0 of the next month. */
  function GetDaysInMonth(year: int, month: int): int
  {
    DayOfMonth(NewDate(year, month + 1, 0))
  }

  /** The Thursday of d's Monday-to-Sunday week, as getWeekNumber moves to it. */
  function IsoThursday(d: int): int
  {
    var u := Reconstructed(d);
    AddDays(u, 4 - IsoWeekday(u))
  }

  /** getWeekNumber: ceil(((thursday - yearStart) / ONE_DAY_MS + 1) / 7). */
  function GetWeekNumber(d: int): int
  {
    var t := IsoThursday(d);
    var yearStart := NewDate(FullYear(t), 0, 1);
    (t - yearStart + 1 + 6) / 7
  }

  /** getStartOfWeek before rebuilding: setHours(-24 * (day - 1)) moves day - 1 days back. */
  function WeekMonday(d: int): int
  {
    var day := IsoWeekday(d);
    if day != 1 then d - (day - 1) else d
  }

  function GetStartOfWeek(d: int): int
  {
    Reconstructed(WeekMonday(d))
  }

  function GetStartOfMonth(d: int): int
  {
    NewDate(FullYear(d), MonthIndex(d), 1)
  }

  function GetStartOfYear(d: int): int
  {
    NewDate(FullYear(d), 0, 1)
  }

  /** The first Thursday of year y, in the sense of ISO 8601 week numbering. */
  function FirstThursday(y: int): (t: int)
    ensures DayFromYmd(y, 1, 1) <= t < DayFromYmd(y, 1, 1) + 7
    ensures IsoWeekday(t) == 4
  {
    var jan1 := DayFromYmd(y, 1, 1);
    ThursdayOfWeek(jan1);
    jan1 + (11 - IsoWeekday(jan1)) % 7
  }

  /** From any day, the Thursday of its Monday-to-Sunday week, or of the next one, is fewer than 7 days on. */
  lemma ThursdayOfWeek(j: int)
    ensures var t := j + (11 - IsoWeekday(j)) % 7; j <= t < j + 7 && IsoWeekday(t) == 4
  {
    var r := (j + 4) % 7;
    var k := (11 - IsoWeekday(j)) % 7;
    assert IsoWeekday(j) == if r == 0 then 7 else r;
    assert r + k == 4 || r + k == 11;
    var t := j + k;
    assert t + 4 == 7 * ((j + 4) / 7) + (r + k);
    if r + k == 11 {
      assert t + 4 == 7 * ((j + 4) / 7 + 1) + 4;
    }
    assert (t + 4) % 7 == 4;
  }

  // ----- The getters and the rebuilt date

  /** Moving k days on within the same Monday-to-Sunday week adds k to the weekday. */
  lemma IsoWeekdayAdd(x: int, k: int)
    requires 0 <= k && IsoWeekday(x) + k <= 7
    ensures IsoWeekday(x + k) == IsoWeekday(x) + k
  {
    var r := (x + 4) % 7;
    assert x + k + 4 == 7 * ((x + 4) / 7) + (r + k);
    if r + k < 7 {
      assert (x + k + 4) % 7 == r + k;
    } else {
      assert (x + k + 4) % 7 == 0;
    }
  }

  /** Day numbers of Thursdays are the multiples of 7. */
  lemma ThursdayMultipleOfSeven(x: int)
    requires IsoWeekday(x) == 4
    ensures x == 7 * (x / 7)
  {
  }

  lemma CivilParts(d: int)
    ensures ValidCivil(ToCivil(d))
    ensures 0 <= MonthIndex(d) <= 11 && 1 <= DayOfMonth(d) <= 31
    ensures FullYear(d) == MonthNumber(d) / 12 && MonthIndex(d) == MonthNumber(d) % 12
    ensures MonthStart(MonthNumber(d)) + DayOfMonth(d) - 1 == d
  {
    ToCivilCorrect(d);
    MonthStartOfCivil(ToCivil(d));
  }

  lemma ReconstructedIdentity(d: int)
    requires !TwoDigitYear(FullYear(d))
    ensures Reconstructed(d) == d
  {
    CivilParts(d);
  }

  /** Rebuilding a date never moves it earlier: years 0 to 99 move 1900 years on. */
  lemma ReconstructedNotEarlier(d: int)
    ensures Reconstructed(d) >= d
  {
    var c := ToCivil(d);
    CivilParts(d);
    if TwoDigitYear(c.year) {
      var later := Civil(c.year + 1900, c.month, c.day);
      MonthStartOfCivil(later);
      assert Reconstructed(d) == DayFromYmd(later.year, later.month, later.day);
      DayOfYearBounds(c);
      DaysBeforeYearStep(c.year);
      DaysBeforeYearMonotone(c.year + 1, c.year + 1900);
    }
  }

  // ----- addDays

  lemma MulMonotone(x: int, y: int, b: int)
    requires x <= y && 0 <= b
    ensures x * b <= y * b
  {
    assert y * b - x * b == (y - x) * b;
  }

  /** For n >= 0 and b > 0, n / b counts the whole b's in n. */
  lemma FloorDivParts(n: int, b: int)
    requires n >= 0 && b > 0
    ensures var p := n / b; 0 <= p && p * b <= n < p * b + b
  {
    var p, r := n / b, n % b;
    assert n == p * b + r && 0 <= r < b;
    if p < 0 {
      MulMonotone(p, -1, b);
      assert false;
    }
  }

  lemma TruncDivExact(k: int, b: int)
    requires b > 0
    ensures TruncDiv(k * b, b) == k
  {
    var q := TruncDiv(k * b, b);
    assert (k - 1) * b == k * b - b && (k + 1) * b == k * b + b;
    if q < k {
      MulMonotone(q, k - 1, b);
    } else if q > k {
      MulMonotone(k + 1, q, b);
    }
  }

  /** setDate moves by whole days from the first of the month, whatever its argument. */
  lemma AddDaysRatioShift(date: int, num: int, den: int)
    requires den > 0
    ensures AddDaysRatio(date, num, den) == date - DayOfMonth(date) + TruncDiv(DayOfMonth(date) * den + num, den)
  {
    CivilParts(date);
  }

  /** addDays by a whole number of days shifts the day number by exactly that many days. */
  lemma AddDaysShifts(date: int, days: int)
    ensures AddDays(date, days) == date + days
  {
    AddDaysRatioShift(date, days, 1);
  }

  lemma AddDaysZero(date: int)
    ensures AddDays(date, 0) == date
  {
    AddDaysShifts(date, 0);
  }

  lemma AddDaysCompose(date: int, a: int, b: int)
    ensures AddDays(AddDays(date, a), b) == AddDays(date, a + b)
  {
    AddDaysShifts(date, a);
    AddDaysShifts(date + a, b);
    AddDaysShifts(date, a + b);
  }

  /** A multiple of den divided by den moves by the exact quotient. */
  lemma AddDaysRatioExact(date: int, k: int, den: int)
    requires den > 0
    ensures AddDaysRatio(date, k * den, den) == date + k
  {
    var dom := DayOfMonth(date);
    AddDaysRatioShift(date, k * den, den);
    assert dom * den + k * den == (dom + k) * den;
    TruncDivExact(dom + k, den);
  }

  /**
   * A fractional day count is rounded down when the day of the month it
   * reaches is not negative, and rounded up otherwise.
   */
  lemma AddDaysRatioRounding(date: int, num: int, den: int)
    requires den > 0
    ensures var r := AddDaysRatio(date, num, den);
      if DayOfMonth(date) * den + num >= 0
      then den * (r - date) <= num < den * (r - date) + den
      else den * (r - date) - den < num <= den * (r - date)
  {
    var dom := DayOfMonth(date);
    AddDaysRatioShift(date, num, den);
    RatioBounds(dom, num, den, TruncDiv(dom * den + num, den));
  }

  /** The bounds of a quotient q of dom * den + num, restated for q - dom against num. */
  lemma RatioBounds(dom: int, num: int, den: int, q: int)
    requires den > 0
    requires dom * den + num >= 0 ==> q * den <= dom * den + num < q * den + den
    requires dom * den + num < 0 ==> q * den - den < dom * den + num <= q * den
    ensures dom * den + num >= 0 ==> den * (q - dom) <= num < den * (q - dom) + den
    ensures dom * den + num < 0 ==> den * (q - dom) - den < num <= den * (q - dom)
  {
    assert den * (q - dom) == q * den - dom * den;
  }

  lemma TruncDivMonotone(a1: int, a2: int, b: int)
    requires b > 0 && a1 <= a2
    ensures TruncDiv(a1, b) <= TruncDiv(a2, b)
  {
    var q1, q2 := TruncDiv(a1, b), TruncDiv(a2, b);
    if 0 <= a1 {
      assert (q2 + 1) * b == q2 * b + b;
      MulLess(q1, q2 + 1, b);
    } else if a2 < 0 {
      assert (q1 - 1) * b == q1 * b - b;
      MulLess(q1 - 1, q2, b);
    }
  }

  lemma MulLess(x: int, y: int, b: int)
    requires b > 0 && x * b < y * b
    ensures x < y
  {
    assert (y - x) * b == y * b - x * b;
  }

  /** A larger (possibly fractional) day count never reaches an earlier date. */
  lemma AddDaysRatioMonotone(date: int, num1: int, num2: int, den: int)
    requires den > 0 && num1 <= num2
    ensures AddDaysRatio(date, num1, den) <= AddDaysRatio(date, num2, den)
  {
    AddDaysRatioShift(date, num1, den);
    AddDaysRatioShift(date, num2, den);
    TruncDivMonotone(DayOfMonth(date) * den + num1, DayOfMonth(date) * den + num2, den);
  }

  // ----- addMonths

  lemma MonthStartFacts(t: int)
    ensures MonthNumber(MonthStart(t)) == t
    ensures DayOfMonth(MonthStart(t)) == 1
  {
    ToCivilOfMonthStart(t);
  }

  /** addMonths lands on the first of the month n months on, so no month-length overflow happens. */
  lemma AddMonthsFirstOfMonth(d: int, n: int)
    ensures MonthNumber(AddMonths(d, n)) == MonthNumber(d) + n
    ensures DayOfMonth(AddMonths(d, n)) == 1
  {
    MonthStartFacts(MonthNumber(d) + n);
  }

  /** Year and month of addMonths, with the year carried. */
  lemma AddMonthsYearAndMonth(d: int, n: int)
    ensures FullYear(AddMonths(d, n)) == FullYear(d) + (MonthIndex(d) + n) / 12
    ensures MonthIndex(AddMonths(d, n)) == (MonthIndex(d) + n) % 12
  {
    var r := AddMonths(d, n);
    AddMonthsFirstOfMonth(d, n);
    CivilParts(d);
    CivilParts(r);
    var t := MonthNumber(d) + n;
    assert t == 12 * FullYear(d) + (MonthIndex(d) + n);
  }

  lemma MonthNumberStart(d: int)
    ensures MonthStart(MonthNumber(d)) <= d < MonthStart(MonthNumber(d) + 1)
  {
    CivilParts(d);
    MonthStartStep(MonthNumber(d));
  }

  lemma AddMonthsAdvances(d: int, n: int)
    requires n >= 1
    ensures AddMonths(d, n) > d
  {
    var t := MonthNumber(d);
    assert AddMonths(d, n) == MonthStart(t + n) by {
      assert 12 * FullYear(d) + (MonthIndex(d) + n) == t + n;
    }
    MonthNumberStart(d);
    MonthsLater(t, d, n);
  }

  /** A day of month t is before the first of every later month. */
  lemma MonthsLater(t: int, d: int, n: int)
    requires d < MonthStart(t + 1) && n >= 1
    ensures d < MonthStart(t + n)
  {
    MonthStartsMonotone(t + 1, t + n);
  }

  // ----- addYears

  lemma SameDateLater(y: int, m: int, day: int)
    requires ValidCivil(Civil(y, m, day))
    ensures ToCivil(MakeDay(y, m - 1, day)) == Civil(y, m, day)
  {
    var c := Civil(y, m, day);
    MonthStartOfCivil(c);
    ToCivilOfDay(c);
  }

  lemma FebruaryOverflow(y: int)
    requires !IsLeapYear(y)
    ensures ToCivil(MakeDay(y, 1, 29)) == Civil(y, 3, 1)
  {
    var t := 12 * y + 1;
    assert t / 12 == y && t % 12 == 1;
    MonthStartStep(t);
    ToCivilOfMonthStart(t + 1);
    assert (t + 1) / 12 == y && (t + 1) % 12 == 2;
  }

  /** addYears keeps month and day, except that February 29 becomes March 1 in a common year. */
  lemma AddYearsCivil(d: int, n: int)
    ensures var c := ToCivil(d);
      ToCivil(AddYears(d, n))
        == if c.month == 2 && c.day == 29 && !IsLeapYear(c.year + n)
           then Civil(c.year + n, 3, 1)
           else Civil(c.year + n, c.month, c.day)
  {
    var c := ToCivil(d);
    CivilParts(d);
    assert AddYears(d, n) == MakeDay(c.year + n, c.month - 1, c.day);
    OtherYear(c, c.year + n);
  }

  /** A valid month and day moved to year y: the same date, or March 1 for February 29 in a common year. */
  lemma OtherYear(c: Civil, y: int)
    requires ValidCivil(c)
    ensures ToCivil(MakeDay(y, c.month - 1, c.day))
      == if c.month == 2 && c.day == 29 && !IsLeapYear(y) then Civil(y, 3, 1) else Civil(y, c.month, c.day)
  {
    if c.month == 2 && c.day == 29 && !IsLeapYear(y) {
      FebruaryOverflow(y);
    } else {
      assert ValidCivil(Civil(y, c.month, c.day));
      SameDateLater(y, c.month, c.day);
    }
  }

  // ----- diffDays

  /** diffDays counts the days between two dates outside years 0 to 99. */
  lemma DiffDaysExact(a: int, b: int)
    requires !TwoDigitYear(FullYear(a)) && !TwoDigitYear(FullYear(b))
    ensures DiffDays(a, b) == b - a
    ensures DiffDaysInclusive(a, b) == b - a + 1
  {
    ReconstructedIdentity(a);
    ReconstructedIdentity(b);
  }

  lemma DiffDaysAddDays(a: int, n: int)
    requires !TwoDigitYear(FullYear(a)) && !TwoDigitYear(FullYear(a + n))
    ensures DiffDays(a, AddDays(a, n)) == n
  {
    AddDaysShifts(a, n);
    DiffDaysExact(a, a + n);
  }

  lemma DiffDaysAntisymmetric(a: int, b: int)
    ensures DiffDays(a, b) == -DiffDays(b, a)
  {
  }

  // ----- getDaysInMonth

  lemma LastDayOfMonth(t: int)
    ensures ToCivil(MonthStart(t + 1) - 1) == Civil(t / 12, t % 12 + 1, MonthLength(t / 12, t % 12 + 1))
  {
    var y, m := t / 12, t % 12 + 1;
    var len := MonthLength(y, m);
    assert 12 * y + m - 1 == t;
    MonthStartStep(t);
    assert MonthStart(t + 1) - 1 == MonthStart(t) + len - 1;
    var c := Civil(y, m, len);
    assert ValidCivil(c);
    MonthStartOfCivil(c);
    ToCivilOfDay(c);
  }

  lemma DaysInMonthIsMonthLength(year: int, month: int)
    ensures var t := 12 * (if TwoDigitYear(year) then 1900 + year else year) + month;
      GetDaysInMonth(year, month) == MonthLength(t / 12, t % 12 + 1)
  {
    var t := 12 * (if TwoDigitYear(year) then 1900 + year else year) + month;
    DayZero(year, month, t);
    LastDayOfMonth(t);
  }

  /** Day 0 of the month after month is the day before that month starts. */
  lemma DayZero(year: int, month: int, t: int)
    requires t == 12 * (if TwoDigitYear(year) then 1900 + year else year) + month
    ensures GetDaysInMonth(year, month) == ToCivil(MonthStart(t + 1) - 1).day
  {
    assert NewDate(year, month + 1, 0) == MonthStart(t + 1) - 1;
  }

  /** getDaysInMonth is 28 to 31, and 29 for February exactly in Gregorian leap years. */
  lemma DaysInMonthRange(year: int, month: int)
    requires 0 <= month <= 11 && !TwoDigitYear(year)
    ensures 28 <= GetDaysInMonth(year, month) <= 31
    ensures month == 1 ==> (GetDaysInMonth(year, month) == 29 <==> IsLeapYear(year))
  {
    DaysInMonthIsMonthLength(year, month);
    assert (12 * year + month) / 12 == year && (12 * year + month) % 12 == month;
  }

  // ----- getStartOfWeek

  lemma WeekMondayFacts(d: int)
    ensures IsoWeekday(WeekMonday(d)) == 1
    ensures d - 6 <= WeekMonday(d) <= d
    ensures WeekMonday(d) == d - (IsoWeekday(d) - 1)
  {
  }

  /** getStartOfWeek is the Monday of d's week: not after d and less than 7 days before it. */
  lemma StartOfWeekFacts(d: int)
    requires !TwoDigitYear(FullYear(WeekMonday(d)))
    ensures GetStartOfWeek(d) == WeekMonday(d)
    ensures IsoWeekday(GetStartOfWeek(d)) == 1
    ensures d - 7 < GetStartOfWeek(d) <= d
  {
    WeekMondayFacts(d);
    ReconstructedIdentity(WeekMonday(d));
  }

  lemma StartOfWeekIdempotent(d: int)
    requires !TwoDigitYear(FullYear(WeekMonday(d)))
    ensures GetStartOfWeek(GetStartOfWeek(d)) == GetStartOfWeek(d)
  {
    StartOfWeekFacts(d);
    assert WeekMonday(WeekMonday(d)) == WeekMonday(d);
  }

  /** The rebuilt Monday is never earlier than 6 days before d. */
  lemma StartOfWeekNotEarlier(d: int)
    ensures GetStartOfWeek(d) >= d - 6
  {
    ReconstructedNotEarlier(WeekMonday(d));
  }

  // ----- getStartOfMonth and getStartOfYear

  /** getStartOfMonth is day 1 of d's month, not after d. */
  lemma StartOfMonthFacts(d: int)
    requires !TwoDigitYear(FullYear(d))
    ensures ToCivil(GetStartOfMonth(d)) == Civil(FullYear(d), MonthIndex(d) + 1, 1)
    ensures 0 <= MonthIndex(d) <= 11
    ensures GetStartOfMonth(d) <= d < GetStartOfMonth(d) + MonthLength(FullYear(d), MonthIndex(d) + 1)
  {
    var c := ToCivil(d);
    ToCivilCorrect(d);
    var first := Civil(c.year, c.month, 1);
    MonthStartOfCivil(first);
    assert GetStartOfMonth(d) == DayFromYmd(c.year, c.month, 1);
    ToCivilOfDay(first);
  }

  /** The start of a month is always a first of the month, whatever the year. */
  lemma StartOfMonthIsFirst(d: int)
    ensures DayOfMonth(GetStartOfMonth(d)) == 1
  {
    var y := if TwoDigitYear(FullYear(d)) then 1900 + FullYear(d) else FullYear(d);
    assert GetStartOfMonth(d) == MonthStart(12 * y + MonthIndex(d));
    MonthStartFacts(12 * y + MonthIndex(d));
  }

  lemma StartOfMonthIdempotent(d: int)
    ensures GetStartOfMonth(GetStartOfMonth(d)) == GetStartOfMonth(d)
  {
    var c := ToCivil(d);
    ToCivilCorrect(d);
    var y := if TwoDigitYear(c.year) then 1900 + c.year else c.year;
    var t := 12 * y + c.month - 1;
    assert GetStartOfMonth(d) == MonthStart(t);
    assert t / 12 == y;
    MonthStartFixed(t);
  }

  /** A first of month in a year past 99 is its own start of month. */
  lemma MonthStartFixed(t: int)
    requires !TwoDigitYear(t / 12)
    ensures GetStartOfMonth(MonthStart(t)) == MonthStart(t)
  {
    ToCivilOfMonthStart(t);
    assert 12 * (t / 12) + t % 12 == t;
  }

  /** getStartOfYear is January 1 of d's year, not after d. */
  lemma StartOfYearFacts(d: int)
    requires !TwoDigitYear(FullYear(d))
    ensures ToCivil(GetStartOfYear(d)) == Civil(FullYear(d), 1, 1)
    ensures GetStartOfYear(d) <= d < GetStartOfYear(d) + YearLength(FullYear(d))
  {
    var y := FullYear(d);
    var first := Civil(y, 1, 1);
    MonthStartOfCivil(first);
    assert GetStartOfYear(d) == DayFromYmd(y, 1, 1);
    ToCivilOfDay(first);
    YearBounds(d);
    DaysBeforeYearStep(y);
  }

  /** The start of a year is always a January 1, whatever the year. */
  lemma StartOfYearIsJanuaryFirst(d: int)
    ensures MonthIndex(GetStartOfYear(d)) == 0 && DayOfMonth(GetStartOfYear(d)) == 1
  {
    var y := if TwoDigitYear(FullYear(d)) then 1900 + FullYear(d) else FullYear(d);
    assert GetStartOfYear(d) == MonthStart(12 * y);
    ToCivilOfMonthStart(12 * y);
    assert (12 * y) / 12 == y && (12 * y) % 12 == 0;
  }

  lemma StartOfYearIdempotent(d: int)
    ensures GetStartOfYear(GetStartOfYear(d)) == GetStartOfYear(d)
  {
    var y := if TwoDigitYear(FullYear(d)) then 1900 + FullYear(d) else FullYear(d);
    var s := GetStartOfYear(d);
    assert s == MonthStart(12 * y);
    ToCivilOfMonthStart(12 * y);
    assert (12 * y) / 12 == y && (12 * y) % 12 == 0;
    assert GetStartOfYear(s) == NewDate(y, 0, 1);
  }

  // ----- getWeekNumber

  /** The Thursday getWeekNumber moves to lies in d's own Monday-to-Sunday week. */
  lemma IsoThursdayFacts(d: int)
    requires !TwoDigitYear(FullYear(d))
    ensures IsoWeekday(IsoThursday(d)) == 4
    ensures IsoThursday(d) == WeekMonday(d) + 3
  {
    ReconstructedIdentity(d);
    AddDaysShifts(d, 4 - IsoWeekday(d));
    WeekMondayFacts(d);
    IsoWeekdayAdd(WeekMonday(d), 3);
  }

  /** All seven days of a Monday-to-Sunday week share their week number. */
  lemma WeekNumberSameWeek(d: int, e: int)
    requires !TwoDigitYear(FullYear(d)) && !TwoDigitYear(FullYear(e))
    requires WeekMonday(d) == WeekMonday(e)
    ensures GetWeekNumber(d) == GetWeekNumber(e)
  {
    IsoThursdayFacts(d);
    IsoThursdayFacts(e);
    assert IsoThursday(d) == IsoThursday(e);
  }

  lemma IsoThursdayYearStart(d: int)
    requires !TwoDigitYear(FullYear(IsoThursday(d)))
    ensures var t := IsoThursday(d);
      var jan1 := DayFromYmd(FullYear(t), 1, 1);
      && NewDate(FullYear(t), 0, 1) == jan1
      && jan1 <= t < jan1 + YearLength(FullYear(t))
  {
    var t := IsoThursday(d);
    var y := FullYear(t);
    MonthStartOfCivil(Civil(y, 1, 1));
    YearBounds(t);
    DaysBeforeYearStep(y);
  }

  lemma IsoThursdayIsThursday(d: int)
    ensures IsoWeekday(IsoThursday(d)) == 4
  {
    var u := Reconstructed(d);
    AddDaysShifts(u, 4 - IsoWeekday(u));
    WeekMondayFacts(u);
    IsoWeekdayAdd(WeekMonday(u), 3);
  }

  /** getWeekNumber is always in 1..53. */
  lemma WeekNumberRange(d: int)
    requires !TwoDigitYear(FullYear(IsoThursday(d)))
    ensures 1 <= GetWeekNumber(d) <= 53
  {
    IsoThursdayYearStart(d);
  }

  /**
   * getWeekNumber is the ISO 8601 week number: one more than the number of
   * whole weeks from the first Thursday of the year of d's Thursday to that
   * Thursday; in particular week 1 is the week holding the first Thursday.
   */
  lemma WeekNumberIsIso(d: int)
    requires !TwoDigitYear(FullYear(IsoThursday(d)))
    ensures var t := IsoThursday(d);
      && FirstThursday(FullYear(t)) <= t
      && GetWeekNumber(d) == (t - FirstThursday(FullYear(t))) / 7 + 1
  {
    var t := IsoThursday(d);
    var y := FullYear(t);
    IsoThursdayYearStart(d);
    IsoThursdayIsThursday(d);
    var first := FirstThursday(y);
    ThursdayMultipleOfSeven(t);
    ThursdayMultipleOfSeven(first);
    WeeksFromFirstThursday(t, first, DayFromYmd(y, 1, 1));
  }

  /** The week arithmetic of getWeekNumber on day numbers: t and first are Thursdays, first the earliest on or after jan1. */
  lemma WeeksFromFirstThursday(t: int, first: int, jan1: int)
    requires t == 7 * (t / 7) && first == 7 * (first / 7)
    requires jan1 <= first < jan1 + 7 && jan1 <= t
    ensures first <= t && (t - jan1 + 1 + 6) / 7 == (t - first) / 7 + 1
  {
    var j := t / 7 - first / 7;
    assert t - first == 7 * j;
    assert j >= 0;
    var f := first - jan1;
    assert t - jan1 + 1 + 6 == f + 7 * (j + 1);
  }
}
