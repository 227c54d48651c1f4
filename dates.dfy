/** Calendar dates in the proleptic Gregorian calendar (the calendar of
    JavaScript's `Date` and of date-fns), with the date-fns helpers the
    application uses: day steps, month starts and ends, month arithmetic. */
module Dates {

  /** A calendar day. `month` is 1-based, as in ISO 8601; JavaScript's
      0-based `getMonth()` is `JsMonth` below. */
  datatype Date = Date(year: int, month: int, day: int)

  /** Leap-year rule of the Gregorian calendar (ISO 8601:2004 section 3.2.1). */
  predicate IsLeapYear(y: int) {
    (y % 4 == 0 && y % 100 != 0) || y % 400 == 0
  }

  function DaysInMonth(y: int, m: int): (n: int)
    requires 1 <= m <= 12
    ensures 28 <= n <= 31
    ensures n == 29 <==> m == 2 && IsLeapYear(y)
  {
    if m == 2 then (if IsLeapYear(y) then 29 else 28)
    else if m == 4 || m == 6 || m == 9 || m == 11 then 30
    else 31
  }

  function DaysInYear(y: int): int {
    if IsLeapYear(y) then 366 else 365
  }

  predicate Valid(d: Date) {
    1 <= d.month <= 12 && 1 <= d.day <= DaysInMonth(d.year, d.month)
  }

  /** Days from 0001-01-01 to the first day of year `y` (negative before year 1). */
  function DaysBeforeYear(y: int): int {
    365 * (y - 1) + (y - 1) / 4 - (y - 1) / 100 + (y - 1) / 400
  }

  /** Days from the first of January of year `y` to the first day of month `m`;
      month 13 stands for the first of January of the next year. */
  function DaysBeforeMonth(y: int, m: int): int
    requires 1 <= m <= 13
  {
    [0, 31, 59, 90, 120, 151, 181, 212, 243, 273, 304, 334, 365][m - 1]
      + (if m > 2 && IsLeapYear(y) then 1 else 0)
  }

  /** Days since 0001-01-01, which is day 0. */
  function DayNumber(d: Date): int
    requires Valid(d)
  {
    DaysBeforeYear(d.year) + DaysBeforeMonth(d.year, d.month) + d.day - 1
  }

  /** Day of the week, 0 = Sunday through 6 = Saturday (0001-01-01 is a Monday). */
  function Weekday(d: Date): (w: int)
    requires Valid(d)
    ensures 0 <= w < 7
  {
    (DayNumber(d) + 1) % 7
  }

  lemma ModSevenAdd(x: int, k: int)
    ensures (x + k) % 7 == (x % 7 + k) % 7
  {
    var q := x / 7;
    assert x == 7 * q + x % 7;
    assert x + k == 7 * q + (x % 7 + k);
  }

  /** Moving `k` days moves the weekday by `k` modulo 7. */
  lemma WeekdayShift(d: Date, r: Date, k: int)
    requires Valid(d) && Valid(r) && DayNumber(r) == DayNumber(d) + k
    ensures Weekday(r) == (Weekday(d) + k) % 7
  {
    var n := DayNumber(d) + 1;
    ModSevenAdd(n, k);
  }

  // ----- arithmetic facts behind the day count -----

  lemma FloorStep(y: int, k: int)
    requires k == 4 || k == 100 || k == 400
    ensures y / k - (y - 1) / k == if y % k == 0 then 1 else 0
  {
    if k == 4 {
      assert y / 4 - (y - 1) / 4 == if y % 4 == 0 then 1 else 0;
    } else if k == 100 {
      assert y / 100 - (y - 1) / 100 == if y % 100 == 0 then 1 else 0;
    } else {
      assert y / 400 - (y - 1) / 400 == if y % 400 == 0 then 1 else 0;
    }
  }

  lemma MultipleMod(t: int, k: int)
    requires k == 4 || k == 100
    ensures (k * t) % k == 0
  {
    if k == 4 {
      assert (4 * t) % 4 == 0;
    } else {
      assert (100 * t) % 100 == 0;
    }
  }

  lemma DivisibleByFactors(y: int)
    ensures y % 400 == 0 ==> y % 100 == 0
    ensures y % 100 == 0 ==> y % 4 == 0
  {
    if y % 400 == 0 {
      var q := y / 400;
      assert y == 100 * (4 * q);
      MultipleMod(4 * q, 100);
    }
    if y % 100 == 0 {
      var q := y / 100;
      assert y == 4 * (25 * q);
      MultipleMod(25 * q, 4);
    }
  }

  lemma DaysBeforeYearStep(y: int)
    ensures DaysBeforeYear(y + 1) == DaysBeforeYear(y) + DaysInYear(y)
  {
    FloorStep(y, 4);
    FloorStep(y, 100);
    FloorStep(y, 400);
    DivisibleByFactors(y);
  }

  lemma {:induction false} DaysBeforeYearMonotone(y1: int, y2: int)
    requires y1 <= y2
    ensures DaysBeforeYear(y1) <= DaysBeforeYear(y2)
    decreases y2 - y1
  {
    if y1 < y2 {
      DaysBeforeYearStep(y2 - 1);
      DaysBeforeYearMonotone(y1, y2 - 1);
    }
  }

  lemma DaysBeforeMonthStep(y: int, m: int)
    requires 1 <= m <= 12
    ensures DaysBeforeMonth(y, m + 1) == DaysBeforeMonth(y, m) + DaysInMonth(y, m)
  {
  }

  lemma {:induction false} DaysBeforeMonthMonotone(y: int, m1: int, m2: int)
    requires 1 <= m1 <= m2 <= 13
    ensures DaysBeforeMonth(y, m1) <= DaysBeforeMonth(y, m2)
    decreases m2 - m1
  {
    if m1 < m2 {
      DaysBeforeMonthStep(y, m2 - 1);
      DaysBeforeMonthMonotone(y, m1, m2 - 1);
    }
  }

  /** A day lies inside its month's and its year's span of day numbers. */
  lemma DayNumberBounds(d: Date)
    requires Valid(d)
    ensures DaysBeforeYear(d.year) + DaysBeforeMonth(d.year, d.month) <= DayNumber(d)
    ensures DayNumber(d) < DaysBeforeYear(d.year) + DaysBeforeMonth(d.year, d.month + 1)
    ensures DaysBeforeYear(d.year) <= DayNumber(d) < DaysBeforeYear(d.year + 1)
  {
    DaysBeforeMonthStep(d.year, d.month);
    DaysBeforeMonthMonotone(d.year, d.month + 1, 13);
    DaysBeforeYearStep(d.year);
  }

  // ----- order -----

  /** Strict chronological order on dates, field by field. */
  predicate Before(a: Date, b: Date) {
    a.year < b.year
    || (a.year == b.year && a.month < b.month)
    || (a.year == b.year && a.month == b.month && a.day < b.day)
  }

  /** The day count is strictly monotone in the calendar order. */
  lemma BeforeDayNumber(a: Date, b: Date)
    requires Valid(a) && Valid(b) && Before(a, b)
    ensures DayNumber(a) < DayNumber(b)
  {
    DayNumberBounds(a);
    DayNumberBounds(b);
    if a.year < b.year {
      DaysBeforeYearMonotone(a.year + 1, b.year);
    } else if a.month < b.month {
      DaysBeforeMonthMonotone(a.year, a.month + 1, b.month);
    }
  }

  /** Distinct valid dates have distinct day numbers. */
  lemma DayNumberInjective(a: Date, b: Date)
    requires Valid(a) && Valid(b) && DayNumber(a) == DayNumber(b)
    ensures a == b
  {
    if Before(a, b) {
      BeforeDayNumber(a, b);
    } else if Before(b, a) {
      BeforeDayNumber(b, a);
    }
  }

  /** Calendar order and day-number order agree. */
  lemma BeforeIffDayNumber(a: Date, b: Date)
    requires Valid(a) && Valid(b)
    ensures Before(a, b) <==> DayNumber(a) < DayNumber(b)
  {
    if Before(a, b) {
      BeforeDayNumber(a, b);
    } else if a != b {
      assert Before(b, a);
      BeforeDayNumber(b, a);
    }
  }

  // ----- day steps -----

  /** The following calendar day (date-fns `addDays(d, 1)`). */
  function NextDay(d: Date): (r: Date)
    requires Valid(d)
    ensures Valid(r) && DayNumber(r) == DayNumber(d) + 1
  {
    DaysBeforeYearStep(d.year);
    DaysBeforeMonthStep(d.year, d.month);
    if d.day < DaysInMonth(d.year, d.month) then Date(d.year, d.month, d.day + 1)
    else if d.month < 12 then Date(d.year, d.month + 1, 1)
    else Date(d.year + 1, 1, 1)
  }

  /** The preceding calendar day (date-fns `subDays(d, 1)`). */
  function PrevDay(d: Date): (r: Date)
    requires Valid(d)
    ensures Valid(r) && DayNumber(r) == DayNumber(d) - 1
  {
    DaysBeforeYearStep(d.year - 1);
    if d.day > 1 then Date(d.year, d.month, d.day - 1)
    else if d.month > 1 then
      DaysBeforeMonthStep(d.year, d.month - 1);
      Date(d.year, d.month - 1, DaysInMonth(d.year, d.month - 1))
    else Date(d.year - 1, 12, 31)
  }

  /** `k` days later. */
  function AddDays(d: Date, k: nat): (r: Date)
    requires Valid(d)
    ensures Valid(r) && DayNumber(r) == DayNumber(d) + k
    decreases k
  {
    if k == 0 then d else AddDays(NextDay(d), k - 1)
  }

  /** `k` days earlier. */
  function SubDays(d: Date, k: nat): (r: Date)
    requires Valid(d)
    ensures Valid(r) && DayNumber(r) == DayNumber(d) - k
    decreases k
  {
    if k == 0 then d else SubDays(PrevDay(d), k - 1)
  }

  // ----- months -----

  /** date-fns `isSameMonth`: same year and same month. */
  predicate SameMonth(a: Date, b: Date) {
    a.year == b.year && a.month == b.month
  }

  /** JavaScript's `Date.prototype.getMonth()`: 0 for January through 11 for December. */
  function JsMonth(d: Date): int {
    d.month - 1
  }

  function StartOfMonth(d: Date): (r: Date)
    requires Valid(d)
    ensures Valid(r) && SameMonth(r, d) && r.day == 1
  {
    Date(d.year, d.month, 1)
  }

  function EndOfMonth(d: Date): (r: Date)
    requires Valid(d)
    ensures Valid(r) && SameMonth(r, d) && r.day == DaysInMonth(d.year, d.month)
  {
    Date(d.year, d.month, DaysInMonth(d.year, d.month))
  }

  /** A day is `day - 1` days after the first of its month. */
  lemma DayNumberInMonth(d: Date)
    requires Valid(d)
    ensures DayNumber(d) == DayNumber(StartOfMonth(d)) + d.day - 1
  {
  }

  /** Months since January of year 0. */
  function MonthIndex(d: Date): int {
    12 * d.year + d.month - 1
  }

  /** date-fns `addMonths(d, k)`: move `k` months (negative: back), keeping the
      day of the month unless the target month is shorter, in which case the
      target month's last day is used. */
  function AddMonths(d: Date, k: int): (r: Date)
    requires Valid(d)
    ensures Valid(r) && MonthIndex(r) == MonthIndex(d) + k
    ensures r.day == if d.day <= DaysInMonth(r.year, r.month) then d.day else DaysInMonth(r.year, r.month)
  {
    var target := MonthIndex(d) + k;
    var y, m := target / 12, target % 12 + 1;
    var last := DaysInMonth(y, m);
    Date(y, m, if d.day <= last then d.day else last)
  }

  /** date-fns `subMonths(d, k)`. */
  function SubMonths(d: Date, k: int): (r: Date)
    requires Valid(d)
    ensures Valid(r) && MonthIndex(r) == MonthIndex(d) - k
  {
    AddMonths(d, -k)
  }

  /** The month index determines year and month. */
  lemma MonthIndexInjective(a: Date, b: Date)
    requires 1 <= a.month <= 12 && 1 <= b.month <= 12
    requires MonthIndex(a) == MonthIndex(b)
    ensures a.year == b.year && a.month == b.month
  {
  }

  /** One month forward: the next month of the same year, or January of the
      next year from December. */
  lemma NextMonthRollover(d: Date)
    requires Valid(d)
    ensures var r := AddMonths(d, 1);
      if d.month == 12 then r.year == d.year + 1 && r.month == 1
      else r.year == d.year && r.month == d.month + 1
  {
    var r := AddMonths(d, 1);
    if d.month == 12 {
      MonthIndexInjective(r, Date(d.year + 1, 1, 1));
    } else {
      MonthIndexInjective(r, Date(d.year, d.month + 1, 1));
    }
  }

  /** One month back: the previous month of the same year, or December of the
      previous year from January. */
  lemma PrevMonthRollover(d: Date)
    requires Valid(d)
    ensures var r := SubMonths(d, 1);
      if d.month == 1 then r.year == d.year - 1 && r.month == 12
      else r.year == d.year && r.month == d.month - 1
  {
    var r := SubMonths(d, 1);
    if d.month == 1 {
      MonthIndexInjective(r, Date(d.year - 1, 12, 1));
    } else {
      MonthIndexInjective(r, Date(d.year, d.month - 1, 1));
    }
  }

  /** Moving `k` months and back again returns the original date, provided
      the day was not clamped on the way out. */
  lemma AddMonthsRoundTrip(d: Date, k: int)
    requires Valid(d)
    requires d.day <= DaysInMonth(AddMonths(d, k).year, AddMonths(d, k).month)
    ensures AddMonths(AddMonths(d, k), -k) == d
  {
    var there := AddMonths(d, k);
    var back := AddMonths(there, -k);
    MonthIndexInjective(back, d);
  }
}
