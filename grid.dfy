/** The month grid shared by the main calendar and the sidebar: every day from
    the Sunday on or before the first of the displayed month to the Saturday
    on or after its last day, and the per-cell styling flags. */
module Grid {
  import opened Dates
  import opened Outcomes

  /** date-fns `startOfWeek(d)` with the default week start, Sunday. */
  function StartOfWeek(d: Date): (r: Date)
    requires Valid(d)
    ensures Valid(r) && Weekday(r) == 0
    ensures DayNumber(r) == DayNumber(d) - Weekday(d)
    ensures DayNumber(d) - 6 <= DayNumber(r) <= DayNumber(d)
  {
    WeekdayShift(d, SubDays(d, Weekday(d)), -Weekday(d));
    SubDays(d, Weekday(d))
  }

  /** date-fns `endOfWeek(d)`: the Saturday on or after `d`. */
  function EndOfWeek(d: Date): (r: Date)
    requires Valid(d)
    ensures Valid(r) && Weekday(r) == 6
    ensures DayNumber(r) == DayNumber(d) + 6 - Weekday(d)
    ensures DayNumber(d) <= DayNumber(r) <= DayNumber(d) + 6
  {
    WeekdayShift(d, AddDays(d, 6 - Weekday(d)), 6 - Weekday(d));
    AddDays(d, 6 - Weekday(d))
  }

  /** `n` consecutive days starting at `start`: day `i` of the run is `i`
      days after the start. */
  function EachDay(start: Date, n: nat): (r: seq<Date>)
    requires Valid(start)
    ensures |r| == n
  {
    seq(n, i requires 0 <= i < n => AddDays(start, i))
  }

  /** date-fns `eachDayOfInterval({start, end})`, which rejects an interval
      whose end precedes its start. */
  function EachDayOfInterval(start: Date, end: Date): (r: seq<Date>)
    requires Valid(start) && Valid(end) && DayNumber(start) <= DayNumber(end)
  {
    EachDay(start, DayNumber(end) - DayNumber(start) + 1)
  }

  /** Lines 35-40 of the calendar grid (and 18-23 of the sidebar): the days
      drawn for the month of `current`. */
  function MonthGrid(current: Date): seq<Date>
    requires Valid(current)
  {
    var monthStart := StartOfMonth(current);
    var monthEnd := EndOfMonth(monthStart);
    EachDayOfInterval(StartOfWeek(monthStart), EndOfWeek(monthEnd))
  }

  /** Number of spill-over days from the previous month: the weekday of the first. */
  function LeadingDays(current: Date): (n: int)
    requires Valid(current)
    ensures 0 <= n < 7
  {
    Weekday(StartOfMonth(current))
  }

  lemma WeekCount(w: int, dim: int, t: int, n: int)
    requires 0 <= w < 7 && 28 <= dim <= 31 && t == (w + dim - 1) % 7
    requires n == dim + 6 + w - t
    ensures n % 7 == 0 && 28 <= n <= 42
  {
    var t := (w + dim - 1) / 7;
    assert w + dim - 1 == 7 * t + (w + dim - 1) % 7;
  }

  /** One day after the other: cell `i` is `i` days after the first cell. */
  predicate ConsecutiveDays(g: seq<Date>) {
    |g| > 0 && Valid(g[0])
    && forall i :: 0 <= i < |g| ==> Valid(g[i]) && DayNumber(g[i]) == DayNumber(g[0]) + i
  }

  /** Cell `i` falls on weekday `i % 7`, so it stands under header column `i % 7`. */
  predicate WeekColumns(g: seq<Date>) {
    forall i :: 0 <= i < |g| ==> Valid(g[i]) && Weekday(g[i]) == i % 7
  }

  lemma LastColumn(n: int)
    requires n > 0 && n % 7 == 0
    ensures (n - 1) % 7 == 6
  {
    assert n == 7 * (n / 7);
    assert n - 1 == 7 * (n / 7 - 1) + 6;
  }

  /** The number of cells, and the weekday of the month's last day. */
  lemma GridSize(current: Date)
    requires Valid(current)
    ensures |MonthGrid(current)| == DaysInMonth(current.year, current.month) + 6 + LeadingDays(current) - Weekday(EndOfMonth(current))
  {
    var first := StartOfMonth(current);
    var last := EndOfMonth(first);
    DayNumberInMonth(last);
    assert StartOfMonth(last) == first;
    assert DayNumber(EndOfWeek(last)) == DayNumber(last) + 6 - Weekday(last);
    assert DayNumber(StartOfWeek(first)) == DayNumber(first) - Weekday(first);
  }

  /** The month's last day falls `DaysInMonth - 1` weekdays after its first. */
  lemma MonthEndWeekday(current: Date)
    requires Valid(current)
    ensures Weekday(EndOfMonth(current)) == (LeadingDays(current) + DaysInMonth(current.year, current.month) - 1) % 7
  {
    var first := StartOfMonth(current);
    var last := EndOfMonth(current);
    DayNumberInMonth(last);
    assert StartOfMonth(last) == first;
    WeekdayShift(first, last, DaysInMonth(current.year, current.month) - 1);
  }

  /** Cell `i` is the day `i` days after the Sunday on or before the first. */
  lemma GridCell(current: Date, i: int)
    requires Valid(current) && 0 <= i < |MonthGrid(current)|
    ensures Valid(MonthGrid(current)[i])
    ensures DayNumber(MonthGrid(current)[i]) == DayNumber(StartOfMonth(current)) - LeadingDays(current) + i
  {
    var start := StartOfWeek(StartOfMonth(current));
    assert MonthGrid(current)[i] == AddDays(start, i);
  }

  /** Cell `i` stands in weekday column `i % 7`. */
  lemma GridColumn(current: Date, i: int)
    requires Valid(current) && 0 <= i < |MonthGrid(current)|
    ensures Valid(MonthGrid(current)[i]) && Weekday(MonthGrid(current)[i]) == i % 7
  {
    GridCell(current, i);
    WeekdayShift(StartOfMonth(current), MonthGrid(current)[i], i - LeadingDays(current));
  }

  /** The first cell and the length of the grid, in day numbers. */
  lemma GridEnds(current: Date)
    requires Valid(current)
    ensures var g := MonthGrid(current);
      && ConsecutiveDays(g)
      && |g| == DaysInMonth(current.year, current.month) + 6 + LeadingDays(current) - Weekday(EndOfMonth(current))
      && Weekday(EndOfMonth(current)) == (LeadingDays(current) + DaysInMonth(current.year, current.month) - 1) % 7
      && DayNumber(g[0]) == DayNumber(StartOfMonth(current)) - LeadingDays(current)
      && Weekday(g[0]) == 0
  {
    var g := MonthGrid(current);
    GridSize(current);
    MonthEndWeekday(current);
    GridCell(current, 0);
    forall i | 0 <= i < |g|
      ensures Valid(g[i]) && DayNumber(g[i]) == DayNumber(g[0]) + i
    {
      GridCell(current, i);
    }
    GridColumn(current, 0);
  }

  lemma GridColumns(current: Date)
    requires Valid(current)
    ensures WeekColumns(MonthGrid(current))
  {
    var g := MonthGrid(current);
    forall i | 0 <= i < |g|
      ensures Valid(g[i]) && Weekday(g[i]) == i % 7
    {
      GridColumn(current, i);
    }
  }

  lemma GridLength(current: Date)
    requires Valid(current)
    ensures var n := |MonthGrid(current)|;
      n % 7 == 0 && 28 <= n <= 42
  {
    GridSize(current);
    MonthEndWeekday(current);
    WeekCount(LeadingDays(current), DaysInMonth(current.year, current.month),
              Weekday(EndOfMonth(current)), |MonthGrid(current)|);
  }

  /** The last cell is the Saturday on or after the last of the month. */
  lemma GridLastCell(current: Date)
    requires Valid(current)
    ensures var g := MonthGrid(current);
      && Valid(g[|g| - 1]) && Weekday(g[|g| - 1]) == 6
      && DayNumber(EndOfMonth(current)) <= DayNumber(g[|g| - 1]) < DayNumber(EndOfMonth(current)) + 7
  {
    GridLastColumn(current);
    GridLastNumber(current);
  }

  lemma GridLastColumn(current: Date)
    requires Valid(current)
    ensures var g := MonthGrid(current);
      Valid(g[|g| - 1]) && Weekday(g[|g| - 1]) == 6
  {
    var n := |MonthGrid(current)|;
    GridLength(current);
    LastColumn(n);
    GridColumn(current, n - 1);
  }

  lemma GridLastNumber(current: Date)
    requires Valid(current)
    ensures var g := MonthGrid(current);
      Valid(g[|g| - 1])
      && DayNumber(EndOfMonth(current)) <= DayNumber(g[|g| - 1]) < DayNumber(EndOfMonth(current)) + 7
  {
    var n := |MonthGrid(current)|;
    var last := EndOfMonth(current);
    GridSize(current);
    GridCell(current, n - 1);
    DayNumberInMonth(last);
    assert StartOfMonth(last) == StartOfMonth(current);
  }

  /** The first cell is the Sunday on or before the first of the month. */
  lemma GridFirstCell(current: Date)
    requires Valid(current)
    ensures var g := MonthGrid(current);
      && Valid(g[0]) && Weekday(g[0]) == 0
      && DayNumber(StartOfMonth(current)) - 7 < DayNumber(g[0]) <= DayNumber(StartOfMonth(current))
  {
    GridCell(current, 0);
    GridColumn(current, 0);
  }

  /** Shape of the grid: whole weeks, four to six of them; the first cell is
      the Sunday on or before the first of the month and the last the
      Saturday on or after its last day. Cell by cell, the days follow one
      another (`GridEnds`) and stand in their weekday columns (`GridColumns`). */
  lemma GridShape(current: Date)
    requires Valid(current)
    ensures var g := MonthGrid(current);
      && |g| % 7 == 0 && 28 <= |g| <= 42
      && Valid(g[0]) && Weekday(g[0]) == 0
      && DayNumber(StartOfMonth(current)) - 7 < DayNumber(g[0]) <= DayNumber(StartOfMonth(current))
      && Valid(g[|g| - 1]) && Weekday(g[|g| - 1]) == 6
      && DayNumber(EndOfMonth(current)) <= DayNumber(g[|g| - 1]) < DayNumber(EndOfMonth(current)) + 7
  {
    GridLength(current);
    GridFirstCell(current);
    GridLastCell(current);
  }

  /** Every day of the displayed month is in the grid: day `k` sits at index
      `LeadingDays + k - 1`. */
  lemma GridCoversMonth(current: Date, k: int)
    requires Valid(current) && 1 <= k <= DaysInMonth(current.year, current.month)
    ensures var g := MonthGrid(current);
      var i := LeadingDays(current) + k - 1;
      0 <= i < |g| && g[i] == Date(current.year, current.month, k)
  {
    var g := MonthGrid(current);
    var d := Date(current.year, current.month, k);
    var i := LeadingDays(current) + k - 1;
    GridSize(current);
    GridCell(current, i);
    DayNumberInMonth(d);
    DayNumberInjective(g[i], d);
  }

  /** Every date from the grid's first Sunday on, for as many days as there
      are cells, appears at the position `i` of its distance from that Sunday
      (and, by `GridIndexUnique`, nowhere else). */
  lemma GridCoversInterval(current: Date, d: Date, i: int)
    requires Valid(current) && Valid(d)
    requires i == DayNumber(d) - DayNumber(StartOfWeek(StartOfMonth(current)))
    requires 0 <= i < |MonthGrid(current)|
    ensures MonthGrid(current)[i] == d
  {
    GridCell(current, i);
    DayNumberInjective(MonthGrid(current)[i], d);
  }

  /** No day appears in two cells. */
  lemma GridIndexUnique(current: Date, i: int, j: int)
    requires Valid(current)
    requires 0 <= i < |MonthGrid(current)| && 0 <= j < |MonthGrid(current)|
    requires MonthGrid(current)[i] == MonthGrid(current)[j]
    ensures i == j
  {
    GridCell(current, i);
    GridCell(current, j);
  }

  /** The cells are in strictly ascending calendar order. */
  lemma GridAscending(current: Date, i: int, j: int)
    requires Valid(current)
    requires 0 <= i < j < |MonthGrid(current)|
    ensures Before(MonthGrid(current)[i], MonthGrid(current)[j])
  {
    var g := MonthGrid(current);
    GridCell(current, i);
    GridCell(current, j);
    BeforeIffDayNumber(g[i], g[j]);
  }

  /** A cell belongs to the displayed month exactly when it is not one of the
      leading or trailing spill-over days. */
  lemma InMonthIffNotSpillover(current: Date, i: int)
    requires Valid(current)
    requires 0 <= i < |MonthGrid(current)|
    ensures var lead := LeadingDays(current);
      SameMonth(MonthGrid(current)[i], current)
      <==> lead <= i < lead + DaysInMonth(current.year, current.month)
  {
    var g := MonthGrid(current);
    var lead := LeadingDays(current);
    var dim := DaysInMonth(current.year, current.month);
    GridCell(current, i);
    if SameMonth(g[i], current) {
      DayNumberInMonth(g[i]);
      assert StartOfMonth(g[i]) == StartOfMonth(current);
    }
    if lead <= i < lead + dim {
      GridCoversMonth(current, i - lead + 1);
    }
  }

  /** The grid depends only on the displayed month, not on the day within it. */
  lemma GridOfSameMonth(a: Date, b: Date)
    requires Valid(a) && Valid(b) && SameMonth(a, b)
    ensures MonthGrid(a) == MonthGrid(b)
  {
    assert StartOfMonth(a) == StartOfMonth(b);
  }

  /** The styling of one grid cell (calendar grid lines 156-159, sidebar
      lines 83-86): muted outside the displayed month, highlighted when it is
      today, ringed when it is the selected day. */
  datatype DayCell = DayCell(date: Date, outsideMonth: bool, isToday: bool, isSelected: bool)

  /** The styled cells for the month of `current`; `today` is the injected clock. */
  function Cells(current: Date, today: Date, selected: Option<Date>): (cells: seq<DayCell>)
    requires Valid(current)
    ensures |cells| == |MonthGrid(current)|
    ensures forall i :: 0 <= i < |cells| ==> cells[i].date == MonthGrid(current)[i]
  {
    var g := MonthGrid(current);
    seq(|g|, i requires 0 <= i < |g| =>
      DayCell(g[i], !SameMonth(g[i], current), g[i] == today, selected == Some(g[i])))
  }

  /** Muted cells are exactly the spill-over days, and at most one cell is
      selected (none when the selected day lies outside the grid). */
  lemma CellFlags(current: Date, today: Date, selected: Option<Date>, i: int, j: int)
    requires Valid(current)
    requires 0 <= i < |Cells(current, today, selected)| && 0 <= j < |Cells(current, today, selected)|
    ensures var cells := Cells(current, today, selected);
      var lead := LeadingDays(current);
      && (cells[i].outsideMonth <==> i < lead || i >= lead + DaysInMonth(current.year, current.month))
      && (cells[i].isSelected && cells[j].isSelected ==> i == j)
      && (cells[i].isToday && cells[j].isToday ==> i == j)
  {
    InMonthIffNotSpillover(current, i);
    if MonthGrid(current)[i] == MonthGrid(current)[j] {
      GridIndexUnique(current, i, j);
    }
  }

  lemma JuneDayNumbers()
    ensures DayNumber(Date(2023, 6, 1)) == 738671
    ensures DayNumber(Date(2023, 5, 28)) == 738667
    ensures DayNumber(Date(2023, 7, 1)) == 738701
    ensures Weekday(Date(2023, 6, 1)) == 4
    ensures Weekday(Date(2023, 6, 30)) == 5
    ensures DaysInMonth(2023, 6) == 30
  {
    assert !IsLeapYear(2023);
    assert DaysBeforeYear(2023) == 738520;
    assert DaysBeforeMonth(2023, 5) == 120;
    assert DaysBeforeMonth(2023, 6) == 151;
    assert DaysBeforeMonth(2023, 7) == 181;
  }

  /** The example of June 2023: the grid runs from Sunday 2023-05-28 to
      Saturday 2023-07-01, five weeks. */
  lemma JuneTwentyTwentyThree(c: Date)
    requires Valid(c) && c.year == 2023 && c.month == 6
    ensures var g := MonthGrid(c);
      |g| == 35 && g[0] == Date(2023, 5, 28) && g[34] == Date(2023, 7, 1)
  {
    JuneDayNumbers();
    var first := Date(2023, 6, 1);
    assert StartOfMonth(c) == first;
    GridSize(c);
    var g := MonthGrid(c);
    assert EndOfMonth(c) == Date(2023, 6, 30);
    assert |g| == 35;
    GridCell(c, 0);
    DayNumberInjective(g[0], Date(2023, 5, 28));
    GridCell(c, 34);
    DayNumberInjective(g[34], Date(2023, 7, 1));
  }
}
