/** The sidebar's mini calendar: the same week-aligned range as the main
    grid, one-letter weekday headers, month stepping and day selection.
    The component keeps no state of its own; each handler computes a date
    and passes it to a setter of the page. */
module Sidebar {
  import opened Dates
  import opened Outcomes
  import opened Grid

  /** `eachDayOfInterval` from `startOfWeek(startOfMonth(currentDate))` to
      `endOfWeek(endOfMonth(monthStart))`, written out as in the component. */
  function DateRange(currentDate: Date): seq<Date>
    requires Valid(currentDate)
  {
    var monthStart := StartOfMonth(currentDate);
    EachDayOfInterval(StartOfWeek(monthStart), EndOfWeek(EndOfMonth(monthStart)))
  }

  /** The mini calendar shows the very days of the main grid, so its
      columns are Sunday to Saturday as well. */
  lemma DateRangeIsMonthGrid(currentDate: Date)
    requires Valid(currentDate)
    ensures DateRange(currentDate) == MonthGrid(currentDate)
    ensures WeekColumns(DateRange(currentDate))
  {
    GridColumns(currentDate);
  }

  /** The header names of the main grid and of the sidebar. */
  const GridHeaders: seq<string> := ["Sun", "Mon", "Tue", "Wed", "Thu", "Fri", "Sat"]
  const SidebarHeaders: seq<string> := ["Sun", "Mon", "Tues", "Weds", "Thurs", "Fri", "Sat"]

  /** `day.slice(0, 1)` for every header. */
  function HeaderLabels(): (r: seq<string>)
    ensures |r| == |SidebarHeaders|
  {
    seq(|SidebarHeaders|, i requires 0 <= i < |SidebarHeaders| => SidebarHeaders[i][..1])
  }

  /** The headers read S, M, T, W, T, F, S: the initials of the main grid's
      day names, Sunday first, as the grid's columns are. */
  lemma HeaderLabelsSpec()
    ensures HeaderLabels() == ["S", "M", "T", "W", "T", "F", "S"]
    ensures forall i :: 0 <= i < 7 ==> HeaderLabels()[i] == GridHeaders[i][..1]
  {
    var r := HeaderLabels();
    assert r[0] == "S" && r[1] == "M" && r[2] == "T" && r[3] == "W";
    assert r[4] == "T" && r[5] == "F" && r[6] == "S";
  }

  /** `goToPreviousMonth` / `goToNextMonth`: the date handed to `setCurrentDate`. */
  function PreviousMonthTarget(currentDate: Date): (r: Date)
    requires Valid(currentDate)
    ensures Valid(r) && MonthIndex(r) == MonthIndex(currentDate) - 1
  {
    SubMonths(currentDate, 1)
  }

  function NextMonthTarget(currentDate: Date): (r: Date)
    requires Valid(currentDate)
    ensures Valid(r) && MonthIndex(r) == MonthIndex(currentDate) + 1
  {
    AddMonths(currentDate, 1)
  }

  /** Stepping forward from a day that exists in the next month and back
      again returns to it. */
  lemma StepForwardAndBack(currentDate: Date)
    requires Valid(currentDate)
    requires currentDate.day <= DaysInMonth(NextMonthTarget(currentDate).year, NextMonthTarget(currentDate).month)
    ensures PreviousMonthTarget(NextMonthTarget(currentDate)) == currentDate
  {
    AddMonthsRoundTrip(currentDate, 1);
  }

  /** The cell `i` click: `onDateSelect(day)` with that cell's own day. */
  function CellClick(currentDate: Date, i: int): (d: Date)
    requires Valid(currentDate) && 0 <= i < |DateRange(currentDate)|
    ensures d == MonthGrid(currentDate)[i] && Valid(d)
  {
    DateRangeIsMonthGrid(currentDate);
    GridCell(currentDate, i);
    DateRange(currentDate)[i]
  }

  /** The sidebar's cells; its `selectedDate` is always a day. */
  function SidebarCells(currentDate: Date, today: Date, selectedDate: Date): seq<DayCell>
    requires Valid(currentDate)
  {
    Cells(currentDate, today, Some(selectedDate))
  }

  /** The calendar page passes its displayed date as the selected date, so
      exactly one cell is highlighted: the displayed day itself. */
  lemma DisplayedDayIsSelected(currentDate: Date, today: Date)
    requires Valid(currentDate)
    ensures var cells := SidebarCells(currentDate, today, currentDate);
      var k := LeadingDays(currentDate) + currentDate.day - 1;
      0 <= k < |cells| && cells[k].isSelected && cells[k].date == currentDate
      && (forall i :: 0 <= i < |cells| && cells[i].isSelected ==> i == k)
  {
    var cells := SidebarCells(currentDate, today, currentDate);
    var k := LeadingDays(currentDate) + currentDate.day - 1;
    GridCoversMonth(currentDate, currentDate.day);
    forall i | 0 <= i < |cells| && cells[i].isSelected
      ensures i == k
    {
      CellFlags(currentDate, today, Some(currentDate), i, k);
    }
  }
}
