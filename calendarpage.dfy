/** The calendar page: it owns the displayed date, which starts at today,
    can be set from the `date` query parameter, and is changed by the
    sidebar and the grid; without a user it redirects home and renders
    nothing. */
module CalendarPage {
  import opened Dates
  import opened Outcomes
  import opened IsoDate
  import opened Events
  import opened Auth

  /** `searchParams.get('date')` for the one form of address the application
      builds: `/calendar?date=` followed by the value. */
  function DateParam(url: string): (r: Option<string>)
    ensures r.Some? <==> |url| >= |CalendarLinkPrefix| && url[..|CalendarLinkPrefix|] == CalendarLinkPrefix
    ensures r.Some? ==> url == CalendarLinkPrefix + r.value
  {
    if |url| >= |CalendarLinkPrefix| && url[..|CalendarLinkPrefix|] == CalendarLinkPrefix
    then Some(url[|CalendarLinkPrefix|..])
    else None
  }

  /** The effect on `[searchParams]`: a present, non-empty parameter that
      `parseISO` reads as a real date replaces the displayed date; in every
      other case it stays. */
  function NewCurrentDate(current: Date, param: Option<string>): Date {
    if param.Some? && param.value != "" && ParseIsoDate(param.value).Some?
    then ParseIsoDate(param.value).value
    else current
  }

  /** The displayed date is replaced exactly when the parameter parses, and
      then by the parsed day; it is always a real date. */
  lemma NewCurrentDateSpec(current: Date, param: Option<string>)
    requires Valid(current)
    ensures Valid(NewCurrentDate(current, param))
    ensures param.None? || param == Some("") ==> NewCurrentDate(current, param) == current
    ensures param.Some? && ParseIsoDate(param.value).None? ==> NewCurrentDate(current, param) == current
    ensures param.Some? && ParseIsoDate(param.value).Some? ==>
      NewCurrentDate(current, param) == ParseIsoDate(param.value).value
  {
    if param.Some? && param.value == "" {
      assert ParseIsoDate(param.value).None?;
    }
  }

  /** Following an event's "View in Calendar" link shows the event's own day,
      whatever was displayed before, for every year of four digits. */
  lemma FollowCalendarLink(current: Date, e: Event)
    requires Valid(e.date) && 1 <= e.date.year <= 9999
    ensures DateParam(CalendarLink(e)) == Some(FormatYmd(e.date))
    ensures NewCurrentDate(current, DateParam(CalendarLink(e))) == e.date
  {
    var url := CalendarLink(e);
    assert url == CalendarLinkPrefix + FormatYmd(e.date);
    assert DateParam(url).value == FormatYmd(e.date);
    ParseFormatRoundTrip(e.date);
  }

  /** The effect on `[user]` redirects, and the page renders, by the same test. */
  function RedirectsHome(user: Option<User>): bool {
    user.None?
  }

  function Renders(user: Option<User>): bool {
    user.Some?
  }

  class Page {
    var currentDate: Date
    var isSidebarOpen: bool

    /** `useState(new Date())`; `today` is the clock reading. */
    constructor (today: Date)
      ensures currentDate == today && isSidebarOpen
    {
      currentDate := today;
      isSidebarOpen := true;
    }

    method ApplyDateParam(param: Option<string>)
      modifies this
      ensures currentDate == NewCurrentDate(old(currentDate), param)
      ensures isSidebarOpen == old(isSidebarOpen)
    {
      if param.Some? && param.value != "" {
        var parsed := ParseIsoDate(param.value);
        if parsed.Some? {
          currentDate := parsed.value;
        }
      }
    }

    /** `setCurrentDate`, handed to the sidebar (also as `onDateSelect`) and
        to the grid. */
    method SetCurrentDate(date: Date)
      modifies this
      ensures currentDate == date && isSidebarOpen == old(isSidebarOpen)
    {
      currentDate := date;
    }

    method SetSidebarOpen(open: bool)
      modifies this
      ensures isSidebarOpen == open && currentDate == old(currentDate)
    {
      isSidebarOpen := open;
    }

    /** The sidebar's `selectedDate` is the displayed date. */
    function SelectedDate(): Date
      reads this
    {
      currentDate
    }
  }
}
