/** The calendar grid component's state and handlers: the loaded month of
    events, the selected day and event (the popup is open while a day is
    selected) and the slide direction. The displayed date belongs to the
    page; the grid reads it and hands new dates to the page's setter, which
    the navigation handlers return. Each awaited remote call is one atomic
    step whose outcome is a parameter. */
module CalendarGrid {
  import opened Dates
  import opened Outcomes
  import opened Events

  datatype GridState = GridState(
    direction: int,
    selectedDate: Option<Date>,
    selectedEvent: Option<Event>,
    events: seq<Event>)

  /** `[direction, selectedDate, selectedEvent, events]` at mount. */
  function InitialGrid(): GridState {
    GridState(0, None, None, [])
  }

  /** A selected event is always shown on its own day. */
  predicate PopupConsistent(s: GridState) {
    s.selectedEvent.Some? ==> s.selectedDate == Some(s.selectedEvent.value.date)
  }

  /** The month `loadEvents` asks for: `getMonth() + 1` and the full year. */
  function MonthRequest(currentDate: Date): (int, int) {
    (JsMonth(currentDate) + 1, currentDate.year)
  }

  /** `loadEvents`: a success replaces the events wholesale; a failure is
      caught and logged, and nothing changes. */
  function AfterLoad(s: GridState, response: Outcome<seq<Event>>): GridState {
    match response
    case Success(loaded) => s.(events := loaded)
    case Failure(_) => s
  }

  function AfterDateClick(s: GridState, date: Date): GridState {
    s.(selectedDate := Some(date), selectedEvent := None)
  }

  function AfterEventClick(s: GridState, e: Event): GridState {
    s.(selectedDate := Some(e.date), selectedEvent := Some(e))
  }

  function AfterClose(s: GridState): GridState {
    s.(selectedDate := None, selectedEvent := None)
  }

  /** The remote call `handleSaveEvent` makes. */
  datatype SaveCall = UpdateCall(event: Event) | AddCall(draft: Draft)

  function SaveCallFor(s: GridState, draft: Draft): SaveCall {
    match s.selectedEvent
    case Some(selected) => UpdateCall(WithId(draft, selected.id))
    case None => AddCall(draft)
  }

  /** `handleSaveEvent`: after a successful add or update the month is
      reloaded and the popup closed; after a failure nothing changes. */
  function AfterSave(s: GridState, mutation: Outcome<Event>, reload: Outcome<seq<Event>>): GridState {
    if mutation.Success? then AfterClose(AfterLoad(s, reload)) else s
  }

  /** `handleDeleteEvent`: only with a selected event; the same
      reload-and-close on success. */
  function AfterDelete(s: GridState, mutation: Outcome<()>, reload: Outcome<seq<Event>>): GridState {
    if s.selectedEvent.None? then s
    else if mutation.Success? then AfterClose(AfterLoad(s, reload))
    else s
  }

  /** The request names a real month, 1 to 12, of the displayed year. */
  lemma MonthRequestSpec(currentDate: Date)
    requires Valid(currentDate)
    ensures 1 <= MonthRequest(currentDate).0 <= 12
    ensures MonthRequest(currentDate) == (currentDate.month, currentDate.year)
  {
  }

  lemma LoadSpec(s: GridState, response: Outcome<seq<Event>>)
    ensures response.Success? ==> AfterLoad(s, response) == s.(events := response.value)
    ensures response.Failure? ==> AfterLoad(s, response) == s
  {
  }

  /** Saving updates the selected event under its own id, or adds a new
      one; success reloads and closes, and the reload's own failure still
      closes the popup, keeping the old list; a failed save changes nothing. */
  lemma SaveSpec(s: GridState, draft: Draft, mutation: Outcome<Event>, reload: Outcome<seq<Event>>)
    ensures s.selectedEvent.Some? ==>
      SaveCallFor(s, draft) == UpdateCall(WithId(draft, s.selectedEvent.value.id))
      && DraftOf(SaveCallFor(s, draft).event) == draft
    ensures s.selectedEvent.None? ==> SaveCallFor(s, draft) == AddCall(draft)
    ensures mutation.Success? ==>
      var r := AfterSave(s, mutation, reload);
      r.selectedDate.None? && r.selectedEvent.None? && r.direction == s.direction
      && r.events == (if reload.Success? then reload.value else s.events)
    ensures mutation.Failure? ==> AfterSave(s, mutation, reload) == s
  {
  }

  lemma DeleteSpec(s: GridState, mutation: Outcome<()>, reload: Outcome<seq<Event>>)
    ensures s.selectedEvent.None? ==> AfterDelete(s, mutation, reload) == s
    ensures s.selectedEvent.Some? && mutation.Success? ==>
      AfterDelete(s, mutation, reload) == AfterClose(AfterLoad(s, reload))
    ensures mutation.Failure? ==> AfterDelete(s, mutation, reload) == s
  {
  }

  /** Every handler keeps a selected event on its own day. */
  lemma HandlersKeepPopupConsistent(s: GridState, date: Date, e: Event, draft: Draft,
                                    save: Outcome<Event>, del: Outcome<()>, reload: Outcome<seq<Event>>)
    requires PopupConsistent(s)
    ensures PopupConsistent(AfterLoad(s, reload))
    ensures PopupConsistent(AfterDateClick(s, date))
    ensures PopupConsistent(AfterEventClick(s, e))
    ensures PopupConsistent(AfterClose(s))
    ensures PopupConsistent(AfterSave(s, save, reload))
    ensures PopupConsistent(AfterDelete(s, del, reload))
  {
  }

  /** The grid component: its state is `State()`, and each handler moves it
      by the matching function above. */
  class Controller {
    var direction: int
    var selectedDate: Option<Date>
    var selectedEvent: Option<Event>
    var events: seq<Event>

    function State(): GridState
      reads this
    {
      GridState(direction, selectedDate, selectedEvent, events)
    }

    constructor ()
      ensures State() == InitialGrid()
    {
      direction := 0;
      selectedDate := None;
      selectedEvent := None;
      events := [];
    }

    /** `getEventsForDay(day)`. */
    function EventsForDayOf(day: Date): seq<Event>
      reads this
    {
      EventsForDay(events, day)
    }

    /** `loadEvents()` for the displayed date: returns the month and year
        requested, then applies the response. */
    method LoadEvents(currentDate: Date, response: Outcome<seq<Event>>) returns (month: int, year: int)
      modifies this
      ensures (month, year) == MonthRequest(currentDate)
      ensures State() == AfterLoad(old(State()), response)
    {
      month, year := JsMonth(currentDate) + 1, currentDate.year;
      match response {
        case Success(loaded) =>
          events := loaded;
        case Failure(_) =>
      }
    }

    /** `goToPreviousMonth()`: returns the date passed to `setCurrentDate`. */
    method GoToPreviousMonth(currentDate: Date) returns (newDate: Date)
      requires Valid(currentDate)
      modifies this
      ensures newDate == SubMonths(currentDate, 1)
      ensures State() == old(State()).(direction := -1)
    {
      direction := -1;
      newDate := SubMonths(currentDate, 1);
    }

    method GoToNextMonth(currentDate: Date) returns (newDate: Date)
      requires Valid(currentDate)
      modifies this
      ensures newDate == AddMonths(currentDate, 1)
      ensures State() == old(State()).(direction := 1)
    {
      direction := 1;
      newDate := AddMonths(currentDate, 1);
    }

    /** `goToToday()`; `today` is the clock reading. */
    method GoToToday(today: Date) returns (newDate: Date)
      modifies this
      ensures newDate == today
      ensures State() == old(State()).(direction := 0)
    {
      direction := 0;
      newDate := today;
    }

    method HandleDateClick(date: Date)
      modifies this
      ensures State() == AfterDateClick(old(State()), date)
    {
      selectedDate := Some(date);
      selectedEvent := None;
    }

    method HandleEventClick(e: Event)
      modifies this
      ensures State() == AfterEventClick(old(State()), e)
    {
      selectedDate := Some(e.date);
      selectedEvent := Some(e);
    }

    method HandleClosePopup()
      modifies this
      ensures State() == AfterClose(old(State()))
    {
      selectedDate := None;
      selectedEvent := None;
    }

    /** `handleSaveEvent(draft)`: returns the remote call made, and the month
        reloaded after a success. */
    method HandleSaveEvent(currentDate: Date, draft: Draft, mutation: Outcome<Event>, reload: Outcome<seq<Event>>)
      returns (call: SaveCall, reloaded: Option<(int, int)>)
      modifies this
      ensures call == SaveCallFor(old(State()), draft)
      ensures reloaded == if mutation.Success? then Some(MonthRequest(currentDate)) else None
      ensures State() == AfterSave(old(State()), mutation, reload)
    {
      call := SaveCallFor(State(), draft);
      if mutation.Success? {
        var month, year := LoadEvents(currentDate, reload);
        reloaded := Some((month, year));
        HandleClosePopup();
      } else {
        reloaded := None;
      }
    }

    /** `handleDeleteEvent()`: returns the id sent to the delete call, if any. */
    method HandleDeleteEvent(currentDate: Date, mutation: Outcome<()>, reload: Outcome<seq<Event>>)
      returns (deletedId: Option<string>, reloaded: Option<(int, int)>)
      modifies this
      ensures deletedId == if old(selectedEvent).Some? then Some(old(selectedEvent).value.id) else None
      ensures reloaded == if old(selectedEvent).Some? && mutation.Success? then Some(MonthRequest(currentDate)) else None
      ensures State() == AfterDelete(old(State()), mutation, reload)
    {
      deletedId, reloaded := None, None;
      if selectedEvent.Some? {
        deletedId := Some(selectedEvent.value.id);
        if mutation.Success? {
          var month, year := LoadEvents(currentDate, reload);
          reloaded := Some((month, year));
          HandleClosePopup();
        }
      }
    }
  }
}
