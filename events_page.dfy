/** The "All Events" page: it waits for the session to finish loading,
    sends a visitor without a user to the home page, otherwise loads every
    event; it deletes events and links each one to its day in the calendar. */
module EventsPage {
  import opened Outcomes
  import opened Events
  import opened Auth

  datatype ListState = ListState(events: seq<Event>, isLoading: bool)

  /** What the effect did. */
  datatype Gate = Wait | RedirectHome | Loaded

  /** What the page renders. */
  datatype View = Spinner | Nothing | EventList(events: seq<Event>)

  function InitialList(): ListState {
    ListState([], true)
  }

  /** `checkAuthAndLoadEvents`: `authLoading` and `user` are the session
      state the effect sees, `response` the outcome of `getAllEvents`. */
  function GateOf(authLoading: bool, user: Option<User>): Gate {
    if authLoading then Wait else if user.None? then RedirectHome else Loaded
  }

  function AfterCheck(s: ListState, authLoading: bool, user: Option<User>, response: Outcome<seq<Event>>): ListState {
    match GateOf(authLoading, user)
    case Wait => s
    case RedirectHome => s.(isLoading := false)
    case Loaded => ListState(if response.Success? then response.value else s.events, false)
  }

  /** `handleDeleteEvent(id)`: the list is filtered only after the remote
      delete succeeds. */
  function AfterDelete(s: ListState, id: string, outcome: Outcome<()>): ListState {
    if outcome.Success? then s.(events := RemoveById(s.events, id)) else s
  }

  function Render(authLoading: bool, user: Option<User>, s: ListState): View {
    if authLoading then Spinner else if user.None? then Nothing else EventList(s.events)
  }

  /** While the session loads nothing happens and a spinner shows; without a
      user the page leaves for '/' and keeps its list; with one, the list is
      what the server returned, or as it was after a failure. Loading ends
      in both of the last two cases. */
  lemma CheckSpec(s: ListState, authLoading: bool, user: Option<User>, response: Outcome<seq<Event>>)
    ensures authLoading ==> AfterCheck(s, authLoading, user, response) == s
                            && Render(authLoading, user, s) == Spinner
    ensures !authLoading && user.None? ==>
      GateOf(authLoading, user) == RedirectHome
      && AfterCheck(s, authLoading, user, response) == s.(isLoading := false)
      && Render(authLoading, user, s) == Nothing
    ensures !authLoading && user.Some? ==>
      var r := AfterCheck(s, authLoading, user, response);
      !r.isLoading && r.events == (if response.Success? then response.value else s.events)
  {
  }

  /** A successful delete removes every event with the id, keeps each other
      event as often as before and in its order; a failed one changes nothing. */
  lemma DeleteSpec(s: ListState, id: string, outcome: Outcome<()>, before: seq<Event>, after: seq<Event>)
    requires s.events == before + after
    ensures outcome.Success? ==>
      var r := AfterDelete(s, id, outcome).events;
      (forall e :: multiset(r)[e] == if e.id == id then 0 else multiset(s.events)[e])
      && r == RemoveById(before, id) + RemoveById(after, id)
    ensures outcome.Failure? ==> AfterDelete(s, id, outcome) == s
  {
    RemoveByIdSpec(s.events, id);
    RemoveByIdConcat(before, after, id);
  }

  class Page {
    var events: seq<Event>
    var isLoading: bool

    function State(): ListState
      reads this
    {
      ListState(events, isLoading)
    }

    constructor ()
      ensures State() == InitialList()
    {
      events := [];
      isLoading := true;
    }

    /** The effect on `[user, loading]`. */
    method CheckAuthAndLoadEvents(authLoading: bool, user: Option<User>, response: Outcome<seq<Event>>)
      returns (gate: Gate)
      modifies this
      ensures gate == GateOf(authLoading, user)
      ensures State() == AfterCheck(old(State()), authLoading, user, response)
    {
      if authLoading {
        return Wait;
      }
      if user.None? {
        gate := RedirectHome;
      } else {
        LoadEvents(response);
        gate := Loaded;
      }
      isLoading := false;
    }

    /** `loadEvents()`: a failure is caught and the list kept. */
    method LoadEvents(response: Outcome<seq<Event>>)
      modifies this
      ensures State() == old(State()).(events := if response.Success? then response.value else old(events))
    {
      if response.Success? {
        events := response.value;
      }
    }

    method HandleDeleteEvent(id: string, outcome: Outcome<()>)
      modifies this
      ensures State() == AfterDelete(old(State()), id, outcome)
    {
      if outcome.Success? {
        events := RemoveById(events, id);
      }
    }
  }
}
