/** The older events list component: without a user it sends the visitor
    home and renders nothing; with one it loads every event. Its delete
    handler refuses an empty id before calling the server. */
module LegacyEventsPage {
  import opened Outcomes
  import opened Events
  import opened Auth

  /** What the effect did: redirect, or start loading. */
  datatype Effect = RedirectHome | Loaded

  function EffectOf(user: Option<User>): Effect {
    if user.None? then RedirectHome else Loaded
  }

  /** The list after the effect, `response` being the outcome of `getAllEvents`. */
  function AfterEffect(events: seq<Event>, user: Option<User>, response: Outcome<seq<Event>>): seq<Event> {
    if user.Some? && response.Success? then response.value else events
  }

  /** `handleDeleteEvent(id)`: whether the server is called, and the list after. */
  function DeleteCalls(id: string): bool {
    id != ""
  }

  function AfterDelete(events: seq<Event>, id: string, outcome: Outcome<()>): seq<Event> {
    if !DeleteCalls(id) then events
    else if outcome.Success? then RemoveById(events, id)
    else events
  }

  /** An empty id makes no call and changes nothing, whatever the outcome;
      otherwise a success drops exactly the events with the id. */
  lemma DeleteSpec(events: seq<Event>, id: string, outcome: Outcome<()>)
    ensures id == "" ==> !DeleteCalls(id) && AfterDelete(events, id, outcome) == events
    ensures id != "" && outcome.Success? ==>
      forall e :: multiset(AfterDelete(events, id, outcome))[e] == if e.id == id then 0 else multiset(events)[e]
    ensures outcome.Failure? ==> AfterDelete(events, id, outcome) == events
  {
    RemoveByIdSpec(events, id);
  }

  lemma EffectSpec(events: seq<Event>, user: Option<User>, response: Outcome<seq<Event>>)
    ensures user.None? ==> EffectOf(user) == RedirectHome && AfterEffect(events, user, response) == events
    ensures user.Some? && response.Failure? ==> AfterEffect(events, user, response) == events
    ensures user.Some? && response.Success? ==> AfterEffect(events, user, response) == response.value
  {
  }

  class Page {
    var events: seq<Event>

    constructor ()
      ensures events == []
    {
      events := [];
    }

    /** The effect on `[user]`; a load failure is caught and logged. */
    method OnUser(user: Option<User>, response: Outcome<seq<Event>>) returns (effect: Effect)
      modifies this
      ensures effect == EffectOf(user)
      ensures events == AfterEffect(old(events), user, response)
    {
      if user.None? {
        effect := RedirectHome;
      } else {
        effect := Loaded;
        if response.Success? {
          events := response.value;
        }
      }
    }

    /** Renders nothing without a user. */
    function Renders(user: Option<User>): bool {
      user.Some?
    }

    method HandleDeleteEvent(id: string, outcome: Outcome<()>) returns (called: bool)
      modifies this
      ensures called == DeleteCalls(id)
      ensures events == AfterDelete(old(events), id, outcome)
    {
      if id == "" {
        return false;
      }
      called := true;
      if outcome.Success? {
        events := RemoveById(events, id);
      }
    }
  }
}
