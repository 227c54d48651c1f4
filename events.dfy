/** The event record and the pure list operations the pages apply to it:
    the per-day query of the calendar grid (filter by day, then a stable sort
    on the time text), the filter that drops a deleted event, and the
    "View in Calendar" link. */
module Events {
  import opened Text
  import opened Dates
  import opened IsoDate

  /** An event as the remote store returns it. `time` and `endTime` are the
      wall-clock texts chosen in the popup (`hh:mm AM/PM`); `endTime` may be empty. */
  datatype Event = Event(id: string, title: string, date: Date, time: string, endTime: string, description: string)

  /** An event without its id (`Omit<Event, 'id'>`), as the popup submits it. */
  datatype Draft = Draft(title: string, date: Date, time: string, endTime: string, description: string)

  /** `{ ...draft, id }`. */
  function WithId(d: Draft, id: string): Event {
    Event(id, d.title, d.date, d.time, d.endTime, d.description)
  }

  function DraftOf(e: Event): Draft {
    Draft(e.title, e.date, e.time, e.endTime, e.description)
  }

  lemma WithIdRoundTrip(d: Draft, id: string)
    ensures DraftOf(WithId(d, id)) == d && WithId(d, id).id == id
  {
  }

  // ----- the per-day query -----

  /** `events.filter(event => isSameDay(event.date, day))`. */
  function OnDay(events: seq<Event>, day: Date): seq<Event> {
    if events == [] then []
    else (if events[0].date == day then [events[0]] else []) + OnDay(events[1..], day)
  }

  /** All events of `s` whose time text is exactly `t`, in order. */
  function WithTime(s: seq<Event>, t: string): seq<Event> {
    if s == [] then []
    else (if s[0].time == t then [s[0]] else []) + WithTime(s[1..], t)
  }

  predicate SortedByTime(s: seq<Event>) {
    forall i, j :: 0 <= i < j < |s| ==> StrLe(s[i].time, s[j].time)
  }

  /** Inserts `x` before the first element whose time is not earlier, so it
      precedes the elements with an equal time that were after it. */
  function InsertByTime(x: Event, s: seq<Event>): seq<Event> {
    if s == [] || StrLe(x.time, s[0].time) then [x] + s
    else [s[0]] + InsertByTime(x, s[1..])
  }

  /** `.sort((a, b) => a.time.localeCompare(b.time))`: JavaScript's sort is
      stable, modelled here by insertion sort. */
  function SortByTime(s: seq<Event>): seq<Event> {
    if s == [] then [] else InsertByTime(s[0], SortByTime(s[1..]))
  }

  /** `getEventsForDay(day)` of the calendar grid. */
  function EventsForDay(events: seq<Event>, day: Date): seq<Event> {
    SortByTime(OnDay(events, day))
  }

  lemma {:induction false} OnDayCount(events: seq<Event>, day: Date)
    ensures forall e :: multiset(OnDay(events, day))[e] == if e.date == day then multiset(events)[e] else 0
  {
    if events != [] {
      OnDayCount(events[1..], day);
      assert events == [events[0]] + events[1..];
    }
  }

  /** The day filter works piecewise on any split of the list, so the events
      it keeps stay in the order in which they were loaded. */
  lemma {:induction false} OnDayConcat(a: seq<Event>, b: seq<Event>, day: Date)
    ensures OnDay(a + b, day) == OnDay(a, day) + OnDay(b, day)
  {
    if a != [] {
      OnDayConcat(a[1..], b, day);
      assert (a + b)[1..] == a[1..] + b;
    } else {
      assert a + b == b;
    }
  }

  /** Every event of `s` has a time at or after `t`. */
  predicate AllAtOrAfter(t: string, s: seq<Event>) {
    forall k :: 0 <= k < |s| ==> StrLe(t, s[k].time)
  }

  lemma {:induction false} InsertByTimeCount(x: Event, s: seq<Event>)
    ensures multiset(InsertByTime(x, s)) == multiset(s) + multiset{x}
  {
    if s != [] && !StrLe(x.time, s[0].time) {
      InsertByTimeCount(x, s[1..]);
      assert s == [s[0]] + s[1..];
    }
  }

  lemma {:induction false} InsertByTimeBound(t: string, x: Event, s: seq<Event>)
    requires AllAtOrAfter(t, s) && StrLe(t, x.time)
    ensures AllAtOrAfter(t, InsertByTime(x, s))
  {
    if s != [] && !StrLe(x.time, s[0].time) {
      InsertByTimeBound(t, x, s[1..]);
    }
  }

  lemma {:induction false} InsertByTimeSorted(x: Event, s: seq<Event>)
    requires SortedByTime(s)
    ensures SortedByTime(InsertByTime(x, s))
  {
    if s == [] || StrLe(x.time, s[0].time) {
      forall j | 0 <= j < |s|
        ensures StrLe(x.time, s[j].time)
      {
        if j > 0 {
          StrLeTransitive(x.time, s[0].time, s[j].time);
        }
      }
    } else {
      StrLeTotal(x.time, s[0].time);
      var rest := s[1..];
      assert SortedByTime(rest);
      assert AllAtOrAfter(s[0].time, rest);
      InsertByTimeSorted(x, rest);
      InsertByTimeBound(s[0].time, x, rest);
    }
  }

  lemma {:induction false} SortByTimeSorted(s: seq<Event>)
    ensures SortedByTime(SortByTime(s))
    ensures multiset(SortByTime(s)) == multiset(s)
  {
    if s != [] {
      SortByTimeSorted(s[1..]);
      InsertByTimeSorted(s[0], SortByTime(s[1..]));
      InsertByTimeCount(s[0], SortByTime(s[1..]));
      assert s == [s[0]] + s[1..];
    }
  }

  lemma {:induction false} InsertByTimeStable(x: Event, s: seq<Event>, t: string)
    ensures WithTime(InsertByTime(x, s), t) == (if x.time == t then [x] else []) + WithTime(s, t)
  {
    if s == [] || StrLe(x.time, s[0].time) {
      assert ([x] + s)[1..] == s;
    } else {
      StrLeReflexive(x.time);
      InsertByTimeStable(x, s[1..], t);
      var r := [s[0]] + InsertByTime(x, s[1..]);
      assert r[1..] == InsertByTime(x, s[1..]);
    }
  }

  /** Sorting keeps events of equal time in their original relative order. */
  lemma {:induction false} SortByTimeStable(s: seq<Event>, t: string)
    ensures WithTime(SortByTime(s), t) == WithTime(s, t)
  {
    if s != [] {
      SortByTimeStable(s[1..], t);
      InsertByTimeStable(s[0], SortByTime(s[1..]), t);
    }
  }

  /** `getEventsForDay(day)` returns exactly the loaded events dated `day`
      (each as often as it is loaded), ordered by time text, and events with
      equal times keep their order in the day's filter, which is the order
      in which they were loaded (`OnDayConcat`). */
  lemma EventsForDaySpec(events: seq<Event>, day: Date)
    ensures var r := EventsForDay(events, day);
      && SortedByTime(r)
      && (forall e :: multiset(r)[e] == if e.date == day then multiset(events)[e] else 0)
      && (forall t :: WithTime(r, t) == WithTime(OnDay(events, day), t))
  {
    OnDayCount(events, day);
    SortByTimeSorted(OnDay(events, day));
    forall t
      ensures WithTime(EventsForDay(events, day), t) == WithTime(OnDay(events, day), t)
    {
      SortByTimeStable(OnDay(events, day), t);
    }
  }

  /** Times compare as text, not chronologically: "01:00 PM" sorts before
      "09:00 AM". */
  lemma TimeTextOrderIsNotChronological()
    ensures StrLe("01:00 PM", "09:00 AM") && !StrLe("09:00 AM", "01:00 PM")
  {
    assert "01:00 PM"[0] == '0' && "01:00 PM"[1] == '1';
    assert "09:00 AM"[0] == '0' && "09:00 AM"[1] == '9';
    assert "01:00 PM"[1..][1..] == ":00 PM";
  }

  // ----- dropping a deleted event -----

  /** `events.filter(event => event.id !== id)`. */
  function RemoveById(events: seq<Event>, id: string): seq<Event> {
    if events == [] then []
    else (if events[0].id == id then [] else [events[0]]) + RemoveById(events[1..], id)
  }

  /** The filter drops exactly the events with that id and keeps every other
      one, as often as it occurs, and leaves a list without that id as it is;
      it works piecewise on any split of the list (`RemoveByIdConcat`), so the
      kept events stay in their original order. */
  lemma RemoveByIdSpec(events: seq<Event>, id: string)
    ensures forall e :: multiset(RemoveById(events, id))[e] == if e.id == id then 0 else multiset(events)[e]
    ensures (forall e :: e in events ==> e.id != id) ==> RemoveById(events, id) == events
  {
    RemoveByIdCount(events, id);
    if forall e :: e in events ==> e.id != id {
      RemoveByIdKeepsAll(events, id);
    }
  }

  lemma {:induction false} RemoveByIdCount(events: seq<Event>, id: string)
    ensures forall e :: multiset(RemoveById(events, id))[e] == if e.id == id then 0 else multiset(events)[e]
  {
    if events != [] {
      var head := if events[0].id == id then [] else [events[0]];
      var rest := RemoveById(events[1..], id);
      RemoveByIdCount(events[1..], id);
      assert RemoveById(events, id) == head + rest;
      assert multiset(RemoveById(events, id)) == multiset(head) + multiset(rest);
      assert events == [events[0]] + events[1..];
      assert multiset(events) == multiset([events[0]]) + multiset(events[1..]);
    }
  }

  lemma {:induction false} RemoveByIdKeepsAll(events: seq<Event>, id: string)
    requires forall e :: e in events ==> e.id != id
    ensures RemoveById(events, id) == events
  {
    if events != [] {
      assert events[0] in events;
      forall e | e in events[1..]
        ensures e.id != id
      {
        assert e in events;
      }
      RemoveByIdKeepsAll(events[1..], id);
      assert events == [events[0]] + events[1..];
    }
  }

  lemma {:induction false} RemoveByIdConcat(a: seq<Event>, b: seq<Event>, id: string)
    ensures RemoveById(a + b, id) == RemoveById(a, id) + RemoveById(b, id)
  {
    if a != [] {
      RemoveByIdConcat(a[1..], b, id);
      assert (a + b)[1..] == a[1..] + b;
    } else {
      assert a + b == b;
    }
  }

  // ----- the calendar link -----

  const CalendarLinkPrefix := "/calendar?date="

  /** "View in Calendar": `/calendar?date=` and the event's date as `yyyy-MM-dd`. */
  function CalendarLink(e: Event): (url: string)
    requires Valid(e.date)
    ensures |url| == |CalendarLinkPrefix| + |FormatYmd(e.date)|
    ensures url[..|CalendarLinkPrefix|] == CalendarLinkPrefix
    ensures url[|CalendarLinkPrefix|..] == FormatYmd(e.date)
  {
    CalendarLinkPrefix + FormatYmd(e.date)
  }
}
