/** The in-memory event store: a module-level list of events, seeded with
    two June 2023 events, that the mock API reads, pages, appends to,
    overwrites and splices. */
module MockApi {
  import opened Text
  import opened Dates
  import opened Outcomes
  import opened Events

  // ----- lookup by id -----

  /** `findIndex(e => e.id === id)`, with -1 as None. */
  function FindIndex(events: seq<Event>, id: string): (r: Option<nat>)
    ensures r.Some? ==> r.value < |events| && events[r.value].id == id
    ensures r.Some? ==> forall j :: 0 <= j < r.value ==> events[j].id != id
    ensures r.None? <==> forall j :: 0 <= j < |events| ==> events[j].id != id
  {
    if events == [] then None
    else if events[0].id == id then Some(0)
    else match FindIndex(events[1..], id)
      case None => None
      case Some(i) => Some(i + 1)
  }

  /** `find(e => e.id === id)`, with undefined as None. */
  function FindFirst(events: seq<Event>, id: string): Option<Event> {
    if events == [] then None
    else if events[0].id == id then Some(events[0])
    else FindFirst(events[1..], id)
  }

  /** `find` returns the element at the position `findIndex` reports. */
  lemma {:induction false} FindFirstAtIndex(events: seq<Event>, id: string)
    ensures FindFirst(events, id).None? <==> FindIndex(events, id).None?
    ensures FindIndex(events, id).Some? ==> FindFirst(events, id) == Some(events[FindIndex(events, id).value])
  {
    if events != [] && events[0].id != id {
      FindFirstAtIndex(events[1..], id);
    }
  }

  predicate UniqueIds(events: seq<Event>) {
    forall i, j :: 0 <= i < j < |events| ==> events[i].id != events[j].id
  }

  // ----- the monthly query and its pages -----

  /** `events.filter(e => e.date.getMonth() === month && e.date.getFullYear() === year)`:
      `month` is compared with the 0-based month. */
  function InMonth(events: seq<Event>, month: int, year: int): seq<Event> {
    if events == [] then []
    else (if JsMonth(events[0].date) == month && events[0].date.year == year then [events[0]] else [])
         + InMonth(events[1..], month, year)
  }

  lemma {:induction false} InMonthSpec(events: seq<Event>, month: int, year: int)
    ensures forall e :: multiset(InMonth(events, month, year))[e]
                        == (if JsMonth(e.date) == month && e.date.year == year then multiset(events)[e] else 0)
  {
    if events != [] {
      InMonthSpec(events[1..], month, year);
      assert events == [events[0]] + events[1..];
    }
  }

  /** The month filter works piecewise on any split of the store, so the
      events it returns are in store order. */
  lemma {:induction false} InMonthConcat(a: seq<Event>, b: seq<Event>, month: int, year: int)
    ensures InMonth(a + b, month, year) == InMonth(a, month, year) + InMonth(b, month, year)
  {
    if a != [] {
      InMonthConcat(a[1..], b, month, year);
      assert (a + b)[1..] == a[1..] + b;
    } else {
      assert a + b == b;
    }
  }

  /** `Math.ceil(count / pageSize)`; a zero page size divides by zero, which
      gives Infinity, or NaN when the count is zero too. */
  datatype PageCount = Pages(n: int) | Infinite | NotANumber

  function TotalPages(count: nat, pageSize: int): PageCount {
    if pageSize > 0 then Pages((count + pageSize - 1) / pageSize)
    else if pageSize == 0 then (if count == 0 then NotANumber else Infinite)
    else Pages(-(count / -pageSize))
  }

  /** With a positive page size the count is the least number of pages that
      holds every event; it is zero exactly when nothing matches. */
  lemma TotalPagesSpec(count: nat, pageSize: int)
    requires pageSize > 0
    ensures TotalPages(count, pageSize).Pages?
    ensures var n := TotalPages(count, pageSize).n;
      n >= 0 && (n - 1) * pageSize < count <= n * pageSize && (n == 0 <==> count == 0)
  {
    var n := (count + pageSize - 1) / pageSize;
    var r := (count + pageSize - 1) % pageSize;
    assert count + pageSize - 1 == n * pageSize + r;
    assert n * pageSize == (n - 1) * pageSize + pageSize;
  }

  /** Where `slice` puts an index: negative ones count from the end, and
      both kinds are clamped to the list. */
  function SliceIndex(i: int, len: nat): (k: nat)
    ensures k <= len
  {
    if i < 0 then (if len + i < 0 then 0 else len + i)
    else if i > len then len else i
  }

  /** `s.slice(b, e)`. */
  function Slice<T>(s: seq<T>, b: int, e: int): seq<T> {
    var lo, hi := SliceIndex(b, |s|), SliceIndex(e, |s|);
    if lo < hi then s[lo..hi] else []
  }

  lemma SliceIndexSpread(b: int, e: int, len: nat)
    requires b <= e
    ensures SliceIndex(e, len) - SliceIndex(b, len) <= e - b
  {
  }

  /** Page `page` of `s`: elements `(page - 1) * pageSize` up to `page * pageSize`. */
  function Page(s: seq<Event>, page: int, pageSize: int): seq<Event> {
    Slice(s, (page - 1) * pageSize, page * pageSize)
  }

  /** Pages 1 to `k`, one after another. */
  function FirstPages(s: seq<Event>, pageSize: int, k: nat): seq<Event> {
    if k == 0 then [] else FirstPages(s, pageSize, k - 1) + Page(s, k, pageSize)
  }

  /** A page never holds more than `pageSize` events. */
  lemma PageBound(s: seq<Event>, page: int, pageSize: int)
    requires pageSize > 0
    ensures |Page(s, page, pageSize)| <= pageSize
  {
    var b, e := (page - 1) * pageSize, page * pageSize;
    assert e - b == pageSize;
    SliceIndexSpread(b, e, |s|);
  }

  lemma PageSplit(s: seq<Event>, k: nat, pageSize: int, b: nat, e: nat)
    requires pageSize > 0 && k >= 1
    requires b == (k - 1) * pageSize && e == k * pageSize
    ensures Page(s, k, pageSize) == s[(if b < |s| then b else |s|)..(if e < |s| then e else |s|)]
  {
    assert e == b + pageSize;
  }

  lemma {:induction false} FirstPagesPrefix(s: seq<Event>, pageSize: int, k: nat)
    requires pageSize > 0
    ensures var e := k * pageSize;
      FirstPages(s, pageSize, k) == s[..(if e < |s| then e else |s|)]
  {
    if k > 0 {
      FirstPagesPrefix(s, pageSize, k - 1);
      var b, e := (k - 1) * pageSize, k * pageSize;
      assert b >= 0 && e == b + pageSize;
      PageSplit(s, k, pageSize, b, e);
      var lo, hi := (if b < |s| then b else |s|), (if e < |s| then e else |s|);
      assert s[..lo] + s[lo..hi] == s[..hi];
    }
  }

  lemma MulMonotone(x: int, y: int, c: int)
    requires x <= y && c > 0
    ensures x * c <= y * c
  {
    assert y * c - x * c == (y - x) * c;
  }

  /** Reading pages 1 to `totalPages` in turn gives the whole filtered list,
      and every page after the last is empty. */
  lemma PagesCoverAll(s: seq<Event>, pageSize: int, page: int)
    requires pageSize > 0
    ensures FirstPages(s, pageSize, TotalPages(|s|, pageSize).n) == s
    ensures page > TotalPages(|s|, pageSize).n ==> Page(s, page, pageSize) == []
  {
    TotalPagesSpec(|s|, pageSize);
    var n: nat := TotalPages(|s|, pageSize).n;
    var e := n * pageSize;
    assert e >= |s|;
    FirstPagesPrefix(s, pageSize, n);
    assert s[..|s|] == s;
    if page > n {
      MulMonotone(n, page - 1, pageSize);
    }
  }

  // ----- the list operations behind the store's mutations -----

  /** `mockEvents[index] = event` for the first element with the same id;
      no change when there is none. */
  function ReplaceFirst(events: seq<Event>, e: Event): seq<Event> {
    match FindIndex(events, e.id)
    case None => events
    case Some(i) => events[i := e]
  }

  /** `mockEvents.splice(index, 1)` for the first element with the id; no
      change when there is none. */
  function RemoveFirst(events: seq<Event>, id: string): seq<Event> {
    match FindIndex(events, id)
    case None => events
    case Some(i) => events[..i] + events[i + 1..]
  }

  /** After a replacement the id finds the new event, the length is kept and
      every other position, a later one with the same id included, is
      unchanged; ids stay unique. */
  lemma ReplaceFirstSpec(events: seq<Event>, e: Event)
    ensures |ReplaceFirst(events, e)| == |events|
    ensures FindIndex(events, e.id).Some? ==>
      ReplaceFirst(events, e) == events[FindIndex(events, e.id).value := e]
    ensures FindIndex(events, e.id).Some? ==> FindFirst(ReplaceFirst(events, e), e.id) == Some(e)
    ensures FindIndex(events, e.id).None? ==> ReplaceFirst(events, e) == events
    ensures forall j :: 0 <= j < |events| && events[j].id != e.id ==> ReplaceFirst(events, e)[j] == events[j]
    ensures UniqueIds(events) ==> UniqueIds(ReplaceFirst(events, e))
  {
    var r := ReplaceFirst(events, e);
    if FindIndex(events, e.id).Some? {
      var i := FindIndex(events, e.id).value;
      assert r[i].id == e.id;
      assert FindIndex(r, e.id).value == i;
      FindFirstAtIndex(r, e.id);
    }
  }

  /** `FindIndex` of `b` moved `k` places on. */
  function Shifted(r: Option<nat>, k: nat): Option<nat> {
    match r
    case None => None
    case Some(i) => Some(i + k)
  }

  lemma {:induction false} FindIndexAfter(a: seq<Event>, b: seq<Event>, id: string)
    requires FindIndex(a, id).None?
    ensures FindIndex(a + b, id) == Shifted(FindIndex(b, id), |a|)
  {
    if a != [] {
      assert (a + b)[1..] == a[1..] + b;
      FindIndexAfter(a[1..], b, id);
    } else {
      assert a + b == b;
    }
  }

  /** Removing drops exactly the first element with the id: one element
      fewer when the id occurs, the rest as often as before. */
  lemma RemoveFirstCount(events: seq<Event>, id: string)
    ensures FindIndex(events, id).None? ==> RemoveFirst(events, id) == events
    ensures FindIndex(events, id).Some? ==>
      var i := FindIndex(events, id).value;
      |RemoveFirst(events, id)| == |events| - 1
      && multiset(RemoveFirst(events, id)) == multiset(events) - multiset{events[i]}
  {
    if FindIndex(events, id).Some? {
      SpliceOut(events, FindIndex(events, id).value);
    }
  }

  lemma SpliceOut<T>(s: seq<T>, i: nat)
    requires i < |s|
    ensures |s[..i] + s[i + 1..]| == |s| - 1
    ensures multiset(s[..i] + s[i + 1..]) == multiset(s) - multiset{s[i]}
  {
    assert s == s[..i] + ([s[i]] + s[i + 1..]);
  }

  /** A later duplicate of the id survives the removal, one place earlier. */
  lemma RemoveFirstKeepsLater(events: seq<Event>, id: string)
    requires FindIndex(events, id).Some?
    ensures var i := FindIndex(events, id).value;
      FindIndex(RemoveFirst(events, id), id) == Shifted(FindIndex(events[i + 1..], id), i)
  {
    var i := FindIndex(events, id).value;
    var before, after := events[..i], events[i + 1..];
    assert FindIndex(before, id).None? by {
      assert forall j :: 0 <= j < |before| ==> before[j] == events[j];
    }
    FindIndexAfter(before, after, id);
    assert RemoveFirst(events, id) == before + after;
  }

  lemma RemoveFirstUnique(events: seq<Event>, id: string)
    requires UniqueIds(events)
    ensures UniqueIds(RemoveFirst(events, id))
  {
    if FindIndex(events, id).Some? {
      var i := FindIndex(events, id).value;
      var r := RemoveFirst(events, id);
      forall a, b | 0 <= a < b < |r|
        ensures r[a].id != r[b].id
      {
        var a', b' := (if a < i then a else a + 1), (if b < i then b else b + 1);
        assert r[a] == events[a'] && r[b] == events[b'];
      }
    }
  }

  lemma {:induction false} RemoveByIdAbsent(events: seq<Event>, id: string)
    requires forall j :: 0 <= j < |events| ==> events[j].id != id
    ensures RemoveById(events, id) == events
  {
    if events != [] {
      RemoveByIdAbsent(events[1..], id);
    }
  }

  lemma RemoveByIdSingle(before: seq<Event>, x: Event, after: seq<Event>, id: string)
    requires forall j :: 0 <= j < |before| ==> before[j].id != id
    requires x.id == id
    requires forall j :: 0 <= j < |after| ==> after[j].id != id
    ensures RemoveById(before + [x] + after, id) == before + after
  {
    RemoveByIdAbsent(before, id);
    RemoveByIdAbsent(after, id);
    RemoveByIdConcat(before, [x], id);
    assert RemoveById([x], id) == [];
    assert RemoveById(before + [x], id) == before by {
      assert before + [] == before;
    }
    RemoveByIdConcat(before + [x], after, id);
  }

  /** With unique ids, removing the first match is the same as the pages'
      filter that drops every event with the id. */
  lemma RemoveFirstIsRemoveById(events: seq<Event>, id: string)
    requires UniqueIds(events)
    ensures RemoveFirst(events, id) == RemoveById(events, id)
  {
    match FindIndex(events, id)
    case None =>
      RemoveByIdAbsent(events, id);
    case Some(i) =>
      var before, after := events[..i], events[i + 1..];
      assert events == before + [events[i]] + after;
      forall j | 0 <= j < |after|
        ensures after[j].id != id
      {
        assert after[j] == events[i + 1 + j];
      }
      RemoveByIdSingle(before, events[i], after, id);
  }

  /** Appending an event whose id is new makes that id find it. */
  lemma AppendFound(events: seq<Event>, e: Event)
    requires FindIndex(events, e.id).None?
    ensures FindFirst(events + [e], e.id) == Some(e)
    ensures UniqueIds(events) ==> UniqueIds(events + [e])
  {
    FindIndexAfter(events, [e], e.id);
    assert FindIndex([e], e.id) == Some(0);
    FindFirstAtIndex(events + [e], e.id);
  }

  // ----- the seeded store -----

  function SeedEvents(): seq<Event> {
    [ Event("1", "Team Meeting", Date(2023, 6, 15), "10:00 AM", "11:00 AM", "Weekly team sync"),
      Event("2", "Project Deadline", Date(2023, 6, 20), "09:00 AM", "05:00 PM", "Final submission for Project X") ]
  }

  const DefaultPage := 1
  const DefaultPageSize := 10

  /** The store answers the 0-based month: June 2023 is month 5 and holds
      both seed events, on the default first page, while the calendar's
      1-based request for June (6) matches nothing. */
  lemma SeedMonths()
    ensures InMonth(SeedEvents(), 5, 2023) == SeedEvents()
    ensures Page(InMonth(SeedEvents(), 5, 2023), DefaultPage, DefaultPageSize) == SeedEvents()
    ensures InMonth(SeedEvents(), 6, 2023) == []
    ensures TotalPages(|InMonth(SeedEvents(), 5, 2023)|, DefaultPageSize) == Pages(1)
    ensures UniqueIds(SeedEvents())
  {
    var s := SeedEvents();
    assert s[1..][1..] == [];
    assert InMonth(s[1..], 5, 2023) == [s[1]];
  }

  class MockStore {
    var events: seq<Event>

    constructor ()
      ensures events == SeedEvents()
    {
      events := SeedEvents();
    }

    /** `getEventsByMonth(month, year, page, pageSize)`: one page of the
        month's events and the page count; the store is only read. */
    function GetEventsByMonth(month: int, year: int, page: int, pageSize: int): (r: (seq<Event>, PageCount))
      reads this
      ensures r.0 == Page(InMonth(events, month, year), page, pageSize)
      ensures r.1 == TotalPages(|InMonth(events, month, year)|, pageSize)
    {
      var filtered := InMonth(events, month, year);
      (Page(filtered, page, pageSize), TotalPages(|filtered|, pageSize))
    }

    /** `getEventById(id)`. */
    function GetEventById(id: string): (r: Option<Event>)
      reads this
      ensures r.Some? ==> r.value in events && r.value.id == id
      ensures r.Some? ==> FindIndex(events, id).Some? && r.value == events[FindIndex(events, id).value]
      ensures r.None? <==> forall j :: 0 <= j < |events| ==> events[j].id != id
    {
      FindFirstAtIndex(events, id);
      FindFirst(events, id)
    }

    /** `addEvent(draft)`: the id is the clock reading `now` in decimal;
        the new event is appended and returned. */
    method AddEvent(draft: Draft, now: nat) returns (e: Event)
      modifies this
      ensures e == WithId(draft, NatToString(now))
      ensures events == old(events) + [e]
    {
      e := WithId(draft, NatToString(now));
      events := events + [e];
    }

    /** `updateEvent(event)`: overwrites the first event with the same id
        and returns the argument either way. */
    method UpdateEvent(e: Event) returns (r: Event)
      modifies this
      ensures r == e
      ensures events == ReplaceFirst(old(events), e)
    {
      var index := FindIndex(events, e.id);
      if index.Some? {
        events := events[index.value := e];
      }
      r := e;
    }

    /** `deleteEvent(id)`: splices out the first event with the id. */
    method DeleteEvent(id: string)
      modifies this
      ensures events == RemoveFirst(old(events), id)
    {
      var index := FindIndex(events, id);
      if index.Some? {
        events := events[..index.value] + events[index.value + 1..];
      }
    }
  }
}
