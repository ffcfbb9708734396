/**
 * The derived and hand-written queries of the event repository, as filters
 * over the event table (a sequence of events in table order). A `None` filter
 * argument is a SQL `NULL` parameter, which the admin query reads as "any".
 */
module EventQueries {
  import opened Wrappers
  import opened Seqs
  import opened Events

  /** `NULL` means no restriction; otherwise the value must be in the list. */
  predicate InOptional<T(==)>(x: T, xs: Option<seq<T>>) {
    xs.None? || x in xs.value
  }

  /** The WHERE clause of `findEventsByAdmin`; both date bounds are inclusive. */
  predicate AdminMatch(e: Event, users: Option<seq<int>>, states: Option<seq<EventState>>,
                       categories: Option<seq<int>>, rangeStart: Option<int>, rangeEnd: Option<int>)
  {
    && InOptional(e.initiatorId, users)
    && InOptional(e.state, states)
    && InOptional(e.categoryId, categories)
    && (rangeStart.None? || e.eventDate >= rangeStart.value)
    && (rangeEnd.None? || e.eventDate <= rangeEnd.value)
  }

  /** `findEventsByAdmin`, before paging: the events matching every given filter. */
  function FindEventsByAdmin(events: seq<Event>, users: Option<seq<int>>, states: Option<seq<EventState>>,
                             categories: Option<seq<int>>, rangeStart: Option<int>, rangeEnd: Option<int>)
    : (r: seq<Event>)
    ensures forall i :: 0 <= i < |r| ==> r[i] in events
    ensures forall i :: 0 <= i < |r| ==>
      && (users.Some? ==> r[i].initiatorId in users.value)
      && (states.Some? ==> r[i].state in states.value)
      && (categories.Some? ==> r[i].categoryId in categories.value)
      && (rangeStart.Some? ==> rangeStart.value <= r[i].eventDate)
      && (rangeEnd.Some? ==> r[i].eventDate <= rangeEnd.value)
    ensures forall i :: 0 <= i < |events| && AdminMatch(events[i], users, states, categories, rangeStart, rangeEnd) ==>
              events[i] in r
  {
    Filter(events, (e: Event) => AdminMatch(e, users, states, categories, rangeStart, rangeEnd))
  }

  /** With every filter absent, the admin query returns the whole table. */
  lemma AdminWithoutFilters(events: seq<Event>)
    ensures FindEventsByAdmin(events, None, None, None, None, None) == events
  {
    FilterKeepsAll(events, (e: Event) => AdminMatch(e, None, None, None, None, None));
  }

  /** Filtering with a predicate every element satisfies changes nothing. */
  lemma {:induction false} FilterKeepsAll<T>(s: seq<T>, p: T -> bool)
    requires forall i :: 0 <= i < |s| ==> p(s[i])
    ensures Filter(s, p) == s
  {
    if s != [] {
      FilterKeepsAll(s[1..], p);
    }
  }

  /** `findByIdIn`: the events whose id is in `ids`. */
  function FindByIdIn(events: seq<Event>, ids: seq<int>): (r: seq<Event>)
    ensures forall i :: 0 <= i < |r| ==> r[i] in events && r[i].id in ids
    ensures forall i :: 0 <= i < |events| && events[i].id in ids ==> events[i] in r
  {
    Filter(events, (e: Event) => e.id in ids)
  }

  /** `findByStateAndEventDateAfter`: events in `state` dated strictly after `t`. */
  function FindByStateAndEventDateAfter(events: seq<Event>, state: EventState, t: int): (r: seq<Event>)
    ensures forall i :: 0 <= i < |r| ==> r[i] in events && r[i].state == state && r[i].eventDate > t
    ensures forall i :: 0 <= i < |events| && events[i].state == state && events[i].eventDate > t ==>
              events[i] in r
  {
    Filter(events, (e: Event) => e.state == state && e.eventDate > t)
  }

  /** `findByInitiatorId`, before paging. */
  function FindByInitiatorId(events: seq<Event>, initiatorId: int): (r: seq<Event>)
    ensures forall i :: 0 <= i < |r| ==> r[i] in events && r[i].initiatorId == initiatorId
    ensures forall i :: 0 <= i < |events| && events[i].initiatorId == initiatorId ==> events[i] in r
  {
    Filter(events, (e: Event) => e.initiatorId == initiatorId)
  }

  /** The first event of the table satisfying `p`, if any. */
  function FindFirst(events: seq<Event>, p: Event -> bool): (r: Option<Event>)
    ensures r.Some? ==> r.value in events && p(r.value)
    ensures r.None? ==> forall i :: 0 <= i < |events| ==> !p(events[i])
  {
    if events == [] then None else if p(events[0]) then Some(events[0]) else FindFirst(events[1..], p)
  }

  /** `findByIdAndState`: an event is returned only when both its id and its state match. */
  function FindByIdAndState(events: seq<Event>, id: int, state: EventState): (r: Option<Event>)
    ensures r.Some? ==> r.value in events && r.value.id == id && r.value.state == state
    ensures r.None? <==> forall i :: 0 <= i < |events| ==> events[i].id != id || events[i].state != state
  {
    FindFirst(events, (e: Event) => e.id == id && e.state == state)
  }

  /** `findByIdAndInitiatorId`: an event is returned only when both its id and its initiator match. */
  function FindByIdAndInitiatorId(events: seq<Event>, id: int, initiatorId: int): (r: Option<Event>)
    ensures r.Some? ==> r.value in events && r.value.id == id && r.value.initiatorId == initiatorId
    ensures r.None? <==> forall i :: 0 <= i < |events| ==> events[i].id != id || events[i].initiatorId != initiatorId
  {
    FindFirst(events, (e: Event) => e.id == id && e.initiatorId == initiatorId)
  }
}
