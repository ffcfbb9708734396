/**
 * The event entity as far as comments are concerned: its identity, the
 * attributes the event queries filter on, and the nullable comment counter
 * that the moderation service bumps in place.
 */
module Events {
  import opened Wrappers

  /** The name of any state other than PUBLISHED; PUBLISHED itself has one spelling only. */
  type OtherStateName = s: string | s != "PUBLISHED" witness "PENDING"

  /** Only PUBLISHED matters to the core; every other state is carried by name. */
  datatype EventState = Published | OtherState(name: OtherStateName)

  /** A counter value the service can leave behind: null, or not negative. */
  predicate CounterOk(c: Option<int>) {
    c.None? || c.value >= 0
  }

  /** The value `incrementCommentCount` stores: null counts as 0 before adding one. */
  function Incremented(c: Option<int>): (r: int)
    ensures c.None? ==> r == 1
    ensures c.Some? ==> r == c.value + 1
    ensures CounterOk(c) ==> r >= 1
  {
    if c.None? then 1 else c.value + 1
  }

  /** The value `decrementCommentCount` stores: null becomes 0, otherwise one less, floored at 0. */
  function Decremented(c: Option<int>): (r: int)
    ensures c.None? ==> r == 0
    ensures c.Some? && c.value > 0 ==> r == c.value - 1
    ensures c.Some? && c.value <= 0 ==> r == 0
    ensures r >= 0
  {
    if c.None? then 0 else if c.value - 1 > 0 then c.value - 1 else 0
  }

  /** Both counter updates keep a counter that was null or non-negative non-negative. */
  lemma CounterUpdatesKeepCounterOk(c: Option<int>)
    requires CounterOk(c)
    ensures CounterOk(Some(Incremented(c))) && CounterOk(Some(Decremented(c)))
  {
  }

  /** Decrementing a counter that is already zero (or null) leaves zero. */
  lemma DecrementAtZero(c: Option<int>)
    requires c == None || c == Some(0)
    ensures Decremented(c) == 0
  {
  }

  /** Incrementing and then decrementing gives back a non-negative counter. */
  lemma IncrementThenDecrement(c: int)
    requires c >= 0
    ensures Decremented(Some(Incremented(Some(c)))) == c
  {
  }

  class Event {
    const id: int
    const title: string
    const state: EventState
    const initiatorId: int
    const categoryId: int
    const eventDate: int
    /** `Long commentCount`, which may be null in a row built without its default. */
    var commentCount: Option<int>

    /** An event made through the no-argument constructor: its counter starts at 0. */
    constructor (id: int, title: string, state: EventState, initiatorId: int, categoryId: int, eventDate: int)
      ensures this.id == id && this.title == title && this.state == state
      ensures this.initiatorId == initiatorId && this.categoryId == categoryId && this.eventDate == eventDate
      ensures commentCount == Some(0)
    {
      this.id := id;
      this.title := title;
      this.state := state;
      this.initiatorId := initiatorId;
      this.categoryId := categoryId;
      this.eventDate := eventDate;
      commentCount := Some(0);
    }

    method IncrementCommentCount()
      modifies this
      ensures commentCount == Some(Incremented(old(commentCount)))
    {
      commentCount := if commentCount.None? then Some(1) else Some(commentCount.value + 1);
    }

    method DecrementCommentCount()
      modifies this
      ensures commentCount == Some(Decremented(old(commentCount)))
      ensures commentCount.value >= 0
    {
      commentCount := if commentCount.None? then Some(0)
                      else Some(if commentCount.value - 1 > 0 then commentCount.value - 1 else 0);
    }
  }
}
