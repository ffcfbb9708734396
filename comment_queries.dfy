/**
 * The derived queries of the comment repository over the comment table,
 * keyed by comment id. List queries give the set of matching ids; the order
 * a page of them comes back in belongs to the database and is not modelled.
 */
module CommentQueries {
  import opened Wrappers
  import opened Comments
  import opened Seqs

  type Store = map<int, Comment>

  /** `findById`. */
  function FindById(store: Store, id: int): (r: Option<Comment>)
    ensures r.Some? <==> id in store
    ensures r.Some? ==> r.value == store[id]
  {
    if id in store then Some(store[id]) else None
  }

  /** `findByIdAndEventIdAndAuthorId`: the comment, only if id, event and author all match. */
  function FindByIdAndEventIdAndAuthorId(store: Store, id: int, eventId: int, authorId: int): (r: Option<Comment>)
    ensures r.Some? <==> id in store && OfEvent(store[id], eventId) && ByAuthor(store[id], authorId)
    ensures r.Some? ==> r.value == store[id]
  {
    if id in store && OfEvent(store[id], eventId) && ByAuthor(store[id], authorId) then Some(store[id]) else None
  }

  /** `findByIdAndEventId`: the comment, only if id and event both match. */
  function FindByIdAndEventId(store: Store, id: int, eventId: int): (r: Option<Comment>)
    ensures r.Some? <==> id in store && OfEvent(store[id], eventId)
    ensures r.Some? ==> r.value == store[id]
  {
    if id in store && OfEvent(store[id], eventId) then Some(store[id]) else None
  }

  /** `existsByEventIdAndAuthorId`: some comment, in any state, by that author on that event. */
  predicate ExistsByEventIdAndAuthorId(store: Store, eventId: int, authorId: int)
  {
    exists k :: k in store && OfEvent(store[k], eventId) && ByAuthor(store[k], authorId)
  }

  /** `existsByEventIdAndAuthorIdAndStatus`: as the plain exists query, with the state pinned too. */
  predicate ExistsByEventIdAndAuthorIdAndStatus(store: Store, eventId: int, authorId: int, s: CommentStatus)
    ensures ExistsByEventIdAndAuthorIdAndStatus(store, eventId, authorId, s) ==>
              ExistsByEventIdAndAuthorId(store, eventId, authorId)
  {
    exists k :: k in store && OfEvent(store[k], eventId) && ByAuthor(store[k], authorId) && HasStatus(store[k], s)
  }

  /** `findByEventIdAndAuthorId`: the comments both of the event and of the author. */
  function FindByEventIdAndAuthorId(store: Store, eventId: int, authorId: int): (r: set<int>)
    ensures r == FindByEventId(store, eventId) * FindByAuthorId(store, authorId)
  {
    set k | k in store && OfEvent(store[k], eventId) && ByAuthor(store[k], authorId)
  }

  /** `findByEventIdAndStatus`, before paging: the event's comments that are in state `s`. */
  function FindByEventIdAndStatus(store: Store, eventId: int, s: CommentStatus): (r: set<int>)
    ensures r == FindByEventId(store, eventId) * FindByStatus(store, s)
  {
    set k | k in store && OfEvent(store[k], eventId) && HasStatus(store[k], s)
  }

  /** `findByStatus`, before paging: the stored comments in state `s`. */
  function FindByStatus(store: Store, s: CommentStatus): (r: set<int>)
    ensures r <= store.Keys
  {
    set k | k in store && HasStatus(store[k], s)
  }

  /** `findByAuthorId`, before paging: the stored comments of the author. */
  function FindByAuthorId(store: Store, authorId: int): (r: set<int>)
    ensures r <= store.Keys
  {
    set k | k in store && ByAuthor(store[k], authorId)
  }

  /** `findByEventId`: the stored comments of the event. */
  function FindByEventId(store: Store, eventId: int): (r: set<int>)
    ensures r <= store.Keys
  {
    set k | k in store && OfEvent(store[k], eventId)
  }

  /** `countByEventIdAndStatus`: the number of comments of that event in that state. */
  function CountByEventIdAndStatus(store: Store, eventId: int, s: CommentStatus): (n: nat)
    ensures n <= |FindByStatus(store, s)|
  {
    SubsetCardinality(FindByEventIdAndStatus(store, eventId, s), FindByStatus(store, s));
    |FindByEventIdAndStatus(store, eventId, s)|
  }

  /** The two comments share both their author and their event. */
  predicate SameAuthorAndEvent(a: Comment, b: Comment) {
    && a.event.Some? && b.event.Some? && a.event.value.id == b.event.value.id
    && a.author.Some? && b.author.Some? && a.author.value.id == b.author.value.id
  }

  /** No author has two comments on one event. */
  predicate OneCommentPerAuthorAndEvent(store: Store) {
    forall k1, k2 | k1 in store && k2 in store && SameAuthorAndEvent(store[k1], store[k2]) :: k1 == k2
  }

  /** Where no author has two comments on one event, the (event, author) lookup finds at most one. */
  lemma AtMostOneCommentPerAuthorAndEvent(store: Store, eventId: int, authorId: int)
    requires OneCommentPerAuthorAndEvent(store)
    ensures |FindByEventIdAndAuthorId(store, eventId, authorId)| <= 1
  {
    var found := FindByEventIdAndAuthorId(store, eventId, authorId);
    if found != {} {
      var k := Pick(found);
      forall j | j in found
        ensures j == k
      {
        assert SameAuthorAndEvent(store[j], store[k]);
      }
      assert found == {k};
    }
  }

  /** The count is at most the event's comment total, and positive exactly when such a comment exists. */
  lemma CountBounds(store: Store, eventId: int, s: CommentStatus)
    ensures CountByEventIdAndStatus(store, eventId, s) <= |FindByEventId(store, eventId)|
    ensures CountByEventIdAndStatus(store, eventId, s) > 0 <==>
              exists k :: k in store && OfEvent(store[k], eventId) && HasStatus(store[k], s)
  {
    var found := FindByEventIdAndStatus(store, eventId, s);
    SubsetCardinality(found, FindByEventId(store, eventId));
    if k :| k in store && OfEvent(store[k], eventId) && HasStatus(store[k], s) {
      assert k in found;
    }
    if |found| > 0 {
      var k := Pick(found);
      assert k in store && OfEvent(store[k], eventId) && HasStatus(store[k], s);
    }
  }

  /** The exists query holds exactly when the matching list query is non-empty. */
  lemma ExistsIffFound(store: Store, eventId: int, authorId: int)
    ensures ExistsByEventIdAndAuthorId(store, eventId, authorId) <==> FindByEventIdAndAuthorId(store, eventId, authorId) != {}
  {
    if ExistsByEventIdAndAuthorId(store, eventId, authorId) {
      var k :| k in store && OfEvent(store[k], eventId) && ByAuthor(store[k], authorId);
      assert k in FindByEventIdAndAuthorId(store, eventId, authorId);
    }
    var found := FindByEventIdAndAuthorId(store, eventId, authorId);
    if found != {} {
      var k := Pick(found);
      assert k in store && OfEvent(store[k], eventId) && ByAuthor(store[k], authorId);
    }
  }

  /** A comment found by (id, event, author) is the one found by (id, event). */
  lemma StricterLookupAgrees(store: Store, id: int, eventId: int, authorId: int)
    requires FindByIdAndEventIdAndAuthorId(store, id, eventId, authorId).Some?
    ensures FindByIdAndEventId(store, id, eventId) == FindByIdAndEventIdAndAuthorId(store, id, eventId, authorId)
  {
  }

  /** The ids among `ids` whose stored comment is in state `s`. */
  function ByStatus(store: Store, ids: set<int>, s: CommentStatus): (r: set<int>)
    ensures r <= ids
    ensures forall k :: k in ids && k in store && HasStatus(store[k], s) ==> k in r
    ensures forall k :: k in r ==> k in store && HasStatus(store[k], s)
  {
    set k | k in ids && k in store && HasStatus(store[k], s)
  }

  /**
   * When every id is stored with a status, the four per-status subsets add
   * up to the whole set.
   */
  lemma StatusPartition(store: Store, ids: set<int>)
    requires forall k :: k in ids ==> k in store && store[k].status.Some?
    ensures |ByStatus(store, ids, Pending)| + |ByStatus(store, ids, Published)|
          + |ByStatus(store, ids, Rejected)| + |ByStatus(store, ids, Deleted)| == |ids|
  {
    var a := ByStatus(store, ids, Pending);
    var b := ByStatus(store, ids, Published);
    var c := ByStatus(store, ids, Rejected);
    var d := ByStatus(store, ids, Deleted);
    forall k | k in ids
      ensures k in a + b + c + d
    {
      match store[k].status.value
      case Pending => assert k in a;
      case Published => assert k in b;
      case Rejected => assert k in c;
      case Deleted => assert k in d;
    }
    assert ids == a + b + c + d;
    assert a !! b && (a + b) !! c && (a + b + c) !! d;
  }

  /**
   * When every comment of the event has a status, the four per-status counts
   * add up to the number of the event's comments.
   */
  lemma CountsPartitionEvent(store: Store, eventId: int)
    requires forall k :: k in store && OfEvent(store[k], eventId) ==> store[k].status.Some?
    ensures CountByEventIdAndStatus(store, eventId, Pending) + CountByEventIdAndStatus(store, eventId, Published)
          + CountByEventIdAndStatus(store, eventId, Rejected) + CountByEventIdAndStatus(store, eventId, Deleted)
         == |FindByEventId(store, eventId)|
  {
    var all := FindByEventId(store, eventId);
    StatusPartition(store, all);
    assert FindByEventIdAndStatus(store, eventId, Pending) == ByStatus(store, all, Pending);
    assert FindByEventIdAndStatus(store, eventId, Published) == ByStatus(store, all, Published);
    assert FindByEventIdAndStatus(store, eventId, Rejected) == ByStatus(store, all, Rejected);
    assert FindByEventIdAndStatus(store, eventId, Deleted) == ByStatus(store, all, Deleted);
  }
}
