/**
 * The comment service: the moderation lifecycle of comments on events
 * (create, author edit, author delete, moderator decision, admin delete), the
 * per-event comment counter it maintains as it goes, its input validators and
 * its read paths.
 *
 * The counter is changed by create (+1, although the new comment is only
 * PENDING), by a moderation decision (+1 into PUBLISHED, -1 out of it) and by
 * both deletes (-1 when the comment was PUBLISHED); an author edit demotes a
 * PUBLISHED comment to PENDING without touching it. So the counter does not
 * track the number of PUBLISHED comments; what every operation does keep is
 * that no counter is negative.
 */
module Moderation {
  import opened Wrappers
  import opened JavaText
  import opened Seqs
  import opened Paging
  import opened Exceptions
  import opened Events
  import opened Comments
  import opened CommentMapping
  import opened CommentQueries

  const MinTextLength := 10
  const MaxTextLength := 2000
  const MaxPageSize := 100
  const SecondsPerHour := 3600

  const CommentNotFound := "Комментарий не найден"

  // ---------------------------------------------------------------- validators

  /** `validateId`: a null or non-positive id is refused with Forbidden. */
  function ValidateId(id: Option<int>, fieldName: string): (r: Option<AppException>)
    ensures r.None? <==> id.Some? && id.value > 0
    ensures r.Some? ==> r.value.ForbiddenException?
  {
    if id.None? || id.value <= 0 then Some(ForbiddenException(fieldName + " должен быть положительным числом"))
    else None
  }

  /** `validatePagination`: `from` must not be negative and `size` must lie in [1, 100]. */
  function ValidatePagination(from: int, size: int): (r: Option<AppException>)
    ensures r.None? <==> 0 <= from && 1 <= size <= MaxPageSize
    ensures r.Some? ==> r.value.ForbiddenException?
  {
    if from < 0 then Some(ForbiddenException("Параметр 'from' должен быть не меньше 0"))
    else if size <= 0 || size > MaxPageSize then Some(ForbiddenException("Параметр 'size' должен быть от 1 до 100"))
    else None
  }

  /**
   * `validateCommentText`: the text is accepted exactly when it is not null
   * and its trimmed length lies in [10, 2000]; every refusal is Forbidden.
   */
  function ValidateCommentText(text: Option<string>): (r: Option<AppException>)
    ensures r.None? <==> text.Some? && MinTextLength <= |Trim(text.value)| <= MaxTextLength
    ensures r.Some? ==> r.value.ForbiddenException?
    ensures text.None? || IsBlank(text.value) ==> r.Some?
  {
    if text.None? || Trim(text.value) == [] then Some(ForbiddenException("Текст комментария не может быть пустым"))
    else if |Trim(text.value)| < MinTextLength then
      Some(ForbiddenException("Текст комментария должен быть не менее 10 символов"))
    else if |Trim(text.value)| > MaxTextLength then
      Some(ForbiddenException("Текст комментария должен быть не более 2000 символов"))
    else None
  }

  /** Trimmed lengths 9 and 2001 are refused; 10 and 2000 are accepted. */
  lemma TextLengthBoundaries(s: string)
    ensures |Trim(s)| == 9 || |Trim(s)| == 2001 ==> ValidateCommentText(Some(s)).Some?
    ensures |Trim(s)| == 10 || |Trim(s)| == 2000 ==> ValidateCommentText(Some(s)).None?
  {
  }

  /** Surrounding blanks never change the verdict: only the trimmed text is measured. */
  lemma TextVerdictIgnoresTrimming(s: string)
    ensures ValidateCommentText(Some(Trim(s))).None? <==> ValidateCommentText(Some(s)).None?
  {
    TrimIdempotent(s);
  }

  /** `validateCommentForUpdate`: REJECTED and DELETED comments cannot be edited. */
  function ValidateCommentForUpdate(c: Comment): (r: Option<AppException>)
    ensures r.None? <==> !HasStatus(c, Rejected) && !HasStatus(c, Deleted)
    ensures r.Some? ==> r.value.ForbiddenException?
  {
    if HasStatus(c, Rejected) then Some(ForbiddenException("Нельзя редактировать отклоненный комментарий"))
    else if HasStatus(c, Deleted) then Some(ForbiddenException("Комментарий был удален"))
    else None
  }

  // ----------------------------------------------------------- counter ledger

  /**
   * The counter after `updateEventCommentCountAfterModeration`: incremented
   * on a move into PUBLISHED, decremented on a move out of it, else as it was.
   */
  function CounterAfterModeration(count: Option<int>, oldStatus: Option<CommentStatus>, newStatus: CommentStatus)
    : (r: Option<int>)
    ensures r.None? ==> count.None? && (oldStatus == Some(CommentStatus.Published)) == (newStatus == CommentStatus.Published)
    ensures r != count ==> r.Some?
  {
    if oldStatus == Some(CommentStatus.Published) && newStatus != CommentStatus.Published then Some(Decremented(count))
    else if oldStatus != Some(CommentStatus.Published) && newStatus == CommentStatus.Published then Some(Incremented(count))
    else count
  }

  /** Repeating a moderation decision (same status again) leaves the counter alone. */
  lemma RepeatedModerationKeepsCounter(count: Option<int>, s: CommentStatus)
    ensures CounterAfterModeration(count, Some(s), s) == count
  {
  }

  /** On a non-negative counter, the change is exactly +1 into PUBLISHED and -1 (floored) out of it. */
  lemma ModerationCounterDelta(n: int, oldStatus: Option<CommentStatus>, newStatus: CommentStatus)
    requires n >= 0
    ensures oldStatus != Some(CommentStatus.Published) && newStatus == CommentStatus.Published ==>
              CounterAfterModeration(Some(n), oldStatus, newStatus) == Some(n + 1)
    ensures oldStatus == Some(CommentStatus.Published) && newStatus != CommentStatus.Published ==>
              CounterAfterModeration(Some(n), oldStatus, newStatus) == Some(if n > 0 then n - 1 else 0)
    ensures (oldStatus == Some(CommentStatus.Published)) == (newStatus == CommentStatus.Published) ==>
              CounterAfterModeration(Some(n), oldStatus, newStatus) == Some(n)
  {
  }

  /** Moderation never leaves a negative counter behind. */
  lemma ModerationKeepsCounterOk(count: Option<int>, oldStatus: Option<CommentStatus>, newStatus: CommentStatus)
    requires CounterOk(count)
    ensures CounterOk(CounterAfterModeration(count, oldStatus, newStatus))
  {
  }

  // --------------------------------------------------------------- read paths

  /** The DTOs of the stored comments `ids`, in that order. */
  function Dtos(store: Store, ids: seq<int>): (r: seq<CommentDto>)
    requires forall i :: 0 <= i < |ids| ==> ids[i] in store
    ensures |r| == |ids|
    ensures forall i :: 0 <= i < |ids| ==> r[i] == ToDto(store[ids[i]])
  {
    seq(|ids|, i requires 0 <= i < |ids| => ToDto(store[ids[i]]))
  }

  /** The stored comment's text, lower-cased, contains the lower-cased search text. */
  predicate TextMatches(c: Comment, needle: string) {
    c.text.Some? && Contains(ToLower(c.text.value), ToLower(needle))
  }

  /** The ids among `ids` whose comment matches the search text, in order. */
  function KeepMatchingText(store: Store, ids: seq<int>, needle: string): (r: seq<int>)
    requires forall i :: 0 <= i < |ids| ==> ids[i] in store
    ensures |r| <= |ids|
    ensures forall i :: 0 <= i < |r| ==> r[i] in ids && TextMatches(store[r[i]], needle)
    ensures forall i :: 0 <= i < |ids| && TextMatches(store[ids[i]], needle) ==> ids[i] in r
  {
    if ids == [] then []
    else (if TextMatches(store[ids[0]], needle) then [ids[0]] else []) + KeepMatchingText(store, ids[1..], needle)
  }

  /** The comment was created strictly after `since`. */
  predicate CreatedAfter(c: Comment, since: int) {
    c.created.Some? && c.created.value > since
  }

  /** The ids among `ids` whose comment was created strictly after `since`, in order. */
  function KeepCreatedAfter(store: Store, ids: seq<int>, since: int): (r: seq<int>)
    requires forall i :: 0 <= i < |ids| ==> ids[i] in store
    ensures |r| <= |ids|
    ensures forall i :: 0 <= i < |r| ==> r[i] in ids && CreatedAfter(store[r[i]], since)
    ensures forall i :: 0 <= i < |ids| && CreatedAfter(store[ids[i]], since) ==> ids[i] in r
  {
    if ids == [] then []
    else (if CreatedAfter(store[ids[0]], since) then [ids[0]] else []) + KeepCreatedAfter(store, ids[1..], since)
  }

  /** The counts `getUserCommentStats` reports. */
  datatype CommentStats = CommentStats(total: nat, published: nat, pending: nat, rejected: nat)

  // ------------------------------------------------------------------ service

  class CommentService {
    /** The comment table, keyed by comment id. */
    var comments: Store
    /** The id the table's identity column hands out next. */
    var nextId: int
    /** The user table, read only. */
    const users: map<int, User>
    /** The event table; only the events' comment counters change. */
    const events: map<int, Event>

    /** A row of the comment table as the service leaves it: every column it sets is present. */
    predicate Stored(c: Comment, k: int) {
      && c.id == Some(k)
      && c.text.Some? && c.author.Some? && c.status.Some? && c.created.Some?
      && c.event.Some? && c.event.value.id in events && events[c.event.value.id] == c.event.value
    }

    ghost predicate Valid()
      reads this, events.Values
    {
      && nextId >= 1
      && (forall id | id in users :: users[id].id == id)
      && (forall id | id in events :: events[id].id == id)
      && (forall k | k in comments :: 1 <= k < nextId && Stored(comments[k], k))
      && (forall id | id in events :: CounterOk(events[id].commentCount))
      && OneCommentPerAuthorAndEvent(comments)
    }

    /** Every event's counter is as it was, except those of the events `except`. */
    twostate predicate CountersKept(except: set<int>)
      reads this, events.Values
    {
      forall id | id in events && id !in except :: events[id].commentCount == old(events[id].commentCount)
    }

    constructor (users: map<int, User>, events: map<int, Event>)
      requires forall id | id in users :: users[id].id == id
      requires forall id | id in events :: events[id].id == id && CounterOk(events[id].commentCount)
      ensures Valid()
      ensures this.users == users && this.events == events && comments == map[] && nextId == 1
    {
      this.users := users;
      this.events := events;
      comments := map[];
      nextId := 1;
    }

    /**
     * `createComment`. Guards in order: both ids, the text, the user, the
     * event, the event's state, an earlier comment by the same author on the
     * event in any state. On success a PENDING comment with the trimmed text
     * is stored under a fresh id and the event's counter goes up by one.
     */
    method CreateComment(userId: int, eventId: int, dto: NewCommentDto, now: int)
      returns (r: Result<CommentDto, AppException>)
      requires Valid()
      modifies this, events.Values
      ensures Valid()
      ensures userId <= 0 || eventId <= 0 ==> r.Failure? && r.error.ForbiddenException?
      ensures userId > 0 && eventId > 0 && ValidateCommentText(dto.text).Some? ==>
                r == Failure(ValidateCommentText(dto.text).value)
      ensures userId > 0 && eventId > 0 && ValidateCommentText(dto.text).None? ==>
                && (userId !in users ==> r.Failure? && r.error.NotFoundException?)
                && (userId in users && eventId !in events ==> r.Failure? && r.error.NotFoundException?)
                && (userId in users && eventId in events && events[eventId].state != EventState.Published ==>
                      r.Failure? && r.error.ForbiddenException?)
                && (userId in users && eventId in events && events[eventId].state == EventState.Published &&
                    ExistsByEventIdAndAuthorId(old(comments), eventId, userId) ==>
                      r.Failure? && r.error.ForbiddenException?)
      ensures r.Success? <==>
                && userId > 0 && eventId > 0 && ValidateCommentText(dto.text).None?
                && userId in users && eventId in events && events[eventId].state == EventState.Published
                && !ExistsByEventIdAndAuthorId(old(comments), eventId, userId)
      ensures r.Failure? ==> comments == old(comments) && nextId == old(nextId) && CountersKept({})
      ensures r.Success? ==>
                var c := Comment(Some(old(nextId)), Some(Trim(dto.text.value)), Some(events[eventId]),
                                 Some(users[userId]), Some(Pending), Some(now), None, None);
                && old(nextId) !in old(comments)
                && comments == old(comments)[old(nextId) := c]
                && nextId == old(nextId) + 1
                && events[eventId].commentCount == Some(Incremented(old(events[eventId].commentCount)))
                && CountersKept({eventId})
                && r.value == ToDto(c)
                && ExistsByEventIdAndAuthorId(comments, eventId, userId)
    {
      var err := ValidateId(Some(userId), "ID пользователя");
      if err.Some? { return Failure(err.value); }
      err := ValidateId(Some(eventId), "ID события");
      if err.Some? { return Failure(err.value); }
      err := ValidateCommentText(dto.text);
      if err.Some? { return Failure(err.value); }
      if userId !in users {
        return Failure(NotFoundException("Пользователь с id=" + DecimalString(userId) + " не найден"));
      }
      if eventId !in events {
        return Failure(NotFoundException("Событие с id=" + DecimalString(eventId) + " не найдено"));
      }
      var event := events[eventId];
      if event.state != EventState.Published {
        return Failure(ForbiddenException("Нельзя комментировать неопубликованное событие"));
      }
      if ExistsByEventIdAndAuthorId(comments, eventId, userId) {
        return Failure(ForbiddenException("Вы уже оставляли комментарий к этому событию"));
      }
      var c := Comment(Some(nextId), Some(Trim(dto.text.value)), Some(event), Some(users[userId]),
                       Some(Pending), Some(now), None, None);
      comments := comments[nextId := c];
      assert OfEvent(comments[nextId], eventId) && ByAuthor(comments[nextId], userId);
      nextId := nextId + 1;
      event.IncrementCommentCount();
      r := Success(ToDto(c));
    }

    /**
     * `updateComment`. Guards in order: the three ids, the text, a comment
     * matching (id, event, author), a status other than REJECTED or DELETED.
     * On success the text is replaced by the given one, untrimmed, `edited`
     * is set, and a PUBLISHED comment goes back to PENDING; no counter moves.
     */
    method UpdateComment(userId: int, eventId: int, commentId: int, dto: NewCommentDto, now: int)
      returns (r: Result<CommentDto, AppException>)
      requires Valid()
      modifies this
      ensures Valid()
      ensures nextId == old(nextId)
      ensures userId <= 0 || eventId <= 0 || commentId <= 0 ==> r.Failure? && r.error.ForbiddenException?
      ensures userId > 0 && eventId > 0 && commentId > 0 && ValidateCommentText(dto.text).Some? ==>
                r == Failure(ValidateCommentText(dto.text).value)
      ensures userId > 0 && eventId > 0 && commentId > 0 && ValidateCommentText(dto.text).None? ==>
                && (FindByIdAndEventIdAndAuthorId(old(comments), commentId, eventId, userId).None? ==>
                      r.Failure? && r.error.NotFoundException?)
                && (FindByIdAndEventIdAndAuthorId(old(comments), commentId, eventId, userId).Some? &&
                    (HasStatus(old(comments)[commentId], Rejected) || HasStatus(old(comments)[commentId], Deleted)) ==>
                      r.Failure? && r.error.ForbiddenException?)
      ensures r.Success? <==>
                && userId > 0 && eventId > 0 && commentId > 0 && ValidateCommentText(dto.text).None?
                && FindByIdAndEventIdAndAuthorId(old(comments), commentId, eventId, userId).Some?
                && ValidateCommentForUpdate(old(comments)[commentId]).None?
      ensures r.Failure? ==> comments == old(comments)
      ensures r.Success? ==>
                var was := old(comments)[commentId];
                var c := was.(text := dto.text, edited := Some(now),
                              status := if HasStatus(was, CommentStatus.Published) then Some(Pending) else was.status);
                && comments == old(comments)[commentId := c]
                && HasStatus(comments[commentId], Pending)
                && r.value == ToDto(c)
    {
      var err := ValidateId(Some(userId), "ID пользователя");
      if err.Some? { return Failure(err.value); }
      err := ValidateId(Some(eventId), "ID события");
      if err.Some? { return Failure(err.value); }
      err := ValidateId(Some(commentId), "ID комментария");
      if err.Some? { return Failure(err.value); }
      err := ValidateCommentText(dto.text);
      if err.Some? { return Failure(err.value); }
      var found := FindByIdAndEventIdAndAuthorId(comments, commentId, eventId, userId);
      if found.None? { return Failure(NotFoundException(CommentNotFound)); }
      var c := found.value;
      err := ValidateCommentForUpdate(c);
      if err.Some? { return Failure(err.value); }
      assert Stored(c, commentId);
      assert c.status.value == Pending || c.status.value == CommentStatus.Published;
      c := c.(text := dto.text, edited := Some(now));
      if HasStatus(c, CommentStatus.Published) {
        c := c.(status := Some(Pending));
      }
      comments := comments[commentId := c];
      r := Success(ToDto(c));
    }

    /**
     * `deleteComment` by its author. Guards: the three ids, a comment matching
     * (id, event, author). There is no status guard: the comment becomes
     * DELETED whatever it was, and the event's counter drops (floored at 0)
     * exactly when it was PUBLISHED.
     */
    method DeleteComment(userId: int, eventId: int, commentId: int) returns (r: Result<(), AppException>)
      requires Valid()
      modifies this, events.Values
      ensures Valid()
      ensures nextId == old(nextId)
      ensures userId <= 0 || eventId <= 0 || commentId <= 0 ==> r.Failure? && r.error.ForbiddenException?
      ensures userId > 0 && eventId > 0 && commentId > 0 &&
              FindByIdAndEventIdAndAuthorId(old(comments), commentId, eventId, userId).None? ==>
                r.Failure? && r.error.NotFoundException?
      ensures r.Success? <==>
                userId > 0 && eventId > 0 && commentId > 0 &&
                FindByIdAndEventIdAndAuthorId(old(comments), commentId, eventId, userId).Some?
      ensures r.Failure? ==> comments == old(comments) && CountersKept({})
      ensures r.Success? ==>
                var was := old(comments)[commentId];
                && eventId in events
                && comments == old(comments)[commentId := was.(status := Some(Deleted))]
                && events[eventId].commentCount ==
                     (if HasStatus(was, CommentStatus.Published) then Some(Decremented(old(events[eventId].commentCount)))
                      else old(events[eventId].commentCount))
                && CountersKept({eventId})
    {
      var err := ValidateId(Some(userId), "ID пользователя");
      if err.Some? { return Failure(err.value); }
      err := ValidateId(Some(eventId), "ID события");
      if err.Some? { return Failure(err.value); }
      err := ValidateId(Some(commentId), "ID комментария");
      if err.Some? { return Failure(err.value); }
      var found := FindByIdAndEventIdAndAuthorId(comments, commentId, eventId, userId);
      if found.None? { return Failure(NotFoundException(CommentNotFound)); }
      var c := found.value;
      var oldStatus := c.status;
      comments := comments[commentId := c.(status := Some(Deleted))];
      if oldStatus == Some(CommentStatus.Published) {
        var event := c.event.value;
        event.DecrementCommentCount();
      }
      r := Success(());
    }

    /** `updateEventCommentCountAfterModeration` on one event. */
    method UpdateEventCommentCountAfterModeration(event: Event, oldStatus: Option<CommentStatus>,
                                                  newStatus: CommentStatus)
      modifies event
      ensures event.commentCount == CounterAfterModeration(old(event.commentCount), oldStatus, newStatus)
    {
      if oldStatus == Some(CommentStatus.Published) && newStatus != CommentStatus.Published {
        event.DecrementCommentCount();
      } else if oldStatus != Some(CommentStatus.Published) && newStatus == CommentStatus.Published {
        event.IncrementCommentCount();
      }
    }

    /**
     * `moderateComment`. Guards in order: the id, a non-null target status
     * (checked before the lookup), an existing comment. On success the status
     * and the moderator message are overwritten and the counter of the
     * comment's event is reconciled with the move into or out of PUBLISHED.
     */
    method ModerateComment(commentId: int, request: CommentAdminRequest) returns (r: Result<CommentDto, AppException>)
      requires Valid()
      modifies this, events.Values
      ensures Valid()
      ensures nextId == old(nextId)
      ensures commentId <= 0 || request.status.None? ==> r.Failure? && r.error.ForbiddenException?
      ensures commentId > 0 && request.status.Some? && commentId !in old(comments) ==>
                r.Failure? && r.error.NotFoundException?
      ensures r.Success? <==> commentId > 0 && request.status.Some? && commentId in old(comments)
      ensures r.Failure? ==> comments == old(comments) && CountersKept({})
      ensures r.Success? ==>
                var was := old(comments)[commentId];
                var eventId := was.event.value.id;
                var c := was.(status := request.status, moderatorMessage := request.moderatorMessage);
                && eventId in events
                && comments == old(comments)[commentId := c]
                && events[eventId].commentCount ==
                     CounterAfterModeration(old(events[eventId].commentCount), was.status, request.status.value)
                && CountersKept({eventId})
                && r.value == ToDto(c)
    {
      var err := ValidateId(Some(commentId), "ID комментария");
      if err.Some? { return Failure(err.value); }
      if request.status.None? {
        return Failure(ForbiddenException("Статус комментария не может быть null"));
      }
      var found := FindById(comments, commentId);
      if found.None? {
        return Failure(NotFoundException("Комментарий с id=" + DecimalString(commentId) + " не найден"));
      }
      var c := found.value;
      var oldStatus := c.status;
      c := c.(status := request.status, moderatorMessage := request.moderatorMessage);
      comments := comments[commentId := c];
      UpdateEventCommentCountAfterModeration(c.event.value, oldStatus, request.status.value);
      ModerationKeepsCounterOk(old(c.event.value.commentCount), oldStatus, request.status.value);
      r := Success(ToDto(c));
    }

    /**
     * `deleteCommentByAdmin`. Guards: the id, an existing comment. The row is
     * removed, and the counter of its event drops (floored at 0) exactly when
     * the comment was PUBLISHED.
     */
    method DeleteCommentByAdmin(commentId: int) returns (r: Result<(), AppException>)
      requires Valid()
      modifies this, events.Values
      ensures Valid()
      ensures nextId == old(nextId)
      ensures commentId <= 0 ==> r.Failure? && r.error.ForbiddenException?
      ensures commentId > 0 && commentId !in old(comments) ==> r.Failure? && r.error.NotFoundException?
      ensures r.Success? <==> commentId > 0 && commentId in old(comments)
      ensures r.Failure? ==> comments == old(comments) && CountersKept({})
      ensures r.Success? ==>
                var was := old(comments)[commentId];
                var eventId := was.event.value.id;
                && eventId in events
                && comments == old(comments) - {commentId}
                && events[eventId].commentCount ==
                     (if HasStatus(was, CommentStatus.Published) then Some(Decremented(old(events[eventId].commentCount)))
                      else old(events[eventId].commentCount))
                && CountersKept({eventId})
    {
      var err := ValidateId(Some(commentId), "ID комментария");
      if err.Some? { return Failure(err.value); }
      var found := FindById(comments, commentId);
      if found.None? { return Failure(NotFoundException(CommentNotFound)); }
      var c := found.value;
      var oldStatus := c.status;
      comments := comments - {commentId};
      if oldStatus == Some(CommentStatus.Published) {
        var event := c.event.value;
        event.DecrementCommentCount();
      }
      r := Success(());
    }

    // ------------------------------------------------------------ read paths

    /** `getPublishedComment`: found only if it belongs to the event and is PUBLISHED. */
    function GetPublishedComment(eventId: int, commentId: int): (r: Result<CommentDto, AppException>)
      reads this
      ensures eventId <= 0 || commentId <= 0 ==> r.Failure? && r.error.ForbiddenException?
      ensures eventId > 0 && commentId > 0 && !r.Success? ==> r.error.NotFoundException?
      ensures r.Success? <==>
                eventId > 0 && commentId > 0 && commentId in comments &&
                OfEvent(comments[commentId], eventId) && HasStatus(comments[commentId], CommentStatus.Published)
      ensures r.Success? ==> r.value == ToDto(comments[commentId])
    {
      if ValidateId(Some(eventId), "ID события").Some? then Failure(ValidateId(Some(eventId), "ID события").value)
      else if ValidateId(Some(commentId), "ID комментария").Some? then
        Failure(ValidateId(Some(commentId), "ID комментария").value)
      else match FindByIdAndEventId(comments, commentId, eventId)
        case None => Failure(NotFoundException(CommentNotFound))
        case Some(c) =>
          if !HasStatus(c, CommentStatus.Published) then Failure(NotFoundException("Комментарий не опубликован"))
          else Success(ToDto(c))
    }

    /** `getPublishedCommentsCount`: the number of PUBLISHED comments of the event. */
    function GetPublishedCommentsCount(eventId: int): (r: Result<nat, AppException>)
      reads this
      ensures r.Failure? <==> eventId <= 0
      ensures r.Failure? ==> r.error.ForbiddenException?
      ensures r.Success? ==> r.value == |FindByEventIdAndStatus(comments, eventId, CommentStatus.Published)|
    {
      if eventId <= 0 then Failure(ValidateId(Some(eventId), "ID события").value)
      else Success(CountByEventIdAndStatus(comments, eventId, CommentStatus.Published))
    }

    /** `canUserCommentEvent`: true exactly when the user has no comment on the event, in any state. */
    function CanUserCommentEvent(userId: int, eventId: int): (r: Result<bool, AppException>)
      reads this
      ensures r.Failure? <==> userId <= 0 || eventId <= 0
      ensures r.Failure? ==> r.error.ForbiddenException?
      ensures r.Success? ==> (r.value <==> FindByEventIdAndAuthorId(comments, eventId, userId) == {})
    {
      if userId <= 0 then Failure(ValidateId(Some(userId), "ID пользователя").value)
      else if eventId <= 0 then Failure(ValidateId(Some(eventId), "ID события").value)
      else
        ExistsIffFound(comments, eventId, userId);
        Success(!ExistsByEventIdAndAuthorId(comments, eventId, userId))
    }

    /**
     * `getUserCommentStats`: the author's comments, and how many of them are
     * PUBLISHED, PENDING and REJECTED; the three never exceed the total, and
     * what is left over is exactly the author's DELETED comments.
     */
    function GetUserCommentStats(userId: int): (r: Result<CommentStats, AppException>)
      requires Valid()
      reads this, events.Values
      ensures userId <= 0 ==> r.Failure? && r.error.ForbiddenException?
      ensures userId > 0 && userId !in users ==> r.Failure? && r.error.NotFoundException?
      ensures r.Success? <==> userId > 0 && userId in users
      ensures r.Success? ==> r.value.total == |FindByAuthorId(comments, userId)|
      ensures r.Success? ==> r.value.published == |ByStatus(comments, FindByAuthorId(comments, userId), CommentStatus.Published)|
      ensures r.Success? ==> r.value.pending == |ByStatus(comments, FindByAuthorId(comments, userId), Pending)|
      ensures r.Success? ==> r.value.rejected == |ByStatus(comments, FindByAuthorId(comments, userId), Rejected)|
      ensures r.Success? ==>
                r.value.published + r.value.pending + r.value.rejected
                + |ByStatus(comments, FindByAuthorId(comments, userId), Deleted)| == r.value.total
    {
      if userId <= 0 then Failure(ValidateId(Some(userId), "ID пользователя").value)
      else if userId !in users then Failure(NotFoundException("Пользователь не найден"))
      else
        var mine := FindByAuthorId(comments, userId);
        StatusPartition(comments, mine);
        Success(CommentStats(|mine|, |ByStatus(comments, mine, CommentStatus.Published)|,
                             |ByStatus(comments, mine, Pending)|, |ByStatus(comments, mine, Rejected)|))
    }

    /**
     * `getPublishedComments`: a page of the event's PUBLISHED comments. The
     * method does not validate its paging arguments: `from / size` throws on
     * a zero size, and `PageRequest.of` rejects a negative page index, then a
     * size below one.
     */
    method GetPublishedComments(eventId: int, from: int, size: int)
      returns (r: Result<seq<CommentDto>, AppException>, ids: seq<int>)
      requires Valid()
      ensures eventId <= 0 ==> r.Failure? && r.error.ForbiddenException?
      ensures eventId > 0 && size == 0 ==> r == Failure(OtherException("/ by zero"))
      ensures eventId > 0 && size != 0 && JavaDiv(from, size) < 0 ==>
                r == Failure(IllegalArgumentException("Page index must not be less than zero"))
      ensures eventId > 0 && size != 0 && JavaDiv(from, size) >= 0 && size < 1 ==>
                r == Failure(IllegalArgumentException("Page size must not be less than one"))
      ensures r.Success? <==> eventId > 0 && size >= 1 && from > -size
      ensures r.Success? ==>
                && IsPage(ids, FindByEventIdAndStatus(comments, eventId, CommentStatus.Published), RequestOffset(from, size), size)
                && r.value == Dtos(comments, ids)
    {
      var err := ValidateId(Some(eventId), "ID события");
      if err.Some? { return Failure(err.value), []; }
      if size == 0 { return Failure(OtherException("/ by zero")), []; }
      var page := JavaDiv(from, size);
      if page < 0 { return Failure(IllegalArgumentException("Page index must not be less than zero")), []; }
      if size < 1 { return Failure(IllegalArgumentException("Page size must not be less than one")), []; }
      PageIndexOfOffset(from, size);
      ids := TakePage(FindByEventIdAndStatus(comments, eventId, CommentStatus.Published), RequestOffset(from, size), size);
      r := Success(Dtos(comments, ids));
    }

    /** `getPendingComments`: a page of the PENDING comments. */
    method GetPendingComments(from: int, size: int)
      returns (r: Result<seq<CommentDto>, AppException>, ids: seq<int>)
      requires Valid()
      ensures r.Failure? <==> ValidatePagination(from, size).Some?
      ensures r.Failure? ==> r.error.ForbiddenException?
      ensures r.Success? ==>
                && IsPage(ids, FindByStatus(comments, Pending), PageOffset(from, size), size)
                && r.value == Dtos(comments, ids)
    {
      var err := ValidatePagination(from, size);
      if err.Some? { return Failure(err.value), []; }
      ids := TakePage(FindByStatus(comments, Pending), PageOffset(from, size), size);
      r := Success(Dtos(comments, ids));
    }

    /** `getUserComments`: a page of the author's comments, in every state. */
    method GetUserComments(userId: int, from: int, size: int)
      returns (r: Result<seq<CommentDto>, AppException>, ids: seq<int>)
      requires Valid()
      ensures r.Failure? <==> userId <= 0 || ValidatePagination(from, size).Some?
      ensures r.Failure? ==> r.error.ForbiddenException?
      ensures r.Success? ==>
                && IsPage(ids, FindByAuthorId(comments, userId), PageOffset(from, size), size)
                && r.value == Dtos(comments, ids)
    {
      var err := ValidateId(Some(userId), "ID пользователя");
      if err.Some? { return Failure(err.value), []; }
      err := ValidatePagination(from, size);
      if err.Some? { return Failure(err.value), []; }
      ids := TakePage(FindByAuthorId(comments, userId), PageOffset(from, size), size);
      r := Success(Dtos(comments, ids));
    }

    /** `getCommentsByStatus`: a page of the comments in the given, non-null state. */
    method GetCommentsByStatus(status: Option<CommentStatus>, from: int, size: int)
      returns (r: Result<seq<CommentDto>, AppException>, ids: seq<int>)
      requires Valid()
      ensures r.Failure? <==> status.None? || ValidatePagination(from, size).Some?
      ensures r.Failure? ==> r.error.ForbiddenException?
      ensures r.Success? ==>
                && IsPage(ids, FindByStatus(comments, status.value), PageOffset(from, size), size)
                && r.value == Dtos(comments, ids)
    {
      if status.None? { return Failure(ForbiddenException("Статус не может быть null")), []; }
      var err := ValidatePagination(from, size);
      if err.Some? { return Failure(err.value), []; }
      ids := TakePage(FindByStatus(comments, status.value), PageOffset(from, size), size);
      r := Success(Dtos(comments, ids));
    }

    /**
     * `getAllCommentsForEvent`: the event's comments in every state, skipping
     * the first `from` rows and keeping at most `size` (a stream skip and
     * limit, so the window starts at `from` itself, not at a page boundary).
     */
    method GetAllCommentsForEvent(eventId: int, from: int, size: int)
      returns (r: Result<seq<CommentDto>, AppException>, ids: seq<int>)
      requires Valid()
      ensures r.Failure? <==> eventId <= 0 || ValidatePagination(from, size).Some?
      ensures r.Failure? ==> r.error.ForbiddenException?
      ensures r.Success? ==>
                && IsPage(ids, FindByEventId(comments, eventId), from, size)
                && r.value == Dtos(comments, ids)
    {
      var err := ValidateId(Some(eventId), "ID события");
      if err.Some? { return Failure(err.value), []; }
      err := ValidatePagination(from, size);
      if err.Some? { return Failure(err.value), []; }
      ids := TakePage(FindByEventId(comments, eventId), from, size);
      r := Success(Dtos(comments, ids));
    }

    /**
     * `getUserCommentsForEvent`: all of the author's comments on the event, in
     * every state; since create refuses a second comment, there is at most one.
     */
    method GetUserCommentsForEvent(userId: int, eventId: int)
      returns (r: Result<seq<CommentDto>, AppException>, ids: seq<int>)
      requires Valid()
      ensures r.Failure? <==> userId <= 0 || eventId <= 0
      ensures r.Failure? ==> r.error.ForbiddenException?
      ensures r.Success? ==> |r.value| <= 1
      ensures r.Success? ==>
                && |ids| == |FindByEventIdAndAuthorId(comments, eventId, userId)|
                && IsPage(ids, FindByEventIdAndAuthorId(comments, eventId, userId), 0,
                          |FindByEventIdAndAuthorId(comments, eventId, userId)|)
                && r.value == Dtos(comments, ids)
    {
      var err := ValidateId(Some(userId), "ID пользователя");
      if err.Some? { return Failure(err.value), []; }
      err := ValidateId(Some(eventId), "ID события");
      if err.Some? { return Failure(err.value), []; }
      var mine := FindByEventIdAndAuthorId(comments, eventId, userId);
      AtMostOneCommentPerAuthorAndEvent(comments, eventId, userId);
      ids := TakePage(mine, 0, |mine|);
      r := Success(Dtos(comments, ids));
    }

    /**
     * `searchComments`: one page of PUBLISHED comments is read, and of those
     * only the ones whose lower-cased text contains the lower-cased search
     * text are returned; so at most `size` results, all PUBLISHED and matching.
     */
    method SearchComments(searchText: Option<string>, from: int, size: int)
      returns (r: Result<seq<CommentDto>, AppException>, page: seq<int>, ids: seq<int>)
      requires Valid()
      ensures r.Failure? <==>
                searchText.None? || IsBlank(searchText.value) || ValidatePagination(from, size).Some?
      ensures r.Failure? ==> r.error.ForbiddenException?
      ensures r.Success? ==>
                && IsPage(page, FindByStatus(comments, CommentStatus.Published), PageOffset(from, size), size)
                && ids == KeepMatchingText(comments, page, searchText.value)
                && |r.value| <= size
                && r.value == Dtos(comments, ids)
                && forall i :: 0 <= i < |ids| ==>
                     HasStatus(comments[ids[i]], CommentStatus.Published) && TextMatches(comments[ids[i]], searchText.value)
    {
      if searchText.None? || Trim(searchText.value) == [] {
        return Failure(ForbiddenException("Текст для поиска не может быть пустым")), [], [];
      }
      var err := ValidatePagination(from, size);
      if err.Some? { return Failure(err.value), [], []; }
      page := TakePage(FindByStatus(comments, CommentStatus.Published), PageOffset(from, size), size);
      ids := KeepMatchingText(comments, page, searchText.value);
      r := Success(Dtos(comments, ids));
    }

    /**
     * `getRecentComments`: the first `limit` PUBLISHED comments are read, and
     * of those only the ones created strictly after `now - hours` are
     * returned. `hours` must be positive and `limit` in [1, 100].
     */
    method GetRecentComments(hours: int, limit: int, now: int)
      returns (r: Result<seq<CommentDto>, AppException>, page: seq<int>, ids: seq<int>)
      requires Valid()
      ensures r.Failure? <==> hours <= 0 || limit <= 0 || limit > MaxPageSize
      ensures r.Failure? ==> r.error.ForbiddenException?
      ensures r.Success? ==>
                && IsPage(page, FindByStatus(comments, CommentStatus.Published), 0, limit)
                && ids == KeepCreatedAfter(comments, page, now - hours * SecondsPerHour)
                && |r.value| <= limit
                && r.value == Dtos(comments, ids)
                && forall i :: 0 <= i < |ids| ==>
                     HasStatus(comments[ids[i]], CommentStatus.Published) &&
                     comments[ids[i]].created.value > now - hours * SecondsPerHour
    {
      if hours <= 0 {
        return Failure(ForbiddenException("Количество часов должно быть положительным")), [], [];
      }
      if limit <= 0 || limit > MaxPageSize {
        return Failure(ForbiddenException("Лимит должен быть от 1 до 100")), [], [];
      }
      var since := now - hours * SecondsPerHour;
      page := TakePage(FindByStatus(comments, CommentStatus.Published), 0, limit);
      ids := KeepCreatedAfter(comments, page, since);
      r := Success(Dtos(comments, ids));
    }
  }

  const SampleText := "A fine concert, thanks!"

  /** The sample text has no surrounding blanks and an acceptable length. */
  lemma SampleTextIsAccepted()
    ensures Trim(SampleText) == SampleText
    ensures ValidateCommentText(Some(SampleText)).None?
  {
    assert LeadingTrim(SampleText) == 0 && TrailingTrim(SampleText) == 0;
  }

  /**
   * One comment's life through the service, on an event whose counter starts
   * at 0: create (counter 1), a second create by the same author (refused),
   * publish (2), author edit back to PENDING (2), publish again (3), admin
   * delete (2). The event ends with no comment at all, PUBLISHED or not, yet
   * its counter reads 2.
   */
  method CounterIsNotPublishedCount() returns (counter: Option<int>, published: nat, secondCreate: bool)
    ensures counter == Some(2)
    ensures published == 0
    ensures !secondCreate
  {
    var event := new Event(1, "Concert", EventState.Published, 7, 3, 100);
    var service := new CommentService(map[2 := User(2, "Anna")], map[1 := event]);
    var dto := NewCommentDto(Some(SampleText));
    SampleTextIsAccepted();

    var created := service.CreateComment(2, 1, dto, 10);
    assert created.Success? && service.comments.Keys == {1};
    assert event.commentCount == Some(1);
    assert OfEvent(service.comments[1], 1) && ByAuthor(service.comments[1], 2);
    var again := service.CreateComment(2, 1, dto, 11);
    secondCreate := again.Success?;

    var publish := CommentAdminRequest(Some(CommentStatus.Published), None);
    var published1 := service.ModerateComment(1, publish);
    assert event.commentCount == Some(2);
    var edited := service.UpdateComment(2, 1, 1, dto, 20);
    assert HasStatus(service.comments[1], Pending) && event.commentCount == Some(2);
    var published2 := service.ModerateComment(1, publish);
    assert event.commentCount == Some(3);
    var removed := service.DeleteCommentByAdmin(1);
    assert service.comments == map[];

    counter := event.commentCount;
    published := CountByEventIdAndStatus(service.comments, 1, CommentStatus.Published);
    assert FindByEventIdAndStatus(service.comments, 1, CommentStatus.Published) == {};
  }
}
