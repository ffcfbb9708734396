# Comment moderation and hit statistics of `stats-service`, in Dafny

This project models the core of `stats-service` from the Explore With Me
system. The core has two parts.

- **Comment moderation.** Users leave one comment per published event. The
  author may edit it or delete it. An administrator moves it between PENDING,
  PUBLISHED, REJECTED and DELETED, or removes it. Each event keeps a nullable
  comment counter that these operations raise and lower.
- **Hit statistics.** Services record hits `(app, uri, ip, timestamp)`. A
  window query groups the hits by `(app, uri)`, counts all hits or distinct
  IPs, and orders the rows by that count, largest first.

Around those two parts the project also models:

- the derived queries of the comment and event repositories;
- the two field-copying mappers;
- the global exception handler's table from exception kind to HTTP status
  and response body.

How the model is built:

- Each stateful part is a class whose methods change its fields:
  - `Events.Event`: the counter is the only mutable field; every other field
    is `const`.
  - `Moderation.CommentService`: a `map<int, Comment>` comment table, the
    next identity value, and the read-only user and event tables.
  - `StatsServices.StatsService`: the hit table, as a sequence.
  - `StatsApi.StatsController`: forwards to the stats service.
- Repository queries, mappers, validators and the handler are functions.
- Every service method checks its guards in the source's order. Each
  failing guard returns the source's exception kind, with its Russian
  message, as a `Result` failure.

The comment counter does **not** track the number of PUBLISHED comments:

- `createComment` raises it for a comment that is only PENDING.
- An author edit demotes a PUBLISHED comment to PENDING without lowering it.

What every operation does preserve is that no counter is ever negative.
`CommentService.Valid()` carries this, together with the shape of every
stored row, with every user filed under its own id, and with the rule that no
author has two comments on one event. `Moderation.CounterIsNotPublishedCount`
drives one comment through the service (create, publish, edit, publish, admin
delete) and ends with a counter of 2 on an event that has no comment left.

Clock readings (`LocalDateTime.now()`) are an integer `now` parameter. An
hour is 3600 of its units.

## Model

| member | source | states |
|---|---|---|
| JavaText.Trim | stats-service/src/main/java/ru/practicum/service/CommentService.java:320-324 | `String.trim`: the result is the slice of the input left after its leading blanks, everything after the slice is blank, the slice neither starts nor ends with a char ≤ U+0020, and it is empty exactly when the input is blank |
| JavaText.TrimIdempotent | stats-service/src/main/java/ru/practicum/service/CommentService.java:324 | trimming twice is trimming once |
| JavaText.Contains | stats-service/src/main/java/ru/practicum/service/CommentService.java:273 | `contains` never holds for a needle longer than the text, and always holds for the empty needle |
| JavaText.ContainsIffOccurrence | stats-service/src/main/java/ru/practicum/service/CommentService.java:273 | `contains` holds exactly when the needle occurs at some index |
| JavaText.DecimalString | stats-service/src/main/java/ru/practicum/service/CommentService.java:187 | the decimal rendering of an id in a message: non-empty, a leading minus exactly for negative numbers, digits after it |
| JavaText.DigitsSpellValue | stats-service/src/main/java/ru/practicum/service/CommentService.java:187 | the digits rendered for a natural number read back as that number |
| JavaText.DecimalStringSpellsValue | stats-service/src/main/java/ru/practicum/service/CommentService.java:187 | the decimal rendering of an id spells it: a minus sign then the digits of its magnitude for negatives, its digits otherwise |
| JavaText.ToLower | stats-service/src/main/java/ru/practicum/service/CommentService.java:273 | lower-casing keeps the length and maps every char on its own |
| Exceptions.Handle | stats-service/src/main/java/ru/practicum/exception/GlobalExceptionHandler.java:41-209 | 404 iff NotFound, 403 iff Forbidden, 409 iff Conflict or data integrity, 500 iff any other exception, 400 for validation, illegal argument, bad request, bulk validation, unreadable body, missing parameter and type mismatch; single-message kinds answer `{"error": message}`; data integrity and the fallback answer fixed texts; bulk answers carry the clock and "BAD_REQUEST" |
| Exceptions.StatusIsKnown | stats-service/src/main/java/ru/practicum/exception/GlobalExceptionHandler.java:41-209 | the status is always one of 400, 403, 404, 409, 500 |
| Exceptions.SingleErrorShape | stats-service/src/main/java/ru/practicum/exception/GlobalExceptionHandler.java:41-209 | every non-bulk answer is a map whose only key is "error" |
| Exceptions.ClockOnlyInBulk | stats-service/src/main/java/ru/practicum/exception/GlobalExceptionHandler.java:104-140 | only the two bulk validation answers depend on the clock |
| Events.Incremented | stats-service/src/main/java/ru/practicum/model/event/Event.java:70-72 | null becomes 1; any other value goes up by exactly one; a non-negative counter becomes at least 1 |
| Events.Decremented | stats-service/src/main/java/ru/practicum/model/event/Event.java:74-76 | null becomes 0; a positive value goes down by exactly one; a value ≤ 0 becomes 0; never negative |
| Events.CounterUpdatesKeepCounterOk | stats-service/src/main/java/ru/practicum/model/event/Event.java:70-76 | both updates keep a null-or-non-negative counter non-negative |
| Events.DecrementAtZero | stats-service/src/main/java/ru/practicum/model/event/Event.java:75 | decrementing 0 or null gives 0 |
| Events.IncrementThenDecrement | stats-service/src/main/java/ru/practicum/model/event/Event.java:70-76 | increment then decrement restores a non-negative count |
| Events.Event.constructor | stats-service/src/main/java/ru/practicum/model/event/Event.java:66-67 | a new event's counter starts at 0 |
| Events.Event.IncrementCommentCount | stats-service/src/main/java/ru/practicum/model/event/Event.java:70-72 | the counter becomes `Incremented` of its old value; every other field is `const` and so untouched |
| Events.Event.DecrementCommentCount | stats-service/src/main/java/ru/practicum/model/event/Event.java:74-76 | the counter becomes `Decremented` of its old value and is non-negative; every other field is untouched |
| EventQueries.FindEventsByAdmin | stats-service/src/main/java/ru/practicum/repository/EventRepository.java:23-34 | a result is in the table and passes every given filter (initiator, state and category lists, inclusive date bounds); every table event passing them is in the result; an absent filter restricts nothing |
| EventQueries.AdminWithoutFilters | stats-service/src/main/java/ru/practicum/repository/EventRepository.java:24-28 | with every filter absent, the whole table is returned |
| EventQueries.FindByIdIn | stats-service/src/main/java/ru/practicum/repository/EventRepository.java:21 | exactly the events whose id is in the list |
| EventQueries.FindByStateAndEventDateAfter | stats-service/src/main/java/ru/practicum/repository/EventRepository.java:36 | exactly the events in the state dated strictly after the instant |
| EventQueries.FindByInitiatorId | stats-service/src/main/java/ru/practicum/repository/EventRepository.java:17 | exactly the initiator's events |
| EventQueries.FindByIdAndState | stats-service/src/main/java/ru/practicum/repository/EventRepository.java:38 | an event comes back only when both its id and its state match, and none comes back exactly when no event matches both |
| EventQueries.FindByIdAndInitiatorId | stats-service/src/main/java/ru/practicum/repository/EventRepository.java:19 | an event comes back only when both its id and its initiator match, and none comes back exactly when no event matches both |
| CommentMapping.ToEntity | stats-service/src/main/java/ru/practicum/mapper/CommentMapper.java:12-19 | only the text is copied; id, event, author, status, created, edited and moderator message are null |
| CommentMapping.ToDto | stats-service/src/main/java/ru/practicum/mapper/CommentMapper.java:21-24 | `event.id`, `author.id` and `author.name` become eventId, authorId and authorName; the comment's own columns are copied |
| CommentMapping.TextSurvivesRoundTrip | stats-service/src/main/java/ru/practicum/mapper/CommentMapper.java:12-24 | a request mapped to an entity and back keeps its text and nothing else |
| CommentQueries.FindById | stats-service/src/main/java/ru/practicum/service/CommentService.java:186-187 | found exactly when the id is stored, and then it is the stored comment |
| CommentQueries.FindByIdAndEventIdAndAuthorId | stats-service/src/main/java/ru/practicum/repository/CommentRepository.java:15 | found exactly when id, event and author all match |
| CommentQueries.FindByIdAndEventId | stats-service/src/main/java/ru/practicum/repository/CommentRepository.java:26 | found exactly when id and event both match |
| CommentQueries.CountBounds | stats-service/src/main/java/ru/practicum/repository/CommentRepository.java:28 | the per-status count is at most the event's comment total and positive exactly when such a comment exists |
| CommentQueries.FindByEventIdAndStatus | stats-service/src/main/java/ru/practicum/repository/CommentRepository.java:13 | the event's comments that are in the state: the intersection of `findByEventId` and `findByStatus` |
| CommentQueries.FindByStatus | stats-service/src/main/java/ru/practicum/repository/CommentRepository.java:17 | the stored comments in the state; only stored ids |
| CommentQueries.FindByAuthorId | stats-service/src/main/java/ru/practicum/repository/CommentRepository.java:19 | the stored comments of the author; only stored ids |
| CommentQueries.FindByEventIdAndAuthorId | stats-service/src/main/java/ru/practicum/repository/CommentRepository.java:21 | the comments both of the event and of the author: the intersection of `findByEventId` and `findByAuthorId` |
| CommentQueries.ExistsByEventIdAndAuthorIdAndStatus | stats-service/src/main/java/ru/practicum/repository/CommentRepository.java:32 | a comment of the author on the event in the state exists; it implies `existsByEventIdAndAuthorId` |
| CommentQueries.CountByEventIdAndStatus | stats-service/src/main/java/ru/practicum/repository/CommentRepository.java:28 | the number of the event's comments in the state, never more than all comments in that state |
| CommentQueries.FindByEventId | stats-service/src/main/java/ru/practicum/repository/CommentRepository.java:30 | the stored comments of the event; only stored ids |
| CommentQueries.AtMostOneCommentPerAuthorAndEvent | stats-service/src/main/java/ru/practicum/service/CommentService.java:313-317 | where no author has two comments on one event, the (event, author) lookup finds at most one comment |
| CommentQueries.ExistsIffFound | stats-service/src/main/java/ru/practicum/repository/CommentRepository.java:21-23 | `existsByEventIdAndAuthorId` holds exactly when the list query for the same event and author is non-empty, whatever the status |
| CommentQueries.StricterLookupAgrees | stats-service/src/main/java/ru/practicum/repository/CommentRepository.java:15-26 | a comment found by (id, event, author) is the one found by (id, event) |
| CommentQueries.ByStatus | stats-service/src/main/java/ru/practicum/service/CommentService.java:394-406 | the ids of a set whose comment has the status, all of them and only them |
| CommentQueries.StatusPartition | stats-service/src/main/java/ru/practicum/service/CommentService.java:394-406 | the four per-status subsets of a set of stored comments add up to the set |
| CommentQueries.CountsPartitionEvent | stats-service/src/main/java/ru/practicum/repository/CommentRepository.java:28-30 | an event's four per-status counts add up to its comment total |
| Paging.PageLength | stats-service/src/main/java/ru/practicum/service/CommentService.java:45-47 | a page holds exactly `size` rows when the result has that many past the offset, the rest of the result when fewer, and none past the end |
| Paging.PageOffset | stats-service/src/main/java/ru/practicum/service/CommentService.java:45 | the page `from / size` starts at a multiple of `size`, the one at or below `from` and within `size` of it |
| Paging.JavaDiv | stats-service/src/main/java/ru/practicum/service/CommentService.java:45 | Java's `/` on `int`: zero exactly when the dividend is smaller in magnitude, positive only for equal signs, negative only for opposite signs, and Euclidean division on non-negative operands |
| Paging.JavaDivIsOdd | stats-service/src/main/java/ru/practicum/service/CommentService.java:45 | Java's `/` truncates toward zero: negating the dividend negates the quotient |
| Paging.PageIndexOfOffset | stats-service/src/main/java/ru/practicum/service/CommentService.java:45 | with `size > 0`, `from / size` is a valid page index exactly when `from > -size`; a negative `from` in that range gives page 0, and a non-negative one the page `PageOffset` starts |
| Paging.RequestOffset | stats-service/src/main/java/ru/practicum/service/CommentService.java:45 | the first row of page `from / size` is `(from / size) * size`, a multiple of `size`, at or below `from` and within `size` of it, or 0 for a negative `from` |
| Paging.TakePage | stats-service/src/main/java/ru/practicum/service/CommentService.java:45-50 | returns a page: the right number of distinct matching ids |
| Moderation.ValidateId | stats-service/src/main/java/ru/practicum/service/CommentService.java:372-376 | refused (Forbidden) exactly when the id is null or ≤ 0 |
| Moderation.ValidatePagination | stats-service/src/main/java/ru/practicum/service/CommentService.java:378-385 | accepted exactly when `from ≥ 0` and `1 ≤ size ≤ 100`; refusals are Forbidden |
| Moderation.ValidateCommentText | stats-service/src/main/java/ru/practicum/service/CommentService.java:319-333 | accepted exactly when the text is not null and its trimmed length is in [10, 2000]; null or blank text is refused; refusals are Forbidden |
| Moderation.TextLengthBoundaries | stats-service/src/main/java/ru/practicum/service/CommentService.java:326-332 | trimmed lengths 9 and 2001 are refused, 10 and 2000 accepted |
| Moderation.TextVerdictIgnoresTrimming | stats-service/src/main/java/ru/practicum/service/CommentService.java:320-324 | surrounding blanks do not change the verdict |
| Moderation.ValidateCommentForUpdate | stats-service/src/main/java/ru/practicum/service/CommentService.java:340-348 | editing is refused (Forbidden) exactly for REJECTED and DELETED comments |
| Moderation.CounterAfterModeration | stats-service/src/main/java/ru/practicum/service/CommentService.java:360-370 | the counter after a moderation decision: it stays null only when it was null and the decision neither enters nor leaves PUBLISHED, and whenever it changes it becomes a number |
| Moderation.RepeatedModerationKeepsCounter | stats-service/src/main/java/ru/practicum/service/CommentService.java:360-370 | repeating a decision leaves the counter alone |
| Moderation.ModerationCounterDelta | stats-service/src/main/java/ru/practicum/service/CommentService.java:360-370 | +1 into PUBLISHED, −1 floored at 0 out of it, no change otherwise |
| Moderation.ModerationKeepsCounterOk | stats-service/src/main/java/ru/practicum/service/CommentService.java:360-370 | moderation never leaves a negative counter |
| Moderation.CounterIsNotPublishedCount | stats-service/src/main/java/ru/practicum/service/CommentService.java:75-246 | on a fresh service: create, a refused second create by the same author, publish, author edit, publish, admin delete; the counter ends at 2 while the event has 0 PUBLISHED comments |
| Moderation.Dtos | stats-service/src/main/java/ru/practicum/service/CommentService.java:48-50 | one DTO per id, in order, each the mapping of its stored comment |
| Moderation.KeepMatchingText | stats-service/src/main/java/ru/practicum/service/CommentService.java:272-275 | keeps exactly the ids whose lower-cased text contains the lower-cased search text |
| Moderation.KeepCreatedAfter | stats-service/src/main/java/ru/practicum/service/CommentService.java:290-294 | keeps exactly the ids created strictly after the instant |
| Moderation.CommentService.constructor | stats-service/src/main/java/ru/practicum/service/CommentService.java:34-39 | an empty comment table over users and events each filed under its own id satisfies the invariant |
| Moderation.CommentService.CreateComment | stats-service/src/main/java/ru/practicum/service/CommentService.java:75-95 | guards in order (ids, text, user, event, PUBLISHED state, any earlier comment by the author on the event); a failure changes nothing; a success stores a PENDING comment with the trimmed text and no edit or moderator message under a fresh id, after which the author has a comment on the event, and raises that event's counter by exactly one, every other counter kept; the invariant keeps one comment per author per event |
| Moderation.CommentService.UpdateComment | stats-service/src/main/java/ru/practicum/service/CommentService.java:99-121 | guards in order (ids, text, match on id, event and author, not REJECTED or DELETED); a failure leaves the table; a success stores the untrimmed text and the edit time, and leaves the comment PENDING (a PUBLISHED one demoted); no counter changes |
| Moderation.CommentService.DeleteComment | stats-service/src/main/java/ru/practicum/service/CommentService.java:125-145 | guards (ids, match on id, event and author), no status guard; the comment becomes DELETED from any state; the counter drops exactly when it was PUBLISHED |
| Moderation.CommentService.UpdateEventCommentCountAfterModeration | stats-service/src/main/java/ru/practicum/service/CommentService.java:360-370 | the counter becomes `CounterAfterModeration` of its old value |
| Moderation.CommentService.ModerateComment | stats-service/src/main/java/ru/practicum/service/CommentService.java:179-200 | a null status is Forbidden before the lookup; an unknown id is NotFound; a success sets status and moderator message and reconciles that event's counter, every other counter kept |
| Moderation.CommentService.DeleteCommentByAdmin | stats-service/src/main/java/ru/practicum/service/CommentService.java:228-246 | the row is removed; the counter drops exactly when it was PUBLISHED |
| Moderation.CommentService.GetPublishedComment | stats-service/src/main/java/ru/practicum/service/CommentService.java:53-65 | found exactly when the comment belongs to the event and is PUBLISHED, otherwise NotFound |
| Moderation.CommentService.GetPublishedCommentsCount | stats-service/src/main/java/ru/practicum/service/CommentService.java:68-71 | the number of the event's PUBLISHED comments |
| Moderation.CommentService.CanUserCommentEvent | stats-service/src/main/java/ru/practicum/service/CommentService.java:159-164 | true exactly when the user has no comment on the event in any state |
| Moderation.CommentService.GetUserCommentStats | stats-service/src/main/java/ru/practicum/service/CommentService.java:387-409 | total is the number of the author's comments; published, pending and rejected are the numbers of those in each state; with the deleted ones they add up to the total |
| Moderation.CommentService.GetPublishedComments | stats-service/src/main/java/ru/practicum/service/CommentService.java:42-51 | a non-positive event id is refused; a zero size fails with the division error, a negative page index and then a size below one with `IllegalArgumentException`; otherwise a page of the event's PUBLISHED comments at row `(from / size) * size` |
| Moderation.CommentService.GetPendingComments | stats-service/src/main/java/ru/practicum/service/CommentService.java:167-175 | fails exactly on bad paging, else a page of the PENDING comments |
| Moderation.CommentService.GetUserComments | stats-service/src/main/java/ru/practicum/service/CommentService.java:202-211 | a page of the author's comments in every state |
| Moderation.CommentService.GetCommentsByStatus | stats-service/src/main/java/ru/practicum/service/CommentService.java:213-224 | a null status is Forbidden; else a page of the comments in that state |
| Moderation.CommentService.GetAllCommentsForEvent | stats-service/src/main/java/ru/practicum/service/CommentService.java:249-260 | the event's comments in every state, skipping `from` rows (not a page boundary) and keeping at most `size` |
| Moderation.CommentService.GetUserCommentsForEvent | stats-service/src/main/java/ru/practicum/service/CommentService.java:148-156 | all of the author's comments on the event, each once, and so at most one |
| Moderation.CommentService.SearchComments | stats-service/src/main/java/ru/practicum/service/CommentService.java:263-276 | null or blank search text is Forbidden; one page of PUBLISHED comments is read and only matching ones kept, so at most `size` results, all PUBLISHED and matching |
| Moderation.CommentService.GetRecentComments | stats-service/src/main/java/ru/practicum/service/CommentService.java:279-295 | `hours ≤ 0` or `limit` outside [1, 100] is Forbidden; of the first `limit` PUBLISHED comments only those created strictly after `now − hours` are kept |
| StatsMapper.ToEntity | stats-service/src/main/java/ru/practicum/mapper/StatsMapper.java:31-32 | app, uri, ip and timestamp copied; id left null |
| StatsMapper.ToDto | stats-service/src/main/java/ru/practicum/mapper/StatsMapper.java:40 | all five fields copied |
| StatsMapper.RoundTripClearsId | stats-service/src/main/java/ru/practicum/mapper/StatsMapper.java:31-40 | `toDto(toEntity(d))` is `d` with its id cleared |
| StatsMapper.EntityRoundTripClearsId | stats-service/src/main/java/ru/practicum/mapper/StatsMapper.java:31-40 | `toEntity(toDto(e))` is `e` with its id cleared |
| StatsQueries.Matches | stats-service/src/main/java/ru/practicum/repository/StatsRepository.java:63-64 | the WHERE clause: a matching hit implies a non-empty window, and a present but empty URI list matches nothing |
| StatsQueries.MatchCount | stats-service/src/main/java/ru/practicum/repository/StatsRepository.java:62-64 | the number of matching hits: at most the number of hits, and 0 for a reversed window |
| StatsQueries.Count | stats-service/src/main/java/ru/practicum/repository/StatsRepository.java:61 | `COUNT(e.ip)` of a group: never more than the number of matching hits |
| StatsQueries.Ips | stats-service/src/main/java/ru/practicum/repository/StatsRepository.java:38 | the IPs behind `COUNT(DISTINCT e.ip)`: none for a group without hits |
| StatsQueries.CountPositiveIffWitness | stats-service/src/main/java/ru/practicum/repository/StatsRepository.java:61-65 | a group's count is positive exactly when some hit in the window (and URI list) carries its key |
| StatsQueries.IpsMembership | stats-service/src/main/java/ru/practicum/repository/StatsRepository.java:38-42 | an IP is in a group's IP set exactly when a matching hit of the group came from it |
| StatsQueries.DistinctIpsAtMostCount | stats-service/src/main/java/ru/practicum/repository/StatsRepository.java:38-69 | a group has no more distinct IPs than hits, and at least one IP when it has a hit |
| StatsQueries.Groups | stats-service/src/main/java/ru/practicum/repository/StatsRepository.java:65 | each key of the matching hits exactly once |
| StatsQueries.Rows | stats-service/src/main/java/ru/practicum/repository/StatsRepository.java:61 | one row per key, carrying the group's measure |
| StatsQueries.Insert | stats-service/src/main/java/ru/practicum/repository/StatsRepository.java:66 | the result holds the old rows plus exactly the new one, one longer |
| StatsQueries.InsertKeepsOrder | stats-service/src/main/java/ru/practicum/repository/StatsRepository.java:66 | inserting into rows ordered by hits keeps them ordered |
| StatsQueries.SortByHits | stats-service/src/main/java/ru/practicum/repository/StatsRepository.java:43-66 | hits never increase down the result, which is a permutation of the rows |
| StatsQueries.GroupsSumToMatchCount | stats-service/src/main/java/ru/practicum/repository/StatsRepository.java:61-65 | the groups' counts add up to the number of matching hits |
| StatsQueries.Aggregate | stats-service/src/main/java/ru/practicum/repository/StatsRepository.java:38-69 | ordered by hits, one row per key, a row for exactly the keys with a matching hit, each carrying its measure |
| StatsQueries.FindStats | stats-service/src/main/java/ru/practicum/repository/StatsRepository.java:61-69 | ordered by hits, one row per key, every key with a matching hit present, each row ≥ 1 and equal to its group's hit count; the rows add up to the number of matching hits |
| StatsQueries.FindStatsUnique | stats-service/src/main/java/ru/practicum/repository/StatsRepository.java:38-46 | ordered, one row per key, every key present, each row its distinct-IP count, between 1 and the group's hit count |
| StatsQueries.UniqueAtMostTotal | stats-service/src/main/java/ru/practicum/repository/StatsRepository.java:38-69 | both queries report the same number of groups, and per group unique ≤ total |
| StatsQueries.WindowIsInclusive | stats-service/src/main/java/ru/practicum/repository/StatsRepository.java:40 | for any window, a hit stamped exactly at start or at end adds one to its group's count; a hit stamped outside adds nothing |
| StatsQueries.EmptyUriListMatchesNothing | stats-service/src/main/java/ru/practicum/repository/StatsRepository.java:41 | a present but empty URI list gives empty results |
| StatsQueries.AppendedHitCounts | stats-service/src/main/java/ru/practicum/service/StatsService.java:44-47 | a stored hit adds one to its group's count and its IP to the group's IPs when it matches |
| StatsQueries.DuplicateHitCountsTwiceNotUnique | stats-service/src/main/java/ru/practicum/service/StatsService.java:44-47 | the same hit saved twice counts twice in the total and once among distinct IPs |
| StatsServices.StatsService.SaveHit | stats-service/src/main/java/ru/practicum/service/StatsService.java:44-47 | exactly one row is appended with the given app, uri, ip and timestamp and a fresh id; earlier rows are unchanged |
| StatsServices.StatsService.GetStats | stats-service/src/main/java/ru/practicum/service/StatsService.java:63-70 | unique exactly true counts distinct IPs, false or null counts all hits; ordered, one row per key, a row for exactly the keys with a matching hit, each row ≥ 1; counting all hits, the rows add up to the number of matching hits |
| StatsApi.StatsController.SaveHit | stats-service/src/main/java/ru/practicum/controller/StatsController.java:51-55 | the service stores exactly one row for the body |
| StatsApi.StatsController.GetStats | stats-service/src/main/java/ru/practicum/controller/StatsController.java:73-86 | fails with IllegalArgumentException exactly when start is after end; otherwise the service's answer, with a missing unique read as false |
| StatsApi.StatsController.MissingUniqueCountsAllHits | stats-service/src/main/java/ru/practicum/controller/StatsController.java:76-77 | a missing unique answers like false, that is `findStats` |
| StatsApi.StatsController.RangeGuard | stats-service/src/main/java/ru/practicum/controller/StatsController.java:81-83 | start == end is accepted; start after end is answered with 400 |

## Left out

- Spring wiring, `@Transactional` boundaries, concurrency and logging are not modelled. Each service method is one atomic method on its class.
- Database row order is not modelled: `ORDER BY created`, tie order in `ORDER BY hits` and the order of un-sorted lists. A page is any window of the filtered rows with the right length (`Paging.TakePage`), and the stats tie order is whatever the insertion sort produces.
- `Moderation.CommentService.GetPublishedComments`: the `@Min` and `@Max` annotations on `PublicCommentController`'s parameters are not modelled, so the method is modelled unguarded. The failure messages for a negative page index and a size below one are Spring Data's `PageRequest` texts, and the division error is `ArithmeticException`'s "/ by zero"; those library classes are not part of this model.
- The comment services take the ids as non-null integers, because they are path variables. `Moderation.ValidateId` itself models the null case.
- The comment HTTP controllers, and the bean validation of request bodies (`@NotBlank` and `@NotNull` on `EndpointHitDto`), are not modelled. They only route requests and check annotations.
- `JavaText.ToLower` lowers ASCII letters only; `String.toLowerCase` case-folds all of Unicode.
- `JavaText.Trim` measures lengths in `char`s; Java measures them in UTF-16 code units. The two agree on the Basic Multilingual Plane.
- Counters and ids are unbounded integers: 64-bit `Long` wrap-around is not modelled.
- `Events.EventState` names PUBLISHED only; the other states are carried by a name that is never "PUBLISHED". The event columns the core never reads are not modelled (description, location, participant limit and the rest).
- `Events.Event.constructor` starts the counter at 0, as the field initialiser does. An event built through a builder that skips the initialiser starts with null. That case is still covered: every counter operation accepts null.
- `Events.IncrementThenDecrement` is stated for non-negative counts only; for a negative count the floor at 0 does not restore it.
- An empty, non-null URI list in the stats queries is database-defined. The model admits no hit for it (`StatsQueries.EmptyUriListMatchesNothing`).
- `User`, `UserRepository` and the `Comment` entity are not part of this model beyond the fields the core reads. Users are a read-only map from id to (id, name); `CommentService.Valid()` requires each user to be filed under its own id, as a lookup by primary key guarantees.
- Exceptions.Handle: messages are non-null strings. For an exception whose message is null, Java's `Map.of("error", ex.getMessage())` throws NullPointerException inside the handler; the model always answers with a body.
- The exact text of Spring's own exception messages (`MethodArgumentNotValid` and the like) is a parameter of the exception value.
