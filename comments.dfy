/**
 * The comment entity and the records around it. The entity's columns are all
 * nullable here: a comment built by the mapper from a request body has only
 * its text set, and the service fills in the rest before saving it.
 */
module Comments {
  import opened Wrappers
  import opened Events

  /** The four moderation states of a comment. */
  datatype CommentStatus = Pending | Published | Rejected | Deleted

  /** The author as far as comments need it: an identity and a display name. */
  datatype User = User(id: int, name: string)

  /** The comment entity; `event` refers to the event object whose counter it affects. */
  datatype Comment = Comment(
    id: Option<int>,
    text: Option<string>,
    event: Option<Event>,
    author: Option<User>,
    status: Option<CommentStatus>,
    created: Option<int>,
    edited: Option<int>,
    moderatorMessage: Option<string>)

  /** The body of a create or edit request. */
  datatype NewCommentDto = NewCommentDto(text: Option<string>)

  /** The body of a moderation request. */
  datatype CommentAdminRequest = CommentAdminRequest(status: Option<CommentStatus>, moderatorMessage: Option<string>)

  /** The comment as returned to clients. */
  datatype CommentDto = CommentDto(
    id: Option<int>,
    text: Option<string>,
    eventId: Option<int>,
    authorId: Option<int>,
    authorName: Option<string>,
    status: Option<CommentStatus>,
    created: Option<int>,
    edited: Option<int>,
    moderatorMessage: Option<string>)

  /** The comment belongs to event `eventId` (a null event belongs to none). */
  predicate OfEvent(c: Comment, eventId: int) {
    c.event.Some? && c.event.value.id == eventId
  }

  /** The comment was written by user `authorId`. */
  predicate ByAuthor(c: Comment, authorId: int) {
    c.author.Some? && c.author.value.id == authorId
  }

  /** The comment is in moderation state `s`. */
  predicate HasStatus(c: Comment, s: CommentStatus) {
    c.status == Some(s)
  }
}
