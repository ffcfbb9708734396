/** The comment mapper: request body to entity, and entity to response. */
module CommentMapping {
  import opened Wrappers
  import opened Comments

  /** `toEntity`: only the text is copied; every other column is left null. */
  function ToEntity(dto: NewCommentDto): (c: Comment)
    ensures c.text == dto.text
    ensures c.id.None? && c.event.None? && c.author.None? && c.status.None?
    ensures c.created.None? && c.edited.None? && c.moderatorMessage.None?
  {
    Comment(None, dto.text, None, None, None, None, None, None)
  }

  /**
   * `toDto`: `event.id` becomes `eventId`, `author.id` and `author.name`
   * become `authorId` and `authorName` (null when the reference is null), and
   * the comment's own columns are copied unchanged.
   */
  function ToDto(c: Comment): (d: CommentDto)
    ensures d.eventId == (if c.event.Some? then Some(c.event.value.id) else None)
    ensures d.authorId == (if c.author.Some? then Some(c.author.value.id) else None)
    ensures d.authorName == (if c.author.Some? then Some(c.author.value.name) else None)
    ensures d.id == c.id && d.text == c.text && d.status == c.status
    ensures d.created == c.created && d.edited == c.edited && d.moderatorMessage == c.moderatorMessage
  {
    CommentDto(
      c.id,
      c.text,
      if c.event.Some? then Some(c.event.value.id) else None,
      if c.author.Some? then Some(c.author.value.id) else None,
      if c.author.Some? then Some(c.author.value.name) else None,
      c.status,
      c.created,
      c.edited,
      c.moderatorMessage)
  }

  /** A request body mapped to an entity and back keeps its text and nothing else. */
  lemma TextSurvivesRoundTrip(n: NewCommentDto)
    ensures ToDto(ToEntity(n)) == CommentDto(None, n.text, None, None, None, None, None, None, None)
  {
  }
}
