/** The declarative request-shape rules of the creation DTOs
    (`[Required]` and `[StringLength]`), as the model-state errors they
    produce.  CreationDate carries no rule on either DTO. */
module Validation {
  import opened Entities

  const TitleMaxLength := 30
  const PostContentMaxLength := 1200
  const CommentContentMaxLength := 1000
  const AuthorMaxLength := 30

  datatype FieldError =
    | Missing(field: string)                 // [Required]
    | TooLong(field: string, maxLength: nat) // [StringLength(maxLength)]

  datatype PostCreateDto = PostCreateDto(title: Text, content: Text, creationDate: Timestamp)

  datatype CommentCreateDto = CommentCreateDto(postId: Id, content: Text, author: Text, creationDate: Timestamp)

  /** A string property with both `[Required]` and `[StringLength(max)]`.
      `[StringLength]` lets null through, and a null or empty string is
      already refused by `[Required]`, so at most one of them fires. */
  function StringRules(field: string, t: Text, max: nat): seq<FieldError> {
    if IsNullOrEmpty(t) then [Missing(field)]
    else if |t.value| > max then [TooLong(field, max)]
    else []
  }

  /** The shape both rules accept together. */
  predicate Acceptable(t: Text, max: nat) {
    t.Some? && 0 < |t.value| <= max
  }

  lemma StringRulesAccept(field: string, t: Text, max: nat)
    ensures StringRules(field, t, max) == [] <==> Acceptable(t, max)
    ensures |StringRules(field, t, max)| <= 1
    ensures StringRules(field, t, max) == [Missing(field)] <==> IsNullOrEmpty(t)
    ensures StringRules(field, t, max) == [TooLong(field, max)] <==> t.Some? && |t.value| > max
  {
  }

  /** Model-state errors of a PostCreateDTO: Title, then Content. */
  function PostCreateErrors(d: PostCreateDto): (r: seq<FieldError>)
    ensures r == [] <==> Acceptable(d.title, TitleMaxLength) && Acceptable(d.content, PostContentMaxLength)
    ensures |r| <= 2
    ensures Missing("Title") in r <==> IsNullOrEmpty(d.title)
    ensures TooLong("Title", TitleMaxLength) in r <==> d.title.Some? && |d.title.value| > TitleMaxLength
    ensures Missing("Content") in r <==> IsNullOrEmpty(d.content)
    ensures TooLong("Content", PostContentMaxLength) in r <==> d.content.Some? && |d.content.value| > PostContentMaxLength
  {
    StringRules("Title", d.title, TitleMaxLength) + StringRules("Content", d.content, PostContentMaxLength)
  }

  /** Model-state errors of a CommentCreateDTO: Content, then Author.
      PostId is a non-nullable Guid, so its `[Required]` never fires. */
  function CommentCreateErrors(d: CommentCreateDto): (r: seq<FieldError>)
    ensures r == [] <==> Acceptable(d.content, CommentContentMaxLength) && Acceptable(d.author, AuthorMaxLength)
    ensures |r| <= 2
    ensures Missing("Content") in r <==> IsNullOrEmpty(d.content)
    ensures TooLong("Content", CommentContentMaxLength) in r <==> d.content.Some? && |d.content.value| > CommentContentMaxLength
    ensures Missing("Author") in r <==> IsNullOrEmpty(d.author)
    ensures TooLong("Author", AuthorMaxLength) in r <==> d.author.Some? && |d.author.value| > AuthorMaxLength
    ensures forall e | e in r :: e.field != "PostId"
  {
    StringRules("Content", d.content, CommentContentMaxLength) + StringRules("Author", d.author, AuthorMaxLength)
  }

  /** Neither the creation date nor (for a comment) the post id affects
      the shape check; in particular `Guid.Empty` passes it. */
  lemma UnconstrainedFields(p: PostCreateDto, c: CommentCreateDto, when: Timestamp, postId: Id)
    ensures PostCreateErrors(p.(creationDate := when)) == PostCreateErrors(p)
    ensures CommentCreateErrors(c.(creationDate := when, postId := postId)) == CommentCreateErrors(c)
  {
  }
}
