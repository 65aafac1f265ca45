/** CommentBusiness: the guard clauses for comments.  Creation first asks
    PostBusiness whether the referenced post exists, then checks the
    comment's own fields. */
module CommentBusiness {
  import opened Wrappers
  import opened Entities
  import opened Repository
  import PostBusiness

  const CommentIdRequired := "Comment Id is required"
  const IdRequired := "Id is required"
  const CommentNotFound := "Comment not found"
  const AuthorRequired := "Author is a required field"
  const ContentRequired := "Content is a required field"
  const PostIdRequired := "Post Id is a required field"

  function CommentMissing(id: Id): string {
    "A Comment with id " + id.text + " does not exist."
  }

  /** ValidateComment: Author, then Content, then PostId. */
  function ValidateComment(c: Comment): (r: Outcome<Error>)
    ensures r.Pass? <==> !IsNullOrEmpty(c.author) && !IsNullOrEmpty(c.content) && c.postId != Empty
    ensures IsNullOrEmpty(c.author) ==> r == Fail(Required(AuthorRequired))
    ensures !IsNullOrEmpty(c.author) && IsNullOrEmpty(c.content) ==> r == Fail(Required(ContentRequired))
    ensures r.Fail? ==> r.error.Required?
  {
    if IsNullOrEmpty(c.author) then Fail(Required(AuthorRequired))
    else if IsNullOrEmpty(c.content) then Fail(Required(ContentRequired))
    else if c.postId == Empty then Fail(Required(PostIdRequired))
    else Pass
  }

  /** CreateAsync: the referenced post is validated before any field, and
      the comment passed in is returned with its key filled in. */
  function Create(s: Store, c: Comment, generated: Id): (r: Result<(Store, Comment), Error>)
    requires generated != Empty
    ensures c.postId == Empty ==> r == Failure(Required(PostBusiness.IdRequired))
    ensures c.postId != Empty && c.postId !in s.posts ==> r == Failure(NotExist(PostBusiness.PostMissing(c.postId)))
    ensures c.postId in s.posts && c.postId != Empty && IsNullOrEmpty(c.author) ==> r == Failure(Required(AuthorRequired))
    ensures c.postId in s.posts && c.postId != Empty && !IsNullOrEmpty(c.author) && IsNullOrEmpty(c.content) ==>
      r == Failure(Required(ContentRequired))
    ensures r.Success? <==>
      && c.postId != Empty && c.postId in s.posts
      && !IsNullOrEmpty(c.author) && !IsNullOrEmpty(c.content)
      && KeyFor(c.id, generated) !in s.comments
    ensures r.Success? ==>
      var (s', created) := r.value;
      && created == c.(id := KeyFor(c.id, generated))
      && created.id != Empty
      && s'.comments == s.comments[created.id := created]
      && s'.posts == s.posts
  {
    match PostBusiness.ValidatePostId(s, c.postId)
    case Fail(e) => Failure(e)
    case Pass =>
      match ValidateComment(c)
      case Fail(e) => Failure(e)
      case Pass => InsertComment(s, c, generated)
  }

  /** GetAsync: the empty Id is refused before the store is read. */
  function Get(s: Store, id: Id): (r: Result<Option<Comment>, Error>)
    ensures id == Empty <==> r.Failure?
    ensures r.Failure? ==> r.error == Required(CommentIdRequired)
    ensures r.Success? ==> (r.value.Some? <==> id in s.comments)
    ensures r.Success? && r.value.Some? ==> r.value.value == CommentAt(s, id) && r.value.value.id == id
  {
    if id == Empty then Failure(Required(CommentIdRequired))
    else Success(FindComment(s, id))
  }

  /** `CommentBusiness.DeleteAsync` as it is written: the existence test
      is inverted, so a stored comment is reported missing and an absent
      one reaches `Delete(null)`. */
  function DeleteAsWritten(s: Store, id: Id): (r: Result<Store, Error>)
    ensures r.Failure?
    ensures id == Empty ==> r == Failure(Required(CommentIdRequired))
    ensures id != Empty && id in s.comments ==> r == Failure(NotExist(CommentNotFound))
    ensures id != Empty && id !in s.comments ==> r == Failure(Fault(NullEntity))
  {
    var comment :- Get(s, id);
    if comment.Some? then Failure(NotExist(CommentNotFound))
    else DeleteCommentRow(s, comment)
  }

  /** DeleteAsync with the evidently intended test (`comment == null`),
      the same test PostBusiness.DeleteAsync makes. */
  function Delete(s: Store, id: Id): (r: Result<Store, Error>)
    ensures id == Empty ==> r == Failure(Required(CommentIdRequired))
    ensures id != Empty && id !in s.comments ==> r == Failure(NotExist(CommentNotFound))
    ensures r.Success? <==> id != Empty && id in s.comments
    ensures r.Success? ==> r.value == s.(comments := s.comments - {id})
  {
    var comment :- Get(s, id);
    if comment.None? then Failure(NotExist(CommentNotFound))
    else DeleteCommentRow(s, comment)
  }

  /** GetAllAsync: every stored comment. */
  function GetAll(s: Store): (r: set<Comment>)
    ensures forall c | c in r :: c.id in s.comments && c == CommentAt(s, c.id)
    ensures forall k | k in s.comments :: CommentAt(s, k) in r
  {
    AllComments(s)
  }

  /** GetByPostIdAsync: delegates to PostBusiness.GetComments. */
  function GetByPostId(s: Store, postId: Id): (r: Result<Option<set<Comment>>, Error>)
    ensures postId == Empty ==> r == Failure(Required(PostBusiness.IdRequired))
    ensures postId != Empty ==> r.Success? && (r.value.Some? <==> postId in s.posts)
    ensures r.Success? && r.value.Some? ==>
      forall c :: c in r.value.value <==> c.id in s.comments && c == CommentAt(s, c.id) && c.postId == postId
  {
    PostBusiness.GetComments(s, postId)
  }

  /** ValidateCommentId: the comment's own Id must be set and stored. */
  function ValidateCommentId(s: Store, id: Id): (r: Outcome<Error>)
    ensures r.Pass? <==> id != Empty && id in s.comments
    ensures id == Empty ==> r == Fail(Required(IdRequired))
    ensures id != Empty && id !in s.comments ==> r == Fail(NotExist(CommentMissing(id)))
  {
    if id == Empty then Fail(Required(IdRequired))
    else
      match Get(s, id)
      case Failure(e) => Fail(e)
      case Success(comment) => if comment.None? then Fail(NotExist(CommentMissing(id))) else Pass
  }

  /** UpdateAsync: only the comment's own Id is validated; Author, Content
      and PostId reach the store unchecked, where only the NOT NULL and
      foreign-key columns can still refuse them. */
  function Update(s: Store, c: Comment): (r: Result<(Store, Comment), Error>)
    ensures c.id == Empty ==> r == Failure(Required(IdRequired))
    ensures c.id != Empty && c.id !in s.comments ==> r == Failure(NotExist(CommentMissing(c.id)))
    ensures r.Success? <==> c.id != Empty && c.id in s.comments && CommentRowAdmissible(s, c)
    ensures r.Success? ==>
      var (s', returned) := r.value;
      && returned == c
      && s'.comments == s.comments[c.id := c]
      && s'.posts == s.posts
  {
    match ValidateCommentId(s, c.id)
    case Fail(e) => Failure(e)
    case Pass =>
      var s' :- UpdateCommentRow(s, c);
      Success((s', c))
  }

  /** Two Guids for the counterexample below. */
  const SamplePost := Id("3f2504e0-4f89-11d3-9a0c-0305e82c3301")
  const SampleComment := Id("7c9e6679-7425-40de-944b-e07fc1f90ae7")

  /** A store holding one post and one comment on it, on which the rule as
      written refuses to delete the stored comment while the corrected rule
      deletes it. */
  lemma DeleteAsWrittenCounterexample()
    ensures
      var post := Post(SamplePost, Timestamp(0), Some("Hi"), Some("World"), {});
      var comment := Comment(SampleComment, Timestamp(0), SamplePost, Some("Nice"), Some("Ann"));
      var s := Store(map[SamplePost := post], map[SampleComment := comment]);
      && DeleteAsWritten(s, SampleComment) == Failure(NotExist(CommentNotFound))
      && Delete(s, SampleComment) == Success(Store(map[SamplePost := post], map[]))
  {
    var post := Post(SamplePost, Timestamp(0), Some("Hi"), Some("World"), {});
    var comment := Comment(SampleComment, Timestamp(0), SamplePost, Some("Nice"), Some("Ann"));
    var s := Store(map[SamplePost := post], map[SampleComment := comment]);
    assert SampleComment != Empty;
    assert s.comments - {SampleComment} == map[];
  }

  /** ValidateComment's PostId test cannot fire from CreateAsync:
      ValidatePostId has already refused the all-zero id with its own
      message. */
  lemma PostIdCheckUnreachable(s: Store, c: Comment, generated: Id)
    requires generated != Empty
    ensures PostBusiness.ValidatePostId(s, c.postId).Pass? ==> ValidateComment(c) != Fail(Required(PostIdRequired))
    ensures Create(s, c, generated) != Failure(Required(PostIdRequired))
  {
  }
}
