/** What a client observes across the whole pipeline, stated over the
    store a request meets. */
module Scenarios {
  import opened Wrappers
  import opened Entities
  import opened Repository
  import opened Validation
  import opened Http
  import opened HttpStatus
  import opened Endpoints
  import ExceptionHandler
  import PostBusiness
  import CommentBusiness

  /** GET posts/{id}: 400 for the all-zero id, 404 for an unknown one,
      otherwise 200 with the stored post. */
  lemma GetPostStatus(s: Store, id: Id, raised: ExceptionHandler.Exception)
    ensures GetPost(s, id, raised).status == BadRequest <==> id == Empty
    ensures GetPost(s, id, raised).status == NotFound <==> id != Empty && id !in s.posts
    ensures GetPost(s, id, raised).status == Ok <==> id != Empty && id in s.posts
    ensures GetPost(s, id, raised).status == Ok ==>
      GetPost(s, id, raised).body == Envelope(Some(PostToDto(PostAt(s, id))))
  {
  }

  /** GET posts: the list is always answered with 200, holding every
      stored post and no comments. */
  lemma GetAllPostsStatus(s: Store)
    ensures GetAllPosts(s).status == Ok
    ensures GetAllPosts(s).body.Envelope? && GetAllPosts(s).body.content.Some?
    ensures forall k | k in s.posts :: PostToDto(PostAt(s, k)) in GetAllPosts(s).body.content.value
    ensures forall d | d in GetAllPosts(s).body.content.value :: d.id in s.posts && d == PostToDto(PostAt(s, d.id))
  {
    var posts := PostBusiness.GetAll(s);
    forall d | d in GetAllPosts(s).body.content.value
      ensures d.id in s.posts && d == PostToDto(PostAt(s, d.id))
    {
      var p :| p in posts && d == PostToDto(p);
    }
  }

  /** POST posts: a shape-valid request creates the post under a generated
      non-empty id, answers 201 with it, and a later GET returns the same
      Title, Content and CreationDate; a shape-invalid request is refused
      with the framework's 400 before the action runs and changes nothing. */
  lemma CreateThenGetPost(s: Store, d: PostCreateDto, generated: Id, raised: ExceptionHandler.Exception)
    requires generated != Empty && generated !in s.posts
    ensures PostCreateErrors(d) != [] ==>
      CreatePost(s, d, generated, raised) == (s, Reply(BadRequest, Problem(PostCreateErrors(d)), false))
    ensures PostCreateErrors(d) == [] ==>
      var (s', reply) := CreatePost(s, d, generated, raised);
      && reply.status == Created
      && reply.body == Envelope(Some(PostDto(generated, d.creationDate, d.title, d.content)))
      && s'.posts.Keys == s.posts.Keys + {generated}
      && s'.comments == s.comments
      && GetPost(s', generated, raised) ==
           Reply(Ok, Envelope(Some(PostDto(generated, d.creationDate, d.title, d.content))), true)
  {
  }

  /** PUT posts/{id} with a body id other than the route id: 400, and the
      service is never reached.  The action reports the mismatch only when
      the framework's filter has let the request through. */
  lemma UpdatePostIdMismatch(s: Store, routeId: Id, d: PostDto, modelErrors: seq<FieldError>, raised: ExceptionHandler.Exception)
    requires routeId != d.id
    ensures modelErrors == [] ==>
      UpdatePost(s, routeId, d, modelErrors, raised) == (s, Reply(BadRequest, Plain(IdMismatch), false))
    ensures modelErrors != [] ==>
      UpdatePost(s, routeId, d, modelErrors, raised) == (s, Reply(BadRequest, Problem(modelErrors), false))
  {
  }

  /** The PUT posts/{id} action checks no field: once past the framework's
      filter, a null Title reaches the NOT NULL column and is answered with
      whatever status the library's exception earns, 500. */
  lemma UpdatePostNullTitle(s: Store, d: PostDto, modelErrors: seq<FieldError>, raised: ExceptionHandler.Exception)
    requires LibraryException(raised)
    requires d.id != Empty && d.id in s.posts && d.title.None?
    ensures UpdatePost(s, d.id, d, modelErrors, raised).0 == s
    ensures modelErrors == [] ==> UpdatePost(s, d.id, d, modelErrors, raised).1.status == InternalServerError
    ensures modelErrors != [] ==> UpdatePost(s, d.id, d, modelErrors, raised).1.status == BadRequest
  {
  }

  /** DELETE posts/{id}: 204 only when a post was removed; an unknown id
      surfaces as the business layer's NotExist, 404. */
  lemma DeletePostStatus(s: Store, id: Id, raised: ExceptionHandler.Exception)
    ensures DeletePost(s, id, raised).1.status == BadRequest <==> id == Empty
    ensures DeletePost(s, id, raised).1.status == NotFound <==> id != Empty && id !in s.posts
    ensures DeletePost(s, id, raised).1.status == NoContent <==> id != Empty && id in s.posts
    ensures DeletePost(s, id, raised).1.status != NoContent ==> DeletePost(s, id, raised).0 == s
    ensures DeletePost(s, id, raised).1.status == NoContent ==> DeletePost(s, id, raised).0.posts == s.posts - {id}
  {
  }

  /** GET posts/{id}/comments: 400 for the all-zero id, else 200.  An
      unknown post yields an empty list rather than 204, because the
      mapper turns the service's null into an empty collection. */
  lemma GetPostCommentsStatus(s: Store, id: Id, raised: ExceptionHandler.Exception)
    ensures GetPostComments(s, id, raised).status == BadRequest <==> id == Empty
    ensures GetPostComments(s, id, raised).status == Ok <==> id != Empty
    ensures GetPostComments(s, id, raised).status != NoContent
    ensures id != Empty && id !in s.posts ==> GetPostComments(s, id, raised).body == Envelope(Some({}))
    ensures id != Empty && id in s.posts ==>
              GetPostComments(s, id, raised).body == Envelope(Some(CommentDtos(CommentsOf(s, id))))
  {
  }

  /** GET comments/{id}: 400 for the all-zero id, 404 for an unknown one,
      otherwise 200 with the stored comment. */
  lemma GetCommentStatus(s: Store, id: Id, raised: ExceptionHandler.Exception)
    ensures GetComment(s, id, raised).status == BadRequest <==> id == Empty
    ensures GetComment(s, id, raised).status == NotFound <==> id != Empty && id !in s.comments
    ensures GetComment(s, id, raised).status == Ok <==> id != Empty && id in s.comments
    ensures id != Empty && id in s.comments ==>
              GetComment(s, id, raised).body == Envelope(Some(CommentToDto(CommentAt(s, id))))
  {
  }

  /** POST comments naming a post that does not exist: the shape check
      passes it, ValidatePostId refuses it, and the client sees 404 with
      that message; an all-zero PostId also passes the shape check and is
      refused with 400. */
  lemma CreateCommentForMissingPost(s: Store, d: CommentCreateDto, generated: Id, raised: ExceptionHandler.Exception)
    requires generated != Empty
    requires CommentCreateErrors(d) == []
    requires d.postId !in s.posts
    ensures CreateComment(s, d, generated, raised).0 == s
    ensures d.postId != Empty ==>
      CreateComment(s, d, generated, raised).1 ==
        Reply(NotFound, ErrorList([PostBusiness.PostMissing(d.postId)]), true)
    ensures d.postId == Empty ==>
      CreateComment(s, d, generated, raised).1 ==
        Reply(BadRequest, ErrorList([PostBusiness.IdRequired]), true)
  {
    var e := Raise(if d.postId == Empty then Required(PostBusiness.IdRequired) else NotExist(PostBusiness.PostMissing(d.postId)), raised);
    ExceptionHandler.MessagesOutermostFirst(e);
  }

  /** POST comments with a shape error: the framework's filter answers 400
      with the errors before the action runs, and nothing changes. */
  lemma CreateCommentShapeInvalid(s: Store, d: CommentCreateDto, generated: Id, raised: ExceptionHandler.Exception)
    requires generated != Empty
    requires CommentCreateErrors(d) != []
    ensures CreateComment(s, d, generated, raised) == (s, Reply(BadRequest, Problem(CommentCreateErrors(d)), false))
  {
  }

  /** The actions' own model-state branches are never reached end to end:
      no endpoint answers with the action's error list, because the
      framework's filter has already refused any invalid model state. */
  lemma ActionModelStateBranchPreempted(s: Store, routeId: Id, pd: PostCreateDto, cd: CommentCreateDto, d: CommentDto,
                                        modelErrors: seq<FieldError>, generated: Id, raised: ExceptionHandler.Exception)
    requires generated != Empty
    ensures !CreatePost(s, pd, generated, raised).1.body.Invalid?
    ensures !CreateComment(s, cd, generated, raised).1.body.Invalid?
    ensures !UpdateComment(s, routeId, d, modelErrors, raised).1.body.Invalid?
  {
  }

  /** POST comments for an existing post with an acceptable shape: 201 and
      the comment is stored under the generated id. */
  lemma CreateCommentForExistingPost(s: Store, d: CommentCreateDto, generated: Id, raised: ExceptionHandler.Exception)
    requires generated != Empty && generated !in s.comments
    requires CommentCreateErrors(d) == []
    requires d.postId != Empty && d.postId in s.posts
    ensures CreateComment(s, d, generated, raised).1.status == Created
    ensures CreateComment(s, d, generated, raised).0 ==
      s.(comments := s.comments[generated := Comment(generated, d.creationDate, d.postId, d.content, d.author)])
  {
  }

  /** PUT comments/{id}: neither a mismatched id nor an invalid model state
      reaches the service.  The framework's filter answers an invalid model
      state before the action runs, so the action's mismatch message is
      seen only for a request that passed the filter. */
  lemma UpdateCommentGuards(s: Store, routeId: Id, d: CommentDto, modelErrors: seq<FieldError>, raised: ExceptionHandler.Exception)
    requires routeId != d.id || modelErrors != []
    ensures UpdateComment(s, routeId, d, modelErrors, raised).0 == s
    ensures UpdateComment(s, routeId, d, modelErrors, raised).1.status == BadRequest
    ensures !UpdateComment(s, routeId, d, modelErrors, raised).1.serviceCalled
    ensures modelErrors != [] ==> UpdateComment(s, routeId, d, modelErrors, raised).1.body == Problem(modelErrors)
    ensures modelErrors == [] ==> UpdateComment(s, routeId, d, modelErrors, raised).1.body == Plain(IdMismatch)
  {
  }

  /** DELETE comments/{id} for a stored comment: the corrected rule removes
      it and answers 204; the rule as written answers 404 and keeps it. */
  lemma DeleteExistingComment(s: Store, id: Id, raised: ExceptionHandler.Exception)
    requires id != Empty && id in s.comments
    ensures DeleteComment(s, id, raised) == (s.(comments := s.comments - {id}), Reply(NoContent, NoBody, true))
    ensures DeleteCommentAsWritten(s, id, raised).0 == s
    ensures DeleteCommentAsWritten(s, id, raised).1 == Reply(NotFound, ErrorList([CommentBusiness.CommentNotFound]), true)
  {
    var e := Raise(NotExist(CommentBusiness.CommentNotFound), raised);
    ExceptionHandler.MessagesOutermostFirst(e);
  }

  /** The status every business error surfaces with. */
  lemma ErrorStatus(e: Error, raised: ExceptionHandler.Exception)
    requires LibraryException(raised)
    ensures ExceptionHandler.StatusCode(Raise(e, raised)) ==
      (if e.Required? then BadRequest else if e.NotExist? then NotFound else InternalServerError)
    ensures !e.Fault? ==> ExceptionHandler.Messages(Raise(e, raised)) == (if e.message == [] then [] else [e.message])
  {
    if !e.Fault? {
      ExceptionHandler.MessagesOutermostFirst(Raise(e, raised));
    }
  }
}
