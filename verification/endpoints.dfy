/** The request pipeline end to end: controller guard, application service
    (a copy of the scalar fields between DTOs and entities), business rules and
    store.  Each endpoint returns the reply and the store after the
    request. */
module Endpoints {
  import opened Wrappers
  import opened Entities
  import opened Repository
  import opened Validation
  import opened Http
  import opened HttpStatus
  import ExceptionHandler
  import PostBusiness
  import CommentBusiness
  import PostController
  import CommentController

  datatype PostDto = PostDto(id: Id, creationDate: Timestamp, title: Text, content: Text)

  /** The comment DTO without its `Post` navigation property. */
  datatype CommentDto = CommentDto(id: Id, creationDate: Timestamp, postId: Id, content: Text, author: Text)

  function PostToDto(p: Post): PostDto {
    PostDto(p.id, p.creationDate, p.title, p.content)
  }

  function PostFromDto(d: PostDto): Post {
    Post(d.id, d.creationDate, d.title, d.content, {})
  }

  function PostFromCreate(d: PostCreateDto): Post {
    Post(Empty, d.creationDate, d.title, d.content, {})
  }

  function CommentToDto(c: Comment): CommentDto {
    CommentDto(c.id, c.creationDate, c.postId, c.content, c.author)
  }

  function CommentFromDto(d: CommentDto): Comment {
    Comment(d.id, d.creationDate, d.postId, d.content, d.author)
  }

  function CommentFromCreate(d: CommentCreateDto): Comment {
    Comment(Empty, d.creationDate, d.postId, d.content, d.author)
  }

  function CommentDtos(cs: set<Comment>): set<CommentDto> {
    set c | c in cs :: CommentToDto(c)
  }

  /** The exception a business error travels as.  A storage fault surfaces
      as whatever the data-access library threw, which is `raised`. */
  function Raise(e: Error, raised: ExceptionHandler.Exception): ExceptionHandler.Exception {
    match e
    case Required(m) => ExceptionHandler.Exception(ExceptionHandler.RequiredException, Some(m), None)
    case NotExist(m) => ExceptionHandler.Exception(ExceptionHandler.NotExistException, Some(m), None)
    case Fault(_) => raised
  }

  /** The library's own exceptions are neither of the two domain kinds. */
  predicate LibraryException(raised: ExceptionHandler.Exception) {
    raised.kind == ExceptionHandler.OtherException
  }

  /** The store after a write: it changes only when the action called the
      service and the business operation succeeded. */
  function After<V>(s: Store, reply: Reply<V>, result: Result<Store, Error>): Store {
    if reply.serviceCalled && result.Success? then result.value else s
  }

  function StoreOf<V>(r: Result<(Store, V), Error>): Result<Store, Error> {
    match r
    case Success((s', _)) => Success(s')
    case Failure(e) => Failure(e)
  }

  function GetPost(s: Store, id: Id, raised: ExceptionHandler.Exception): Reply<PostDto> {
    var service := match PostBusiness.Get(s, id)
      case Failure(e) => Raised(Raise(e, raised))
      case Success(post) => Answered(if post.None? then None else Some(PostToDto(post.value)));
    PostController.Get(id, service)
  }

  function GetAllPosts(s: Store): Reply<set<PostDto>> {
    PostController.GetAll(Answered(Some(set p | p in PostBusiness.GetAll(s) :: PostToDto(p))))
  }

  function CreatePost(s: Store, d: PostCreateDto, generated: Id, raised: ExceptionHandler.Exception): (Store, Reply<PostDto>)
    requires generated != Empty
  {
    var result := PostBusiness.Create(s, PostFromCreate(d), generated);
    var service := match result
      case Failure(e) => Raised(Raise(e, raised))
      case Success((_, created)) => Answered(Some(PostToDto(created)));
    var errors := PostCreateErrors(d);
    var reply := ModelStateFilter(errors, PostController.Post(errors, service));
    (After(s, reply, StoreOf(result)), reply)
  }

  /** PUT posts/{id}.  PostDTO declares no validation attributes, so its
      model-state errors (binding failures) are given rather than derived. */
  function UpdatePost(s: Store, routeId: Id, d: PostDto, modelErrors: seq<FieldError>, raised: ExceptionHandler.Exception): (Store, Reply<PostDto>) {
    var result := PostBusiness.Update(s, PostFromDto(d));
    var service := match result
      case Failure(e) => Raised(Raise(e, raised))
      case Success((_, updated)) => Answered(Some(PostToDto(updated)));
    var reply := ModelStateFilter(modelErrors, PostController.Put(routeId, d.id, service));
    (After(s, reply, StoreOf(result)), reply)
  }

  function DeletePost(s: Store, id: Id, raised: ExceptionHandler.Exception): (Store, Reply<string>) {
    var result := PostBusiness.Delete(s, id);
    var service := match result
      case Failure(e) => Raised(Raise(e, raised))
      case Success(_) => Answered(Some("Post with " + id.text + " has been deleted."));
    var reply := PostController.Delete(id, service);
    (After(s, reply, result), reply)
  }

  /** The mapper turns a null collection into an empty one, so the
      service always answers with content. */
  function GetPostComments(s: Store, id: Id, raised: ExceptionHandler.Exception): Reply<set<CommentDto>> {
    var service := match PostBusiness.GetComments(s, id)
      case Failure(e) => Raised(Raise(e, raised))
      case Success(comments) => Answered(Some(if comments.None? then {} else CommentDtos(comments.value)));
    PostController.GetComments(id, service)
  }

  function GetComment(s: Store, id: Id, raised: ExceptionHandler.Exception): Reply<CommentDto> {
    var service := match CommentBusiness.Get(s, id)
      case Failure(e) => Raised(Raise(e, raised))
      case Success(comment) => Answered(if comment.None? then None else Some(CommentToDto(comment.value)));
    CommentController.Get(id, service)
  }

  function CreateComment(s: Store, d: CommentCreateDto, generated: Id, raised: ExceptionHandler.Exception): (Store, Reply<CommentDto>)
    requires generated != Empty
  {
    var result := CommentBusiness.Create(s, CommentFromCreate(d), generated);
    var service := match result
      case Failure(e) => Raised(Raise(e, raised))
      case Success((_, created)) => Answered(Some(CommentToDto(created)));
    var errors := CommentCreateErrors(d);
    var reply := ModelStateFilter(errors, CommentController.Post(errors, service));
    (After(s, reply, StoreOf(result)), reply)
  }

  /** PUT comments/{id}.  CommentDTO declares no validation attributes, so
      its model-state errors are given rather than derived. */
  function UpdateComment(s: Store, routeId: Id, d: CommentDto, modelErrors: seq<FieldError>, raised: ExceptionHandler.Exception): (Store, Reply<CommentDto>) {
    var result := CommentBusiness.Update(s, CommentFromDto(d));
    var service := match result
      case Failure(e) => Raised(Raise(e, raised))
      case Success((_, updated)) => Answered(Some(CommentToDto(updated)));
    var reply := ModelStateFilter(modelErrors, CommentController.Put(routeId, d.id, modelErrors, service));
    (After(s, reply, StoreOf(result)), reply)
  }

  /** DELETE comments/{id} over the corrected business rule. */
  function DeleteComment(s: Store, id: Id, raised: ExceptionHandler.Exception): (Store, Reply<string>) {
    var result := CommentBusiness.Delete(s, id);
    var service := match result
      case Failure(e) => Raised(Raise(e, raised))
      case Success(_) => Answered(Some("Comment with " + id.text + " has been deleted."));
    var reply := CommentController.Delete(id, service);
    (After(s, reply, result), reply)
  }

  /** DELETE comments/{id} over the business rule as
      `CommentBusiness.DeleteAsync` is written. */
  function DeleteCommentAsWritten(s: Store, id: Id, raised: ExceptionHandler.Exception): (Store, Reply<string>) {
    var result := CommentBusiness.DeleteAsWritten(s, id);
    var service := match result
      case Failure(e) => Raised(Raise(e, raised))
      case Success(_) => Answered(Some("Comment with " + id.text + " has been deleted."));
    var reply := CommentController.Delete(id, service);
    (After(s, reply, result), reply)
  }
}
