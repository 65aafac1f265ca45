/** PostBusiness: the guard clauses that run before a post reaches the
    repository.  Writes return the new store with their value; a failure
    carries no store, so the caller's store is the state after it. */
module PostBusiness {
  import opened Wrappers
  import opened Entities
  import opened Repository

  const IdRequired := "Id is required"
  const TitleRequired := "Title is a Required field"
  const ContentRequired := "Content is a Required field"
  const PostNotFound := "Post not found"

  function PostMissing(id: Id): string {
    "A Post with id " + id.text + " does not exist."
  }

  /** IsPostValidForCreation: Title first, then Content. */
  function CheckForCreation(post: Post): (r: Outcome<Error>)
    ensures r.Pass? <==> !IsNullOrEmpty(post.title) && !IsNullOrEmpty(post.content)
    ensures IsNullOrEmpty(post.title) ==> r == Fail(Required(TitleRequired))
    ensures !IsNullOrEmpty(post.title) && IsNullOrEmpty(post.content) ==> r == Fail(Required(ContentRequired))
  {
    if IsNullOrEmpty(post.title) then Fail(Required(TitleRequired))
    else if IsNullOrEmpty(post.content) then Fail(Required(ContentRequired))
    else Pass
  }

  /** CreateAsync.  `generated` is the Guid the store assigns when the
      post's own Id is `Guid.Empty`. */
  function Create(s: Store, post: Post, generated: Id): (r: Result<(Store, Post), Error>)
    requires generated != Empty
    ensures IsNullOrEmpty(post.title) ==> r == Failure(Required(TitleRequired))
    ensures !IsNullOrEmpty(post.title) && IsNullOrEmpty(post.content) ==> r == Failure(Required(ContentRequired))
    ensures r.Success? <==>
      !IsNullOrEmpty(post.title) && !IsNullOrEmpty(post.content) && KeyFor(post.id, generated) !in s.posts
    ensures r.Failure? && !r.error.Required? ==> r.error == Fault(Rejected)
    ensures r.Success? ==>
      var (s', created) := r.value;
      && created == post.(id := KeyFor(post.id, generated))
      && created.id != Empty
      && s'.posts.Keys == s.posts.Keys + {created.id}
      && s'.posts[created.id] == Row(created)
      && (forall k | k in s.posts :: s'.posts[k] == s.posts[k])
      && s'.comments == s.comments
  {
    match CheckForCreation(post)
    case Fail(e) => Failure(e)
    case Pass => InsertPost(s, post, generated)
  }

  /** GetAsync: the empty Id is refused before the store is read. */
  function Get(s: Store, id: Id): (r: Result<Option<Post>, Error>)
    ensures id == Empty <==> r.Failure?
    ensures r.Failure? ==> r.error == Required(IdRequired)
    ensures r.Success? ==> (r.value.Some? <==> id in s.posts)
    ensures r.Success? && r.value.Some? ==>
      && r.value.value.(comments := {}) == PostAt(s, id)
      && (forall c :: c in r.value.value.comments <==>
            c.id in s.comments && c == CommentAt(s, c.id) && c.postId == id)
  {
    if id == Empty then Failure(Required(IdRequired))
    else Success(FindPost(s, id))
  }

  /** DeleteAsync: fetch, refuse a missing post, then remove it. */
  function Delete(s: Store, id: Id): (r: Result<Store, Error>)
    ensures id == Empty ==> r == Failure(Required(IdRequired))
    ensures id != Empty && id !in s.posts ==> r == Failure(NotExist(PostNotFound))
    ensures r.Success? <==> id != Empty && id in s.posts
    ensures r.Success? ==>
      && r.value.posts == s.posts - {id}
      && (forall k | k in r.value.comments :: k in s.comments && r.value.comments[k] == s.comments[k])
      && (forall k | k in s.comments :: k in r.value.comments <==> s.comments[k].postId != id)
  {
    var post :- Get(s, id);
    if post.None? then Failure(NotExist(PostNotFound))
    else DeletePostRow(s, post.value)
  }

  /** GetComments: `result?.Comments`. */
  function GetComments(s: Store, id: Id): (r: Result<Option<set<Comment>>, Error>)
    ensures id == Empty <==> r.Failure?
    ensures r.Failure? ==> r.error == Required(IdRequired)
    ensures r.Success? ==> (r.value.Some? <==> id in s.posts)
    ensures r.Success? && r.value.Some? ==>
      forall c :: c in r.value.value <==> c.id in s.comments && c == CommentAt(s, c.id) && c.postId == id
  {
    var post :- Get(s, id);
    if post.None? then Success(None) else Success(Some(post.value.comments))
  }

  /** GetAllAsync: every stored post, none of them carrying comments. */
  function GetAll(s: Store): (r: set<Post>)
    ensures forall p | p in r :: p.comments == {} && p.id in s.posts && p == PostAt(s, p.id)
    ensures forall k | k in s.posts :: PostAt(s, k) in r
  {
    AllPosts(s)
  }

  /** ValidatePostId: the reusable existence check. */
  function ValidatePostId(s: Store, id: Id): (r: Outcome<Error>)
    ensures r.Pass? <==> id != Empty && id in s.posts
    ensures id == Empty ==> r == Fail(Required(IdRequired))
    ensures id != Empty && id !in s.posts ==> r == Fail(NotExist(PostMissing(id)))
  {
    if id == Empty then Fail(Required(IdRequired))
    else
      match Get(s, id)
      case Failure(e) => Fail(e)
      case Success(post) => if post.None? then Fail(NotExist(PostMissing(id))) else Pass
  }

  /** UpdateAsync: validate the Id, write the full row, return the input. */
  function Update(s: Store, post: Post): (r: Result<(Store, Post), Error>)
    ensures post.id == Empty ==> r == Failure(Required(IdRequired))
    ensures post.id != Empty && post.id !in s.posts ==> r == Failure(NotExist(PostMissing(post.id)))
    ensures r.Success? <==> post.id != Empty && post.id in s.posts && PostRowAdmissible(post)
    ensures r.Success? ==>
      var (s', returned) := r.value;
      && returned == post
      && s'.posts == s.posts[post.id := Row(post)]
      && s'.comments == s.comments
  {
    match ValidatePostId(s, post.id)
    case Fail(e) => Failure(e)
    case Pass =>
      var s' :- UpdatePostRow(s, post);
      Success((s', post))
  }
}
