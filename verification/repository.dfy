/** The relational store behind the repositories, as two finite maps keyed
    by identifier.  Only what the business layer observes is kept: key
    uniqueness, key generation on insert, the NOT NULL and foreign-key
    columns, cascade removal of a post's comments, and the asymmetry that a
    single-post fetch includes the post's comments while a list fetch does
    not. */
module Repository {
  import opened Wrappers
  import opened Entities

  datatype Store = Store(posts: map<Id, Post>, comments: map<Id, Comment>)

  /** The row a post occupies: its scalar columns only. */
  function Row(p: Post): Post {
    p.(comments := {})
  }

  /** Post.Title and Post.Content are NOT NULL columns. */
  predicate PostRowAdmissible(p: Post) {
    p.title.Some? && p.content.Some?
  }

  /** Comment.Author and Comment.Content are NOT NULL columns and
      Comment.PostId is a required foreign key to Post. */
  predicate CommentRowAdmissible(s: Store, c: Comment) {
    c.author.Some? && c.content.Some? && c.postId in s.posts
  }

  /** The invariant every committed state satisfies. */
  predicate Valid(s: Store) {
    && Empty !in s.posts
    && Empty !in s.comments
    && (forall k | k in s.posts :: s.posts[k].id == k && s.posts[k].comments == {} && PostRowAdmissible(s.posts[k]))
    && (forall k | k in s.comments :: s.comments[k].id == k && CommentRowAdmissible(s, s.comments[k]))
  }

  /** The key an insert uses: a Guid key left at `Guid.Empty` is generated
      on add; `generated` stands for the generated value. */
  function KeyFor(id: Id, generated: Id): Id {
    if id == Empty then generated else id
  }

  /** The entity materialised from the post row under key `k`, without
      its comments; its Id is the key it was read by. */
  function PostAt(s: Store, k: Id): Post
    requires k in s.posts
  {
    s.posts[k].(id := k, comments := {})
  }

  /** The entity materialised from the comment row under key `k`. */
  function CommentAt(s: Store, k: Id): Comment
    requires k in s.comments
  {
    s.comments[k].(id := k)
  }

  /** The comments that reference `postId`. */
  function CommentsOf(s: Store, postId: Id): set<Comment> {
    set k | k in s.comments && s.comments[k].postId == postId :: CommentAt(s, k)
  }

  /** PostRepository.GetAsync: the post with its comments included. */
  function FindPost(s: Store, id: Id): Option<Post> {
    if id in s.posts then Some(PostAt(s, id).(comments := CommentsOf(s, id))) else None
  }

  /** BaseRepository.GetAllAsync for posts: rows only, no comments. */
  function AllPosts(s: Store): set<Post> {
    set k | k in s.posts :: PostAt(s, k)
  }

  /** BaseRepository.GetAsync for comments. */
  function FindComment(s: Store, id: Id): Option<Comment> {
    if id in s.comments then Some(CommentAt(s, id)) else None
  }

  /** BaseRepository.GetAllAsync for comments. */
  function AllComments(s: Store): set<Comment> {
    set k | k in s.comments :: CommentAt(s, k)
  }

  /** BaseRepository.CreateAsync for a post: returns the entity with its key filled in. */
  function InsertPost(s: Store, p: Post, generated: Id): Result<(Store, Post), Error>
    requires generated != Empty
  {
    var stored := p.(id := KeyFor(p.id, generated));
    if stored.id in s.posts || !PostRowAdmissible(stored) then Failure(Fault(Rejected))
    else Success((s.(posts := s.posts[stored.id := Row(stored)]), stored))
  }

  /** BaseRepository.CreateAsync for a comment. */
  function InsertComment(s: Store, c: Comment, generated: Id): Result<(Store, Comment), Error>
    requires generated != Empty
  {
    var stored := c.(id := KeyFor(c.id, generated));
    if stored.id in s.comments || !CommentRowAdmissible(s, stored) then Failure(Fault(Rejected))
    else Success((s.(comments := s.comments[stored.id := stored]), stored))
  }

  /** BaseRepository.UpdateAsync for a post: a full-row UPDATE by key. */
  function UpdatePostRow(s: Store, p: Post): Result<Store, Error> {
    if p.id !in s.posts || !PostRowAdmissible(p) then Failure(Fault(Rejected))
    else Success(s.(posts := s.posts[p.id := Row(p)]))
  }

  /** BaseRepository.UpdateAsync for a comment. */
  function UpdateCommentRow(s: Store, c: Comment): Result<Store, Error> {
    if c.id !in s.comments || !CommentRowAdmissible(s, c) then Failure(Fault(Rejected))
    else Success(s.(comments := s.comments[c.id := c]))
  }

  /** BaseRepository.Delete for a post: the required relationship cascades,
      so the post's comments go with it. */
  function DeletePostRow(s: Store, p: Post): Result<Store, Error> {
    if p.id !in s.posts then Failure(Fault(Rejected))
    else Success(Store(s.posts - {p.id}, map k | k in s.comments && s.comments[k].postId != p.id :: s.comments[k]))
  }

  /** BaseRepository.Delete for a comment; a null entity is refused. */
  function DeleteCommentRow(s: Store, c: Option<Comment>): Result<Store, Error> {
    if c.None? then Failure(Fault(NullEntity))
    else if c.value.id !in s.comments then Failure(Fault(Rejected))
    else Success(s.(comments := s.comments - {c.value.id}))
  }
}
