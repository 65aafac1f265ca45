/** What the read rules observe after each successful write rule: the
    writes and the reads agree about the same store. */
module ReadsAfterWrites {
  import opened Wrappers
  import opened Entities
  import opened Repository
  import PostBusiness
  import CommentBusiness

  /** GetByPostIdAsync is exactly GetComments of the post rules. */
  lemma GetByPostIdDelegates(s: Store, postId: Id)
    ensures CommentBusiness.GetByPostId(s, postId) == PostBusiness.GetComments(s, postId)
  {
  }

  /** A created post is read back, with no comments yet. */
  lemma CreateThenGetPost(s: Store, post: Post, generated: Id)
    requires Valid(s) && generated != Empty
    ensures PostBusiness.Create(s, post, generated).Success? ==>
      var (s', created) := PostBusiness.Create(s, post, generated).value;
      PostBusiness.Get(s', created.id) == Success(Some(created.(comments := {})))
  {
    if PostBusiness.Create(s, post, generated).Success? {
      var (s', created) := PostBusiness.Create(s, post, generated).value;
      assert forall k | k in s'.comments :: s'.comments[k].postId != created.id;
      assert CommentsOf(s', created.id) == {};
    }
  }

  /** Creating a post adds exactly that post to the listing. */
  lemma GetAllAfterCreate(s: Store, post: Post, generated: Id)
    requires generated != Empty
    ensures PostBusiness.Create(s, post, generated).Success? ==>
      var (s', created) := PostBusiness.Create(s, post, generated).value;
      PostBusiness.GetAll(s') == PostBusiness.GetAll(s) + {created.(comments := {})}
  {
    if PostBusiness.Create(s, post, generated).Success? {
      var (s', created) := PostBusiness.Create(s, post, generated).value;
      assert forall k | k in s.posts :: PostAt(s', k) == PostAt(s, k);
      assert PostAt(s', created.id) == created.(comments := {});
    }
  }

  /** An updated post is read back with the new fields and the comments
      it already had. */
  lemma UpdateThenGetPost(s: Store, post: Post)
    ensures PostBusiness.Update(s, post).Success? ==>
      var s' := PostBusiness.Update(s, post).value.0;
      PostBusiness.Get(s', post.id) == Success(Some(post.(comments := CommentsOf(s, post.id))))
  {
    if PostBusiness.Update(s, post).Success? {
      var s' := PostBusiness.Update(s, post).value.0;
      assert PostAt(s', post.id) == post.(comments := {});
      assert CommentsOf(s', post.id) == CommentsOf(s, post.id);
    }
  }

  /** After a post is deleted it reads as absent, its comment list reads
      as absent, the listing loses exactly that post, and no remaining
      comment references it. */
  lemma GetAfterDeletePost(s: Store, id: Id)
    ensures PostBusiness.Delete(s, id).Success? ==>
      var s' := PostBusiness.Delete(s, id).value;
      && PostBusiness.Get(s', id) == Success(None)
      && PostBusiness.GetComments(s', id) == Success(None)
      && PostBusiness.GetAll(s') == set p | p in PostBusiness.GetAll(s) && p.id != id
      && forall c | c in CommentBusiness.GetAll(s') :: c.postId != id
  {
    if PostBusiness.Delete(s, id).Success? {
      var s' := PostBusiness.Delete(s, id).value;
      assert forall k | k in s'.posts :: PostAt(s', k) == PostAt(s, k);
    }
  }

  /** A created comment is read back by its id. */
  lemma CreateThenGetComment(s: Store, c: Comment, generated: Id)
    requires generated != Empty
    ensures CommentBusiness.Create(s, c, generated).Success? ==>
      var (s', created) := CommentBusiness.Create(s, c, generated).value;
      CommentBusiness.Get(s', created.id) == Success(Some(created))
  {
  }

  /** A created comment joins its post's comment list, and nothing else
      joins it. */
  lemma CreatedCommentListed(s: Store, c: Comment, generated: Id)
    requires generated != Empty
    ensures CommentBusiness.Create(s, c, generated).Success? ==>
      var (s', created) := CommentBusiness.Create(s, c, generated).value;
      && PostBusiness.GetComments(s, c.postId).Success?
      && PostBusiness.GetComments(s, c.postId).value.Some?
      && PostBusiness.GetComments(s', c.postId) ==
           Success(Some(PostBusiness.GetComments(s, c.postId).value.value + {created}))
  {
    if CommentBusiness.Create(s, c, generated).Success? {
      var (s', created) := CommentBusiness.Create(s, c, generated).value;
      assert forall k | k in s.comments :: CommentAt(s', k) == CommentAt(s, k);
      assert CommentAt(s', created.id) == created;
      assert CommentsOf(s', c.postId) == CommentsOf(s, c.postId) + {created};
    }
  }

  /** An updated comment is read back as written. */
  lemma UpdateThenGetComment(s: Store, c: Comment)
    ensures CommentBusiness.Update(s, c).Success? ==>
      var s' := CommentBusiness.Update(s, c).value.0;
      CommentBusiness.Get(s', c.id) == Success(Some(c))
  {
  }

  /** After the corrected delete the comment reads as absent and the
      listing loses exactly that comment. */
  lemma GetAfterDeleteComment(s: Store, id: Id)
    ensures CommentBusiness.Delete(s, id).Success? ==>
      var s' := CommentBusiness.Delete(s, id).value;
      && CommentBusiness.Get(s', id) == Success(None)
      && CommentBusiness.GetAll(s') == CommentBusiness.GetAll(s) - {CommentAt(s, id)}
  {
    if CommentBusiness.Delete(s, id).Success? {
      var s' := CommentBusiness.Delete(s, id).value;
      assert forall k | k in s'.comments :: CommentAt(s', k) == CommentAt(s, k);
    }
  }
}
