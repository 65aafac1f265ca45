/** Every successful business write keeps the store's invariant: keys are
    never the all-zero id and name their own row, rows carry no comment
    collection, NOT NULL columns are filled, and every comment references a
    stored post. */
module Invariants {
  import opened Entities
  import opened Repository
  import PostBusiness
  import CommentBusiness

  lemma PostCreateKeepsValid(s: Store, post: Post, generated: Id)
    requires Valid(s) && generated != Empty
    ensures PostBusiness.Create(s, post, generated).Success? ==> Valid(PostBusiness.Create(s, post, generated).value.0)
  {
  }

  lemma PostUpdateKeepsValid(s: Store, post: Post)
    requires Valid(s)
    ensures PostBusiness.Update(s, post).Success? ==> Valid(PostBusiness.Update(s, post).value.0)
  {
  }

  /** Removing a post also removes the comments that reference it, so no
      comment is left dangling. */
  lemma PostDeleteKeepsValid(s: Store, id: Id)
    requires Valid(s)
    ensures PostBusiness.Delete(s, id).Success? ==> Valid(PostBusiness.Delete(s, id).value)
  {
  }

  lemma CommentCreateKeepsValid(s: Store, c: Comment, generated: Id)
    requires Valid(s) && generated != Empty
    ensures CommentBusiness.Create(s, c, generated).Success? ==> Valid(CommentBusiness.Create(s, c, generated).value.0)
  {
  }

  lemma CommentUpdateKeepsValid(s: Store, c: Comment)
    requires Valid(s)
    ensures CommentBusiness.Update(s, c).Success? ==> Valid(CommentBusiness.Update(s, c).value.0)
  {
  }

  lemma CommentDeleteKeepsValid(s: Store, id: Id)
    requires Valid(s)
    ensures CommentBusiness.Delete(s, id).Success? ==> Valid(CommentBusiness.Delete(s, id).value)
  {
  }
}
