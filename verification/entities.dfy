/** The persisted entities of the blog (Model.Entities) and the two domain
    error kinds the business layer throws (CrossCutting.CustonException),
    together with the storage failures the database reports. */
module Entities {
  import opened Wrappers

  /** A Guid, held as text; any string is admitted as an id. */
  datatype Id = Id(text: string)

  /** `Guid.Empty`, the all-zero identifier. */
  const Empty: Id := Id("00000000-0000-0000-0000-000000000000")

  /** `DateTime` is opaque: no rule of the core reads its value. */
  datatype Timestamp = Timestamp(ticks: int)

  /** A nullable .NET string. */
  type Text = Option<string>

  /** `string.IsNullOrEmpty`. */
  predicate IsNullOrEmpty(t: Text) {
    t.None? || t.value == []
  }

  /** Comment: BaseEntity's Id and CreationDate plus its own fields.  The
      back-reference to the parent Post is a navigation property and is
      represented only by `postId`. */
  datatype Comment = Comment(id: Id, creationDate: Timestamp, postId: Id, content: Text, author: Text)

  /** Post: BaseEntity's Id and CreationDate plus its own fields.  The
      constructor starts `comments` as an empty set, which is what a
      freshly built or list-fetched Post carries. */
  datatype Post = Post(id: Id, creationDate: Timestamp, title: Text, content: Text, comments: set<Comment>)

  /** Why the database refused a write. */
  datatype StoreFault =
    | Rejected     // a key, NOT NULL or foreign-key constraint, or an UPDATE/DELETE that hit no row
    | NullEntity   // `DbSet.Remove(null)`: ArgumentNullException

  /** What a business operation can throw. */
  datatype Error =
    | Required(message: string)   // RequiredException
    | NotExist(message: string)   // NotExistException
    | Fault(fault: StoreFault)    // anything raised below the business layer
}
