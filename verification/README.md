# Blog API guard logic, modelled in Dafny

A model of the validation and decision logic of a small layered blog API
(Posts and Comments over HTTP).  What is modelled:

- **Business rules** (`PostBusiness`, `CommentBusiness`): each operation is a
  pure function of a store and an input.  It returns either an error
  (`Required`, `NotExist`, or a storage `Fault`) or the new store together with
  the returned value.  A failure carries no store, so the store a caller holds
  after a failed call is the one it had before.  Reads return only a value.
- **The store** (`Repository`): two finite maps keyed by Guid.  It keeps what
  the business layer can observe of the database:
  - key uniqueness, and key generation for an entity inserted with
    `Guid.Empty`;
  - the NOT NULL columns (Title, Content, Author) and the required foreign key
    Comment.PostId;
  - removal of a post cascading to its comments;
  - a single-post fetch including the post's comments, while a list fetch
    includes none.
- **Status codes** (`HttpStatus`): the codes the controllers and the filter
  answer with, defined once.
- **Exception translation** (`ExceptionHandler`): maps an exception chain to a
  status code, and to the non-empty messages of the chain, outermost first.
  `CollectMessages` is the do-while walk, proved equal to the functional
  definition.
- **Request-shape rules** (`Validation`): the `[Required]` and
  `[StringLength]` attributes of the two creation DTOs.
- **Controllers** (`PostController`, `CommentController`): pure decision
  functions for the action bodies as written.  Each takes the route id, the body id, the model-state errors and
  what the application service does (answer or throw).  Each returns the
  status, the body, and whether the service was called.
- **The pipeline end to end** (`Endpoints`, `Scenarios`): the framework's
  automatic model-state filter in front of each action, since both
  controllers carry `[ApiController]` and nothing suppresses the filter.
  Behind it: the action, the application service modelled as a copy of the
  scalar fields, the business rules and the store.  The filter answers an
  invalid model state with its own 400 before the action runs, so the
  actions' own model-state branches are never reached end to end.  `Invariants` proves that every successful business
  write keeps the store invariant `Repository.Valid`.  `ReadsAfterWrites`
  proves that the read rules observe each write: a created entity is read
  back, an update is read back as submitted, and a deleted one reads as
  absent.

Identifiers are Guids, held as text.  `Entities.Empty` is the
all-zero Guid.  Nullable strings are `Option<string>`.

Three behaviours of the code worth stating plainly:

- The `PUT posts/{id}` action checks no model state (PostController.cs:73-84).
  Only the framework's filter in front of it refuses a body that fails to
  bind.
- `DELETE posts/{id}` for an unknown id answers 404, not 204.  The business
  layer throws NotExist and the exception filter translates it.
- Deleting a post also removes its comments.  The relationship is a required
  foreign key, which the data-access library cascades by default.  A database
  with that key cannot keep a comment whose post is gone.

## Model

| member | source | states |
|---|---|---|
| PostBusiness.CheckForCreation | devskiller-code-W4EW-XGAR-X3QR-S0F/src/Model/Business/Post/PostBusiness.cs:86-96 | passes iff Title and Content are both non-null and non-empty; a null or empty Title is reported before Content |
| PostBusiness.Create | devskiller-code-W4EW-XGAR-X3QR-S0F/src/Model/Business/Post/PostBusiness.cs:20-25 | Title is checked before Content; success iff both are non-empty and the key is free; on success the store gains exactly that post under a non-empty key, nothing else changes, and the post is returned with its key |
| PostBusiness.Get | devskiller-code-W4EW-XGAR-X3QR-S0F/src/Model/Business/Post/PostBusiness.cs:39-47 | fails with Required exactly for the empty id; otherwise returns the stored post, with exactly the comments that reference it, or absent |
| PostBusiness.Delete | devskiller-code-W4EW-XGAR-X3QR-S0F/src/Model/Business/Post/PostBusiness.cs:27-37 | empty id gives Required, unknown id gives NotExist; otherwise removes that post and exactly the comments that reference it, leaving every other row as it was |
| PostBusiness.GetComments | devskiller-code-W4EW-XGAR-X3QR-S0F/src/Model/Business/Post/PostBusiness.cs:49-54 | propagates Required for the empty id; absent when no such post exists; otherwise exactly the stored comments that reference the post |
| PostBusiness.GetAll | devskiller-code-W4EW-XGAR-X3QR-S0F/src/Model/Business/Post/PostBusiness.cs:56-59 | returns every stored post and nothing else, none of them carrying comments |
| PostBusiness.ValidatePostId | devskiller-code-W4EW-XGAR-X3QR-S0F/src/Model/Business/Post/PostBusiness.cs:70-84 | passes iff the id is non-empty and stored; empty gives Required, unknown gives NotExist naming the id |
| PostBusiness.Update | devskiller-code-W4EW-XGAR-X3QR-S0F/src/Model/Business/Post/PostBusiness.cs:61-68 | empty id gives Required and unknown id gives NotExist; otherwise replaces that row, returns the input post, and leaves comments alone; fields are not validated, so only the NOT NULL columns can still refuse |
| CommentBusiness.ValidateComment | devskiller-code-W4EW-XGAR-X3QR-S0F/src/Model/Business/Comment/CommentBusiness.cs:74-90 | passes iff Author and Content are non-empty and PostId is non-empty; Author is reported before Content; every failure is Required |
| CommentBusiness.Create | devskiller-code-W4EW-XGAR-X3QR-S0F/src/Model/Business/Comment/CommentBusiness.cs:22-31 | the referenced post is validated (Required, then NotExist) before Author and then Content; success iff all pass and the key is free; the store gains exactly that comment, and the comment passed in is returned with its key |
| CommentBusiness.Get | devskiller-code-W4EW-XGAR-X3QR-S0F/src/Model/Business/Comment/CommentBusiness.cs:45-53 | fails with Required exactly for the empty id; otherwise returns the stored comment or absent |
| CommentBusiness.DeleteAsWritten | devskiller-code-W4EW-XGAR-X3QR-S0F/src/Model/Business/Comment/CommentBusiness.cs:33-43 | never succeeds: empty id gives Required, a stored comment gives NotExist, and an absent one reaches Delete(null) and faults |
| CommentBusiness.Delete | devskiller-code-W4EW-XGAR-X3QR-S0F/src/Model/Business/Comment/CommentBusiness.cs:33-43 | corrected rule: empty id gives Required, unknown id gives NotExist; otherwise exactly that comment is removed |
| CommentBusiness.DeleteAsWrittenCounterexample | devskiller-code-W4EW-XGAR-X3QR-S0F/src/Model/Business/Comment/CommentBusiness.cs:37-40 | on a store holding one post and one comment, the rule as written reports the stored comment missing, while the corrected rule deletes it |
| CommentBusiness.PostIdCheckUnreachable | devskiller-code-W4EW-XGAR-X3QR-S0F/src/Model/Business/Comment/CommentBusiness.cs:86-89 | the "Post Id is a required field" error can never come out of Create, because ValidatePostId has already refused the empty id |
| CommentBusiness.GetAll | devskiller-code-W4EW-XGAR-X3QR-S0F/src/Model/Business/Comment/CommentBusiness.cs:55-58 | returns every stored comment and nothing else |
| CommentBusiness.GetByPostId | devskiller-code-W4EW-XGAR-X3QR-S0F/src/Model/Business/Comment/CommentBusiness.cs:60-63 | same errors and results as PostBusiness.GetComments: Required for the empty id, absent for an unknown post, else the post's comments |
| CommentBusiness.ValidateCommentId | devskiller-code-W4EW-XGAR-X3QR-S0F/src/Model/Business/Comment/CommentBusiness.cs:92-105 | passes iff the id is non-empty and stored; empty gives Required, unknown gives NotExist naming the id |
| CommentBusiness.Update | devskiller-code-W4EW-XGAR-X3QR-S0F/src/Model/Business/Comment/CommentBusiness.cs:65-72 | only the comment's own id is validated; success iff it is stored and the row is admissible (non-null columns, existing post); then exactly that row is replaced and the input is returned |
| ExceptionHandler.StatusCode | devskiller-code-W4EW-XGAR-X3QR-S0F/src/Api/Handler/ExceptionHandler.cs:23-39 | NotExist maps to 404, Required maps to 400, and every other kind maps to 500 |
| ExceptionHandler.Chain | devskiller-code-W4EW-XGAR-X3QR-S0F/src/Api/Handler/ExceptionHandler.cs:44-55 | the chain starts at the top-level exception, each link is the previous one's inner exception, and it ends at the first exception without one |
| ExceptionHandler.CollectMessages | devskiller-code-W4EW-XGAR-X3QR-S0F/src/Api/Handler/ExceptionHandler.cs:41-59 | the do-while walk terminates and yields exactly the filtered chain messages: each is non-empty, and there are no more of them than links |
| ExceptionHandler.KeepMessagesAppend | devskiller-code-W4EW-XGAR-X3QR-S0F/src/Api/Handler/ExceptionHandler.cs:46-55 | messages keep chain order: the messages of an outer stretch all precede those of the stretch inside it |
| ExceptionHandler.KeepMessagesMembership | devskiller-code-W4EW-XGAR-X3QR-S0F/src/Api/Handler/ExceptionHandler.cs:48-51 | a string is collected iff some exception in the sequence carries it as a non-empty message |
| ExceptionHandler.MessagesOutermostFirst | devskiller-code-W4EW-XGAR-X3QR-S0F/src/Api/Handler/ExceptionHandler.cs:46-53 | the top-level exception is always examined: its non-empty message comes first, followed by the inner chain's messages |
| ExceptionHandler.MessagesCharacterisation | devskiller-code-W4EW-XGAR-X3QR-S0F/src/Api/Handler/ExceptionHandler.cs:14-16 | the response content lists exactly the non-empty messages found on the chain, with at most one entry per link |
| Validation.StringRulesAccept | devskiller-code-W4EW-XGAR-X3QR-S0F/src/AppServices/Models/Creation/PostCreateDTO.cs:8-16 | Required together with StringLength(max) accept exactly a non-null string of length 1 to max, and at most one of the two reports |
| Validation.PostCreateErrors | devskiller-code-W4EW-XGAR-X3QR-S0F/src/AppServices/Models/Creation/PostCreateDTO.cs:8-19 | no errors iff Title has 1 to 30 characters and Content has 1 to 1200; each error names the field and the rule that failed |
| Validation.CommentCreateErrors | devskiller-code-W4EW-XGAR-X3QR-S0F/src/AppServices/Models/Creation/CommentCreateDTO.cs:8-18 | no errors iff Content has 1 to 1000 characters and Author has 1 to 30; PostId never produces an error |
| Validation.UnconstrainedFields | devskiller-code-W4EW-XGAR-X3QR-S0F/src/AppServices/Models/Creation/CommentCreateDTO.cs:8-18 | CreationDate, and a comment's PostId including the empty Guid, do not affect the shape check |
| PostController.GetAll | devskiller-code-W4EW-XGAR-X3QR-S0F/src/Api/Controllers/PostController.cs:28-39 | the service is always called; absent content gives 204, present content gives 200 carrying it |
| PostController.Get | devskiller-code-W4EW-XGAR-X3QR-S0F/src/Api/Controllers/PostController.cs:41-57 | the service is called iff the id is non-empty; empty gives 400; absent content gives 404; 200 iff content is present |
| PostController.Post | devskiller-code-W4EW-XGAR-X3QR-S0F/src/Api/Controllers/PostController.cs:59-71 | action level: model-state errors give 400 with those errors and no service call; otherwise 201 with the result exactly when the service answers with content; an answer without content dereferences null while building the Location header and the filter turns that into 500; a thrown exception goes to the filter |
| PostController.Put | devskiller-code-W4EW-XGAR-X3QR-S0F/src/Api/Controllers/PostController.cs:73-84 | route id different from body id gives 400 and no service call; otherwise the service is called and an answer gives 200; the action itself checks no model state |
| PostController.Delete | devskiller-code-W4EW-XGAR-X3QR-S0F/src/Api/Controllers/PostController.cs:86-97 | empty id gives 400 and no service call; otherwise one call, and any answer gives 204 with no body |
| PostController.GetComments | devskiller-code-W4EW-XGAR-X3QR-S0F/src/Api/Controllers/PostController.cs:99-115 | empty id gives 400 and no call; absent content gives 204; present content gives 200 |
| CommentController.Get | devskiller-code-W4EW-XGAR-X3QR-S0F/src/Api/Controllers/CommentController.cs:26-42 | empty id gives 400 and no call; absent content gives 404; present content gives 200 |
| CommentController.Post | devskiller-code-W4EW-XGAR-X3QR-S0F/src/Api/Controllers/CommentController.cs:44-56 | action level: model-state errors give 400 and no call; otherwise the service is called and an answer gives 201 |
| CommentController.Put | devskiller-code-W4EW-XGAR-X3QR-S0F/src/Api/Controllers/CommentController.cs:58-75 | action level: the id mismatch is checked before the model state and either gives 400; the service is called iff both pass, and an answer gives 200 |
| CommentController.Delete | devskiller-code-W4EW-XGAR-X3QR-S0F/src/Api/Controllers/CommentController.cs:77-88 | empty id gives 400 and no call; otherwise exactly one call, and an answer gives 204 |
| Scenarios.GetPostStatus | devskiller-code-W4EW-XGAR-X3QR-S0F/src/Api/Controllers/PostController.cs:41-57 | end to end: 400 iff the id is empty, 404 iff it is unknown, 200 with the stored post iff it is stored |
| Scenarios.GetAllPostsStatus | devskiller-code-W4EW-XGAR-X3QR-S0F/src/Model/Business/Post/PostBusiness.cs:56-59 | end to end, listing posts always answers 200, with every stored post and nothing else |
| Scenarios.CreateThenGetPost | devskiller-code-W4EW-XGAR-X3QR-S0F/src/Api/Controllers/PostController.cs:59-71 | a shape-valid POST answers 201 with a generated non-empty id, and a later GET returns the same Title, Content and CreationDate; a shape-invalid POST is answered by the framework's filter with 400 and its field errors, and changes nothing |
| Scenarios.UpdatePostIdMismatch | devskiller-code-W4EW-XGAR-X3QR-S0F/src/Api/Controllers/PostController.cs:76-79 | a PUT whose route id differs from the body id answers 400, the service is never invoked, and the store is unchanged; the body is the mismatch message when the model state is valid and the filter's field errors otherwise |
| Scenarios.UpdatePostNullTitle | devskiller-code-W4EW-XGAR-X3QR-S0F/src/Model/Business/Post/PostBusiness.cs:61-68 | a PUT of an existing post with a null Title that passes the framework's filter meets no check above the store, is refused by the NOT NULL column, and answers 500; if the filter refuses it, 400; the store is unchanged either way |
| Scenarios.DeletePostStatus | devskiller-code-W4EW-XGAR-X3QR-S0F/src/Api/Controllers/PostController.cs:86-97 | DELETE answers 400 iff the id is empty, 404 iff it is unknown, and 204 iff a post was removed; the store changes only on 204 |
| Scenarios.GetPostCommentsStatus | devskiller-code-W4EW-XGAR-X3QR-S0F/src/AppServices/Services/Post/PostAppService.cs:62-68 | end to end: 400 iff the id is empty, otherwise 200; an unknown post gives an empty list because the mapper turns null into an empty collection, a stored post gives its comments; 204 never happens |
| Scenarios.GetCommentStatus | devskiller-code-W4EW-XGAR-X3QR-S0F/src/Api/Controllers/CommentController.cs:26-42 | end to end: 400 iff the id is empty, 404 iff it is unknown, 200 with the stored comment iff it is stored |
| Scenarios.CreateCommentForMissingPost | devskiller-code-W4EW-XGAR-X3QR-S0F/src/Model/Business/Comment/CommentBusiness.cs:22-26 | a shape-valid comment for a missing post answers 404 with the NotExist message, and an empty PostId answers 400; the store is unchanged in both cases |
| Scenarios.CreateCommentForExistingPost | devskiller-code-W4EW-XGAR-X3QR-S0F/src/Api/Controllers/CommentController.cs:44-56 | a shape-valid comment for a stored post answers 201 and is stored under the generated id |
| Scenarios.UpdateCommentGuards | devskiller-code-W4EW-XGAR-X3QR-S0F/src/Api/Controllers/CommentController.cs:58-75 | an id mismatch or a model-state error answers 400 without a service call and leaves the store unchanged; a model-state error is answered first, by the framework's filter, so the mismatch message is seen only when the model state is valid |
| Scenarios.CreateCommentShapeInvalid | devskiller-code-W4EW-XGAR-X3QR-S0F/src/Api/Controllers/CommentController.cs:13-15 | a POST comments body with shape errors is answered by the framework's filter with 400 and those errors before the action runs, and nothing changes |
| Scenarios.ActionModelStateBranchPreempted | devskiller-code-W4EW-XGAR-X3QR-S0F/src/Api/Controllers/CommentController.cs:47-51 | the actions' own model-state branches (also PostController.cs:62-66 and CommentController.cs:66-70) never produce the reply end to end, because the `[ApiController]` filter refuses an invalid model state first |
| Scenarios.DeleteExistingComment | devskiller-code-W4EW-XGAR-X3QR-S0F/src/Api/Controllers/CommentController.cs:77-88 | deleting a stored comment answers 204 and removes it under the corrected rule; under the rule as written it answers 404 and keeps the comment |
| Scenarios.ErrorStatus | devskiller-code-W4EW-XGAR-X3QR-S0F/src/Api/Handler/ExceptionHandler.cs:23-55 | Required surfaces as 400 and NotExist as 404, each with its own message as the only body entry; a storage fault surfaces as 500 |
| Invariants.PostCreateKeepsValid | devskiller-code-W4EW-XGAR-X3QR-S0F/src/Repository/BaseRepository.cs:23-28 | a successful post creation keeps the store invariant |
| Invariants.PostUpdateKeepsValid | devskiller-code-W4EW-XGAR-X3QR-S0F/src/Repository/BaseRepository.cs:46-52 | a successful post update keeps the store invariant |
| Invariants.PostDeleteKeepsValid | devskiller-code-W4EW-XGAR-X3QR-S0F/src/Repository/BaseRepository.cs:30-34 | a successful post delete keeps the store invariant, because the post's comments go with it |
| Invariants.CommentCreateKeepsValid | devskiller-code-W4EW-XGAR-X3QR-S0F/src/Model/Business/Comment/CommentBusiness.cs:22-31 | a successful comment creation keeps the store invariant, including the comment's reference to a stored post |
| Invariants.CommentUpdateKeepsValid | devskiller-code-W4EW-XGAR-X3QR-S0F/src/Model/Business/Comment/CommentBusiness.cs:65-72 | a successful comment update keeps the store invariant |
| Invariants.CommentDeleteKeepsValid | devskiller-code-W4EW-XGAR-X3QR-S0F/src/Model/Business/Comment/CommentBusiness.cs:33-43 | a successful (corrected) comment delete keeps the store invariant |
| ReadsAfterWrites.GetByPostIdDelegates | devskiller-code-W4EW-XGAR-X3QR-S0F/src/Model/Business/Comment/CommentBusiness.cs:60-63 | listing a post's comments through the comment rules gives exactly the post rules' answer, failures included |
| ReadsAfterWrites.CreateThenGetPost | devskiller-code-W4EW-XGAR-X3QR-S0F/src/Model/Business/Post/PostBusiness.cs:20-25 | in a store satisfying the invariant, a created post is read back by its new id with no comments |
| ReadsAfterWrites.GetAllAfterCreate | devskiller-code-W4EW-XGAR-X3QR-S0F/src/Model/Business/Post/PostBusiness.cs:56-59 | creating a post adds exactly the created post to the listing and changes no other entry |
| ReadsAfterWrites.UpdateThenGetPost | devskiller-code-W4EW-XGAR-X3QR-S0F/src/Model/Business/Post/PostBusiness.cs:61-68 | an updated post is read back with the submitted fields and the comments it already had |
| ReadsAfterWrites.GetAfterDeletePost | devskiller-code-W4EW-XGAR-X3QR-S0F/src/Model/Business/Post/PostBusiness.cs:27-37 | after a delete the post and its comment list read as absent, the listing loses exactly that post, and no remaining comment references it |
| ReadsAfterWrites.CreateThenGetComment | devskiller-code-W4EW-XGAR-X3QR-S0F/src/Model/Business/Comment/CommentBusiness.cs:22-31 | a created comment is read back by its id, equal to what create returned |
| ReadsAfterWrites.CreatedCommentListed | devskiller-code-W4EW-XGAR-X3QR-S0F/src/Model/Business/Post/PostBusiness.cs:49-54 | a created comment joins its post's comment list, which otherwise stays as it was |
| ReadsAfterWrites.UpdateThenGetComment | devskiller-code-W4EW-XGAR-X3QR-S0F/src/Model/Business/Comment/CommentBusiness.cs:65-72 | an updated comment is read back exactly as submitted |
| ReadsAfterWrites.GetAfterDeleteComment | devskiller-code-W4EW-XGAR-X3QR-S0F/src/Model/Business/Comment/CommentBusiness.cs:33-43 | after the corrected delete the comment reads as absent and the listing loses exactly that comment |

## Findings

| source | as written | input that shows it | evidently intended | confidence | as-written member | corrected member |
|---|---|---|---|---|---|---|
| devskiller-code-W4EW-XGAR-X3QR-S0F/src/Model/Business/Comment/CommentBusiness.cs:37 | `DeleteAsync` throws NotExist when the comment IS found, and otherwise calls `Delete(null)` | a store holding comment `c`: deleting `c` is refused with NotExist (HTTP 404) and `c` stays; an unknown non-empty id reaches `Delete(null)` and faults (HTTP 500) | throw NotExist when the comment is absent, as `PostBusiness.DeleteAsync` does, and remove it otherwise | high, not executed | CommentBusiness.DeleteAsWritten | CommentBusiness.Delete |

`CommentBusiness.DeleteAsWrittenCounterexample` exhibits the input.  The
end-to-end endpoints use the corrected rule.  `Scenarios.DeleteExistingComment`
compares the two rules over the full pipeline.

## Left out

- Asynchrony: every `Task` call is modelled as a synchronous call.
- The data-access library, the database context and the entity
  configurations are replaced by the map store.  Only key uniqueness, key
  generation, the NOT NULL and foreign-key columns, cascade removal and the
  include/no-include asymmetry are kept.  No database error text is modelled.
  A storage fault surfaces as a library exception, which the endpoints take as
  the parameter `raised`.
- Guid generation is a parameter (`generated`).  The model assumes only that
  it is not the all-zero Guid.  `DateTime` is opaque.
- Comments attached to a Post entity passed to create or update are not
  written.  Only the post's own row is written.  Posts built from the API's
  DTOs never carry any.
- The application services and the mapper are modelled as copies of the
  scalar fields (ids, dates, strings).  A null single object maps to null.  A null collection maps to an
  empty one, the mapper's default (AutoMapperConfig.cs:12-16 leaves it
  unchanged).  So `GET posts/{id}/comments` for an unknown post answers 200
  with an empty list (PostAppService.cs:62-68).
- Endpoints.CommentDto: drops the `Post` navigation property of the comment
  DTO (CommentDTO.cs:12), which the mapper carries both ways.  Two
  consequences are not modelled.  First, a `PUT comments/{id}` body holding a
  nested post hands the whole graph to `Attach` (BaseRepository.cs:46-52); a
  nested post with an all-zero id would be inserted as a new post and the
  comment re-pointed at it.  Second, the include in PostRepository.cs:16-19
  links each returned comment back to its post, so the DTOs of
  `GET posts/{id}/comments` for a post that has comments form a
  comment-post-comment cycle that the default JSON serializer refuses.  The
  200 that `Scenarios.GetPostCommentsStatus` states for such a post is the
  controller's decision before serialization.
- `[Required]` also rejects whitespace-only strings.  String length is
  counted in UTF-16 units.  The model uses non-emptiness and sequence length
  instead.  Model-state errors are symbolic (`Missing`, `TooLong`); their
  message templates are not rendered.
- Routing, serialization, the text of the `Created` location header,
  logging, dependency injection and Swagger.
- The automatic model-state filter's ValidationProblemDetails is reduced to
  its list of field errors (`Http.Problem`).  The PUT bodies declare no
  validation attributes, so their model-state errors are a parameter of
  `Endpoints.UpdatePost` and `Endpoints.UpdateComment`.  That covers binding
  failures and any implicit required-ness of non-nullable properties, which
  depends on project settings that are not part of this model.
- The non-atomic gap between the post-existence read and the comment insert
  in `CommentBusiness.CreateAsync`.  Covering it would need storage
  concurrency.
- The unit-test projects are not modelled.
