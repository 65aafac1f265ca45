/** CommentController: the guard clauses and status decisions of the
    `comments` routes, in the same terms as PostController. */
module CommentController {
  import opened Wrappers
  import opened Entities
  import opened Http
  import opened HttpStatus
  import Validation

  /** GET comments/{id} */
  function Get<T>(id: Id, service: Service<T>): (r: Reply<T>)
    ensures r.serviceCalled <==> id != Empty
    ensures id == Empty ==> r == Reply(BadRequest, Plain(IdAllZeros), false)
    ensures id != Empty && service == Answered(None) ==> r == Reply(NotFound, NoBody, true)
    ensures r.status == Ok <==> id != Empty && service.Answered? && service.content.Some?
    ensures r.status == Ok ==> r.body == Envelope(service.content)
    ensures id != Empty && service.Raised? ==> r == Thrown(service.error)
  {
    if id == Empty then Reply(BadRequest, Plain(IdAllZeros), false)
    else
      match service
      case Raised(e) => Thrown(e)
      case Answered(content) =>
        if content.None? then Reply(NotFound, NoBody, true) else Reply(Ok, Envelope(content), true)
  }

  /** POST comments */
  function Post<T>(modelErrors: seq<Validation.FieldError>, service: Service<T>): (r: Reply<T>)
    ensures r.serviceCalled <==> modelErrors == []
    ensures modelErrors != [] ==> r == Reply(BadRequest, Invalid(modelErrors), false)
    ensures r.status == Created <==> modelErrors == [] && service.Answered?
    ensures r.status == Created ==> r.body == Envelope(service.content)
    ensures modelErrors == [] && service.Raised? ==> r == Thrown(service.error)
  {
    if modelErrors != [] then Reply(BadRequest, Invalid(modelErrors), false)
    else
      match service
      case Raised(e) => Thrown(e)
      case Answered(content) => Reply(Created, Envelope(content), true)
  }

  /** PUT comments/{id}: the id match is checked before the model state,
      so a request failing both is answered with the mismatch text. */
  function Put<T>(routeId: Id, bodyId: Id, modelErrors: seq<Validation.FieldError>, service: Service<T>): (r: Reply<T>)
    ensures r.serviceCalled <==> routeId == bodyId && modelErrors == []
    ensures routeId != bodyId ==> r == Reply(BadRequest, Plain(IdMismatch), false)
    ensures routeId == bodyId && modelErrors != [] ==> r == Reply(BadRequest, Invalid(modelErrors), false)
    ensures r.status == Ok <==> routeId == bodyId && modelErrors == [] && service.Answered?
    ensures r.status == Ok ==> r.body == Envelope(service.content)
    ensures routeId == bodyId && modelErrors == [] && service.Raised? ==> r == Thrown(service.error)
  {
    if routeId != bodyId then Reply(BadRequest, Plain(IdMismatch), false)
    else if modelErrors != [] then Reply(BadRequest, Invalid(modelErrors), false)
    else
      match service
      case Raised(e) => Thrown(e)
      case Answered(content) => Reply(Ok, Envelope(content), true)
  }

  /** DELETE comments/{id} */
  function Delete<T>(id: Id, service: Service<T>): (r: Reply<T>)
    ensures r.serviceCalled <==> id != Empty
    ensures id == Empty ==> r == Reply(BadRequest, Plain(IdAllZeros), false)
    ensures r.status == NoContent <==> id != Empty && service.Answered?
    ensures r.status == NoContent ==> r.body == NoBody
    ensures id != Empty && service.Raised? ==> r == Thrown(service.error)
  {
    if id == Empty then Reply(BadRequest, Plain(IdAllZeros), false)
    else
      match service
      case Raised(e) => Thrown(e)
      case Answered(_) => Reply(NoContent, NoBody, true)
  }
}
