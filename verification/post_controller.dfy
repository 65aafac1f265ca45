/** PostController: the guard clauses and status decisions of the
    `posts` routes.  Each action receives what the application service
    would do if called; an exception it throws is answered by the
    exception filter. */
module PostController {
  import opened Wrappers
  import opened Entities
  import opened Http
  import opened HttpStatus
  import Validation

  /** GET posts */
  function GetAll<T>(service: Service<T>): (r: Reply<T>)
    ensures r.serviceCalled
    ensures r.status == NoContent <==> service == Answered(None)
    ensures r.status == Ok <==> service.Answered? && service.content.Some?
    ensures r.status == Ok ==> r.body == Envelope(service.content)
    ensures service.Raised? ==> r == Thrown(service.error)
  {
    match service
    case Raised(e) => Thrown(e)
    case Answered(content) =>
      if content.None? then Reply(NoContent, NoBody, true) else Reply(Ok, Envelope(content), true)
  }

  /** GET posts/{id} */
  function Get<T>(id: Id, service: Service<T>): (r: Reply<T>)
    ensures r.serviceCalled <==> id != Empty
    ensures id == Empty ==> r == Reply(BadRequest, Plain(IdAllZeros), false)
    ensures id != Empty && service == Answered(None) ==> r == Reply(NotFound, NoBody, true)
    ensures r.status == Ok <==> id != Empty && service.Answered? && service.content.Some?
    ensures r.status == Ok ==> r.body == Envelope(service.content)
    ensures id != Empty && service.Raised? ==> r == Thrown(service.error)
  {
    if id == Empty then Reply(BadRequest, Plain(IdAllZeros), false)
    else
      match service
      case Raised(e) => Thrown(e)
      case Answered(content) =>
        if content.None? then Reply(NotFound, NoBody, true) else Reply(Ok, Envelope(content), true)
  }

  /** POST posts. The Location header is built from the created content's
      id, so an answer without content fails with a null dereference
      after the service has run. */
  function Post<T>(modelErrors: seq<Validation.FieldError>, service: Service<T>): (r: Reply<T>)
    ensures r.serviceCalled <==> modelErrors == []
    ensures modelErrors != [] ==> r == Reply(BadRequest, Invalid(modelErrors), false)
    ensures r.status == Created <==> modelErrors == [] && service.Answered? && service.content.Some?
    ensures r.status == Created ==> r.body == Envelope(service.content)
    ensures modelErrors == [] && service.Raised? ==> r == Thrown(service.error)
    ensures modelErrors == [] && service == Answered(None) ==>
              r.status == InternalServerError && r == Thrown(NullReference)
  {
    if modelErrors != [] then Reply(BadRequest, Invalid(modelErrors), false)
    else
      match service
      case Raised(e) => Thrown(e)
      case Answered(content) =>
        if content.None? then Thrown(NullReference) else Reply(Created, Envelope(content), true)
  }

  /** PUT posts/{id}: the only guard is the route/body id match; this
      action does not consult the model state. */
  function Put<T>(routeId: Id, bodyId: Id, service: Service<T>): (r: Reply<T>)
    ensures r.serviceCalled <==> routeId == bodyId
    ensures routeId != bodyId ==> r == Reply(BadRequest, Plain(IdMismatch), false)
    ensures r.status == Ok <==> routeId == bodyId && service.Answered?
    ensures r.status == Ok ==> r.body == Envelope(service.content)
    ensures routeId == bodyId && service.Raised? ==> r == Thrown(service.error)
  {
    if routeId != bodyId then Reply(BadRequest, Plain(IdMismatch), false)
    else
      match service
      case Raised(e) => Thrown(e)
      case Answered(content) => Reply(Ok, Envelope(content), true)
  }

  /** DELETE posts/{id}: whatever the service answers is discarded. */
  function Delete<T>(id: Id, service: Service<T>): (r: Reply<T>)
    ensures r.serviceCalled <==> id != Empty
    ensures id == Empty ==> r == Reply(BadRequest, Plain(IdAllZeros), false)
    ensures r.status == NoContent <==> id != Empty && service.Answered?
    ensures r.status == NoContent ==> r.body == NoBody
    ensures id != Empty && service.Raised? ==> r == Thrown(service.error)
  {
    if id == Empty then Reply(BadRequest, Plain(IdAllZeros), false)
    else
      match service
      case Raised(e) => Thrown(e)
      case Answered(_) => Reply(NoContent, NoBody, true)
  }

  /** GET posts/{id}/comments */
  function GetComments<T>(id: Id, service: Service<T>): (r: Reply<T>)
    ensures r.serviceCalled <==> id != Empty
    ensures id == Empty ==> r == Reply(BadRequest, Plain(IdAllZeros), false)
    ensures r.status == NoContent <==> id != Empty && service == Answered(None)
    ensures r.status == Ok <==> id != Empty && service.Answered? && service.content.Some?
    ensures r.status == Ok ==> r.body == Envelope(service.content)
    ensures id != Empty && service.Raised? ==> r == Thrown(service.error)
  {
    if id == Empty then Reply(BadRequest, Plain(IdAllZeros), false)
    else
      match service
      case Raised(e) => Thrown(e)
      case Answered(content) =>
        if content.None? then Reply(NoContent, NoBody, true) else Reply(Ok, Envelope(content), true)
  }
}
