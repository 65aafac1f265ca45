/** What a controller action produces: a status code, a body, and whether
    the application service was invoked on the way. */
module Http {
  import opened Wrappers
  import opened HttpStatus
  import ExceptionHandler
  import Validation

  const IdAllZeros := "Id should not be all zeros."
  const IdMismatch := "The ID on Quey and PostDTO does not match."

  /** The NullReferenceException an action raises when it dereferences a
      null result; the filter files it under "any other exception". */
  const NullReference := ExceptionHandler.Exception(
    ExceptionHandler.OtherException, Some("Object reference not set to an instance of an object."), None)

  datatype Body<T> =
    | NoBody
    | Plain(text: string)                               // BadRequest("...")
    | Invalid(errors: seq<Validation.FieldError>)       // BadRequestObjectResult of the model-state errors
    | Envelope(content: Option<T>)                      // ResultDTO<T>, `{content: ...}`
    | ErrorList(messages: seq<string>)                  // the exception filter's Response<List<string>>
    | Problem(errors: seq<Validation.FieldError>)       // the framework's ValidationProblemDetails

  datatype Reply<T> = Reply(status: int, body: Body<T>, serviceCalled: bool)

  /** What the application service does when an action calls it: answer
      with a result envelope, or throw. */
  datatype Service<T> = Answered(content: Option<T>) | Raised(error: ExceptionHandler.Exception)

  /** The automatic model-state filter that `[ApiController]` installs: an
      invalid model state is answered with 400 before the action runs. */
  function ModelStateFilter<T>(modelErrors: seq<Validation.FieldError>, action: Reply<T>): Reply<T> {
    if modelErrors != [] then Reply(BadRequest, Problem(modelErrors), false) else action
  }

  /** The reply the exception filter substitutes when the service throws. */
  function Thrown<T>(e: ExceptionHandler.Exception): Reply<T> {
    Reply(ExceptionHandler.StatusCode(e), ErrorList(ExceptionHandler.Messages(e)), true)
  }
}
