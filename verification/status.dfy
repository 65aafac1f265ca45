/** The System.Net.HttpStatusCode values the controllers and the
    exception filter answer with. */
module HttpStatus {
  const Ok := 200
  const Created := 201
  const NoContent := 204
  const BadRequest := 400
  const NotFound := 404
  const InternalServerError := 500
}
