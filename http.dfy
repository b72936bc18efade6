/** What a route handler sends back, without the HTTP plumbing. */
module Http {

  /** The four responses the handlers produce: 200 with a body, 201 with the
      created record, and the two client errors with their `message`. */
  datatype Outcome<T> =
    | Ok(body: T)
    | Created(body: T)
    | BadRequest(message: string)
    | NotFound(message: string)

  /** The HTTP status code each response is sent with. */
  function Status<T>(o: Outcome<T>): int {
    match o
    case Ok(_) => 200
    case Created(_) => 201
    case BadRequest(_) => 400
    case NotFound(_) => 404
  }
}
