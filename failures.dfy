/** The HTTP errors the route handlers throw (Boom errors), as values. */
module Failures {

  datatype Failure =
    | BadRequest(message: string)    // 400
    | Unauthorized(message: string)  // 401
    | NotFound                       // 404
    | Conflict                       // 409
    | StoreError                     // an exception thrown by the database client

  /** Message of the 400 raised when a password scores too low. */
  const TOO_EASY: string := "TOO_EASY"

  /** Message of the 401 raised when the credentials match an unapproved account. */
  const NOT_APPROVED: string := "You're not approved"

  /** What a handler produces: its response value, or the error it throws. */
  datatype Reply<+T> = Ok(value: T) | Fail(failure: Failure)
}
