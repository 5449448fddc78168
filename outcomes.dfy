/** Results of the request/response routes and of the codec. */
module Outcomes {

  datatype Option<+T> = None | Some(value: T)

  /** The HTTP statuses a route answers with when it does not succeed:
      400, 403, 404, 409 and 500, in the order written. */
  datatype Status = BadRequest | Forbidden | NotFound | Conflict | ServerError

  /** A route's answer: a value on success, a status on failure. */
  datatype Result<+T> = Ok(value: T) | Err(status: Status)
}
