/** Values shared by every handler: optional request fields and response statuses. */
module Common {

  datatype Option<T> = None | Some(value: T)

  /** The statuses the route handlers answer with: 200, 400, 404, 409 and 500, in that order. */
  datatype Status = Ok | BadRequest | NotFound | Conflict | ServerError

  /** A response body of type T, or the error status that replaced it. */
  datatype Result<T> = Success(value: T) | Failure(status: Status)

  /** JavaScript truthiness of an optional numeric body field: absent and 0 are falsy. */
  predicate Truthy(n: Option<int>)
  {
    n.Some? && n.value != 0
  }
}
