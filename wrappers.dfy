/** Option and the HTTP-style outcome every route handler returns. */
module Wrappers {

  datatype Option<+T> = None | Some(value: T) {
    function GetOr(default: T): T {
      match this
      case Some(v) => v
      case None => default
    }
  }

  /** A route's response: a success status with its payload, or an error status with its message. */
  datatype Response<+T> = Success(status: int, data: T) | Failure(status: int, error: string)

  const OK := 200
  const CREATED := 201
  const BAD_REQUEST := 400
  const NOT_FOUND := 404
  const CONFLICT := 409
}
