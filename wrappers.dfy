/** Option and the outcome of a request handler. */
module Wrappers {

  datatype Option<+T> = None | Some(value: T) {
    /** The wrapped value, or `default` when there is none (Python's `x or default`
        for a nullable column, `dict.get(key, default)` for a missing key). */
    function GetOr(default: T): T {
      match this
      case Some(v) => v
      case None => default
    }
  }

  /** What a request handler answers: its payload, HTTP 404 or HTTP 403. */
  datatype Response<+T> = Ok(value: T) | NotFound | Forbidden
}
