/** Failure-carrying datatypes shared by the resolver and interceptor models. */
module Wrappers {

  /** A value that may be absent: Go's nil pointer, nil error or missing map entry. */
  datatype Option<+T> = None | Some(value: T) {

    /** The wrapped value, or `default` when there is none. */
    function GetOr(default: T): T {
      match this
      case Some(v) => v
      case None => default
    }
  }

  /** Either a value or an error, as Go's `(value, err)` return pairs. */
  datatype Result<+R, +E> = Success(value: R) | Failure(error: E)
}
