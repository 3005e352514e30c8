/** Optional values and results with an error alternative, used for Go's
    nil pointers and its (value, error) returns. */
module Wrappers {

  datatype Option<T> = None | Some(value: T) {
    /** The value, or the given default when there is none. */
    function GetOr(default: T): T {
      match this
      case Some(v) => v
      case None => default
    }
  }

  datatype Result<T, E> = Ok(value: T) | Err(error: E)
}
