/** Option and Result, used for Python's `None` and for operations that can raise. */
module Wrappers {

  datatype Option<+T> = None | Some(value: T) {
    /** `d.get(k, default)` once the lookup is done. */
    function GetOr(default: T): T {
      match this
      case Some(v) => v
      case None => default
    }
  }

  datatype Result<+T, +E> = Success(value: T) | Failure(error: E)
}
