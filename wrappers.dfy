/** Optional values and results with an error, as used throughout the model. */
module Wrappers {

  /** A value that may be missing: an absent JSON member, a NULL column, `undefined`. */
  datatype Option<+T> = None | Some(value: T) {
    function GetOr(default: T): T {
      match this
      case Some(v) => v
      case None => default
    }
  }

  /** Either a value or the error that stopped its computation. */
  datatype Result<+R, +E> = Success(value: R) | Failure(error: E)
}
