/** Optional values and error results shared by every module of the model. */
module Wrappers {

  /** A value that may be absent: an optional field of a record, a `Map.get` miss. */
  datatype Option<+T> = None | Some(value: T) {
    function GetOr(default: T): T {
      match this
      case Some(v) => v
      case None => default
    }
  }

  /** The outcome of an operation that either returns a value or throws an error. */
  datatype Result<+R, +E> = Success(value: R) | Failure(error: E)
}
