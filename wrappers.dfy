/** Optional values and results shared by every module of the model. */
module Wrappers {

  /** Python's `None` versus a present value. */
  datatype Option<+T> = None | Some(value: T) {
    function GetOr(default: T): T {
      match this
      case Some(v) => v
      case None => default
    }
  }

  /** A call that either returns a value or raises (the exception's kind is kept). */
  datatype Result<+R, +E> = Success(value: R) | Failure(error: E)
}
