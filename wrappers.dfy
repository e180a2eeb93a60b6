/** Optional values and results with an error case, used by every module of the model. */
module Wrappers {

  /** A value that may be absent: JavaScript's `undefined`, or SQL NULL once bound as a parameter. */
  datatype Option<+T> = None | Some(value: T) {

    /** `x ?? fallback` for a value that is either present or absent */
    function GetOr(fallback: T): T {
      match this
      case Some(v) => v
      case None => fallback
    }
  }

  /** The outcome of an operation that either returns a value or throws. */
  datatype Result<+R, +E> = Success(value: R) | Failure(error: E)
}
