/** The absent-or-present value used wherever the source returns `null`,
    reads an `undefined` property, or gets `NaN` back from a coercion. */
module Wrappers {

  datatype Option<+T> = None | Some(value: T) {

    /** The carried value, or `default` when there is none. */
    function GetOr(default: T): T {
      match this
      case Some(v) => v
      case None => default
    }
  }

  /** A computation that either produces a value or throws. */
  datatype Result<+T> = Success(value: T) | Failure(error: string)
}
