/** Optional values and results shared by the other modules. */
module Common {

  /** A value that may be absent (JavaScript's `NaN`, `null` or `undefined`). */
  datatype Option<+T> = None | Some(value: T)

  /** The outcome of an operation that may fail with an error of type `E`. */
  datatype Result<+R, +E> = Success(value: R) | Failure(error: E)
}
