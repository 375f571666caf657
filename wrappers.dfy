/** Result types used for the exceptions of the modelled PHP code. */
module Wrappers {

  /** A setting that may be unset (PHP null). */
  datatype Option<+T> = None | Some(value: T)

  /** Either a value, or the exception the PHP code would have thrown. */
  datatype Result<+R, +E> = Success(value: R) | Failure(error: E)

  /** A call that returns nothing, or the exception it threw. */
  datatype Outcome<+E> = Pass | Fail(error: E)
}
