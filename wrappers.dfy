/** Option and Result values used for Kotlin's nullable results and thrown exceptions. */
module Wrappers {

  /** A value that may be absent, as a Kotlin `T?`. */
  datatype Option<+T> = None | Some(value: T)

  /** Either a value or the failure that the Kotlin code would have thrown. */
  datatype Result<+R, +E> = Success(value: R) | Failure(error: E)
}
