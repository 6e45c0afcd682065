/** Option and Result values standing in for Kotlin's nullable types and ORT's Success/Failure results. */
module Wrappers {

  /** A value that may be absent (a Kotlin `T?`). */
  datatype Option<+T> = None | Some(value: T)

  /** Either a computed value or an error (ORT's `Result`, `Success` and `Failure`). */
  datatype Result<+R, +E> = Success(value: R) | Failure(error: E)
}
