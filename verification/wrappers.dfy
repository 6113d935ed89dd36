/** Option and Result datatypes shared by the moderation model. */
module Wrappers {

  /** A value that may be absent; stands for a nullable column or a PHP `null`. */
  datatype Option<+T> = None | Some(value: T)

  /** The outcome of an operation that can fail with an error value instead of a result. */
  datatype Result<+R, +E> = Success(value: R) | Failure(error: E)
}
