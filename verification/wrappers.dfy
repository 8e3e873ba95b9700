/** Failure-compatible wrappers used across the model. */
module Wrappers {

  /** A value that may be absent: the model's stand-in for a null item or an empty `QVariant`. */
  datatype Option<+T> = None | Some(value: T)

  /** A value or the error that prevented computing it (a thrown exception in the source). */
  datatype Result<+R, +E> = Success(value: R) | Failure(error: E)
}
