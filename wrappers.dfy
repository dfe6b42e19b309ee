/** Option stands for a nullable reference, Result for an operation that may signal an error. */
module Wrappers {

  /** A value that may be absent: None is Java's null. */
  datatype Option<+T> = None | Some(value: T)

  /** Either a value or the error the operation signals. */
  datatype Result<+R, +E> = Success(value: R) | Failure(error: E)
}
