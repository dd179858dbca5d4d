/** Nullable and throwing outcomes: a Java reference that may be null, and a call that may throw. */
module Comum {

  /** A value that may be absent (a nullable reference or an empty `Optional`). */
  datatype Option<+T> = None | Some(value: T)

  /** The outcome of a call that either returns a value or throws. */
  datatype Result<+T, +E> = Success(value: T) | Failure(error: E)
}
