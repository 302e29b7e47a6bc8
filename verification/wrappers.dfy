/** Two plain datatypes: an optional value, and a value-or-error. */
module Wrappers {

  /** An optional value; stands in for java.util.Optional and for a possibly-null reference. */
  datatype Option<+T> = None | Some(value: T)

  /** The outcome of an operation that may throw: a value, or the error it raised. */
  datatype Result<+R, +E> = Success(value: R) | Failure(error: E)
}
