/** Option, Result and Outcome: the source's `null` values and thrown errors as values. */
module Wrappers {

  /** A value that may be absent (`null`, `undefined` or `Infinity` in the source). */
  datatype Option<+T> = None | Some(value: T)

  /** The result of an operation that either returns a value or throws an error. */
  datatype Result<+T, +E> = Ok(value: T) | Err(error: E)

  /** The result of a validation that returns nothing or throws an error. */
  datatype Outcome<+E> = Pass | Fail(error: E)
}
