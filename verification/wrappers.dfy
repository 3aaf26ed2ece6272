/** The model's stand-ins for JavaScript's `undefined` and for a settled promise. */
module Wrappers {

  /** An optional value (an absent property, an omitted argument). */
  datatype Option<+T> = None | Some(value: T)

  /** The settled state of a promise: fulfilled with a value, or rejected with an error. */
  datatype Result<+R, +E> = Success(value: R) | Failure(error: E)
}
