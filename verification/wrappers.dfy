/** Optional values and results, used across the model. */
module Wrappers {

  /** An optional value: `None` stands for JavaScript's `undefined` or an empty form field. */
  datatype Option<+T> = None | Some(value: T)

  /** The outcome of an operation that may be refused with an error. */
  datatype Result<+R, +E> = Success(value: R) | Failure(error: E)
}
