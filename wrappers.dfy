/** Option and Result, the two failure-carrying shapes used across the model. */
module Wrappers {

  /** `None` stands for JavaScript's `undefined`. */
  datatype Option<+T> = None | Some(value: T)

  /** `Failure` stands for a thrown error or a rejected promise. */
  datatype Result<+R, +E> = Success(value: R) | Failure(error: E)
}
