/** Failure-carrying result types shared by the rest of the model. */
module Wrappers {

  /** An optional value: the model's stand-in for a Java reference that may be null. */
  datatype Option<+T> = None | Some(value: T)

  /** Either a computed value or the reason it could not be computed. */
  datatype Result<+R, +E> = Success(value: R) | Failure(error: E)
}
