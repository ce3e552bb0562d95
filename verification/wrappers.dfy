/** Failure-carrying results for the schedule builders, which either yield a
    learning rate or raise a validation error. */
module Wrappers {

  /** A value that may be absent: the training-step counter handed to a
      schedule is either a graph variable or something else. */
  datatype Option<+T> = None | Some(value: T)

  /** Either a computed value or the error the builder raises. */
  datatype Result<+R, +E> = Success(value: R) | Failure(error: E)
}
