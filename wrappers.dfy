/** Option, Result and Outcome: the shapes in which the boundary's values and
    failures travel between the modules of this model. */
module Wrappers {

  datatype Option<+T> = None | Some(value: T)

  datatype Result<+R, +E> = Success(value: R) | Failure(error: E)

  /** The outcome of an operation that produces no value (Rust's `Result<()>`). */
  datatype Outcome<+E> = Pass | Fail(error: E)
}
