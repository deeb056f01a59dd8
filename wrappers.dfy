/** Failure-compatible wrappers shared by the model. */
module Wrappers {

  /** `None` stands for a null delegate in the engine. */
  datatype Option<+T> = None | Some(value: T)

  datatype Result<+T, +E> = Success(value: T) | Failure(error: E)

  datatype Outcome<+E> = Pass | Fail(error: E)
}
