/** The `Option` and `Result` datatypes used across the model. */
module Wrappers {

  /** A value that may be absent; `None` stands for an input that is not a string. */
  datatype Option<+T> = None | Some(value: T)

  /** The outcome of a call into an opaque collaborator that may raise. */
  datatype Result<+T, +E> = Success(value: T) | Failure(error: E)
}
