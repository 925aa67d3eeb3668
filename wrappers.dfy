/** Failure-carrying results shared by every module of the model. */
module Wrappers {

  /** The outcome of a Go function that returns only `error`: nil is Pass. */
  datatype Outcome<+E> = Pass | Fail(error: E)

  /** The outcome of a Go function that returns `(*T, error)`: every error
      path of the modelled code returns a nil pointer, so the pair is either
      a value or an error, never both. */
  datatype Result<+T, +E> = Ok(value: T) | Err(error: E)

  datatype Option<+T> = None | Some(value: T)
}
