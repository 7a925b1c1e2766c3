/** Option and Result, used for the values the host may leave absent and for
    the guard chain that either yields a held map or a rejection. */
module Wrappers {

  /** A value that may be missing: a null pointer in the host API. */
  datatype Option<+T> = None | Some(value: T)

  /** The outcome of a step that either produces a value or stops with an error. */
  datatype Result<+T, +E> = Success(value: T) | Failure(error: E)
}
