/** Failure-compatible wrappers shared by the other modules. */
module Wrappers {

  /** `None` stands for "no value": a missing file set, or numpy's NaN for the mean of nothing. */
  datatype Option<+T> = None | Some(value: T)

  /** The outcome of an operation that raises in the original program. */
  datatype Result<+T, +E> = Ok(value: T) | Err(error: E)
}
