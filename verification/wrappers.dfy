/** Option and Result values used where the modelled code returns `Option` or `Result`. */
module Wrappers {

  /** An optional value: `None` when absent. */
  datatype Option<+T> = None | Some(value: T)

  /** The outcome of a fallible operation: a value, or an error describing the failure. */
  datatype Result<+T, +E> = Ok(value: T) | Err(error: E)
}
