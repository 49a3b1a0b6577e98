/** The two result shapes the models share. */
module Wrappers {

  /** A nullable column or an optional field. */
  datatype Option<+T> = None | Some(value: T)

  /** What a Python function returns, or the kind of error it raises. */
  datatype Result<+T, +E> = Ok(value: T) | Err(error: E)
}
