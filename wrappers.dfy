/** Option and Result, used for pandas' missing values (NaN) and for the
    exceptions that abort the one-shot pipeline. */
module Wrappers {

  datatype Option<+T> = None | Some(value: T)

  datatype Result<+T, +E> = Ok(value: T) | Err(error: E)
}
