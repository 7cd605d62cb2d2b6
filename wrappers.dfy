/** Option and Result, the error-carrying shapes used throughout the model. */
module Wrappers {

  datatype Option<+T> = None | Some(value: T)

  /** `Err` stands for a Python exception (or an HTTP abort) raised by the source. */
  datatype Result<+T, +E> = Ok(value: T) | Err(error: E)
}
