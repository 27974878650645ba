/** Option and Result values standing for the C++ code's null pointers, FALSE returns and thrown error codes. */
module Wrappers {

  datatype Option<+T> = None | Some(value: T)

  datatype Result<+T, +E> = Ok(value: T) | Err(error: E)
}
