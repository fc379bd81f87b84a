/** Option and Result values, used for the error paths of the model
    (Python exceptions raised by dictionary lookups, indexing and asserts). */
module Wrappers {

  datatype Option<+T> = None | Some(value: T)

  datatype Result<+T, +E> = Ok(value: T) | Err(error: E)
}
