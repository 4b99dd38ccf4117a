/** The success-or-error and present-or-absent results that the model's fallible operations
    return. */
module Wrappers {

  datatype Result<+T, +E> = Ok(value: T) | Err(error: E)

  datatype Option<+T> = None | Some(value: T)
}
