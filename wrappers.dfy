/** Option and Result values, used for the optional process name and for the
    error exits of argument validation. */
module Wrappers {

  datatype Option<+T> = None | Some(value: T)

  datatype Result<+R, +E> = Ok(value: R) | Err(error: E)
}
