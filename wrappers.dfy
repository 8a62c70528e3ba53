/** Failure-carrying values: the model's stand-in for Python's `None` and for
    exceptions raised by library calls. */
module Wrappers {

  datatype Option<+T> = None | Some(value: T)

  datatype Result<+R, +E> = Ok(value: R) | Err(error: E)
}
