/** Failure-carrying values shared by the whole model: Go's `(value, error)`
    pairs and its nil-able results. */
module Wrappers {

  datatype Option<+T> = None | Some(value: T)

  datatype Result<+T, +E> = Ok(value: T) | Err(error: E)
}
