/** Failure-carrying values shared by the simhash and worker models: Go's
    `(value, error)` pairs become `Result`, values that may be absent `Option`. */
module Wrappers {

  datatype Option<+T> = None | Some(value: T)

  datatype Result<+T, +E> = Ok(value: T) | Err(error: E)
}
