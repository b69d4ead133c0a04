/** Wrappers: `Option` for a Go reference that may be nil, `Result` for a Go
    `(value, *ApiError)` pair. */
module Wrappers {

  datatype Option<+T> = None | Some(value: T)

  datatype Result<+R, +E> = Ok(value: R) | Err(error: E)
}
