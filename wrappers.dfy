/** Optional values and results with an error, used wherever the Go code
    returns a value together with an `error` or a nil pointer. */
module Wrappers {

  datatype Option<+T> = None | Some(value: T)

  datatype Result<+T, +E> = Ok(value: T) | Err(error: E)
}
