/** Optional values and results with an error message, for the error returns of Go functions. */
module Wrappers {

  datatype Option<+T> = None | Some(value: T)

  datatype Result<+T> = Ok(value: T) | Err(message: string)
}
