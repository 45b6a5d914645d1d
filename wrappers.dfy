/** Optional values and results with an error, used wherever the application
    either has a value or does not (a missing artifact, a failed parse). */
module Wrappers {

  datatype Option<+T> = None | Some(value: T)

  datatype Result<+T, +E> = Ok(value: T) | Err(error: E)
}
