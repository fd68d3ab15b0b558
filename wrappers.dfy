/** Optional values (a Java reference that may be null) and results that may fail
    (an operation that may throw). */
module Wrappers {

  datatype Option<+T> = None | Some(value: T)

  datatype Result<+T, +E> = Ok(value: T) | Err(error: E)
}
