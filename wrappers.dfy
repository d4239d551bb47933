/** Optional values and error-or-value results, used where the source returns `null` or rejects a request. */
module Wrappers {

  datatype Option<T> = None | Some(value: T)

  datatype Result<T, E> = Ok(value: T) | Err(error: E)
}
