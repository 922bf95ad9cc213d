/** Optional values and error-carrying results, used wherever the system returns
    None, raises, or reports failure through a flag. */
module Wrappers {
  datatype Option<T> = None | Some(value: T)

  datatype Result<T, E> = Ok(value: T) | Err(error: E)
}
