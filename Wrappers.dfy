/** Optional values and error-carrying results, used wherever the source has
    `undefined`, a `find` that may miss, or a rejected promise. */
module Wrappers {

  datatype Option<+T> = None | Some(value: T)

  datatype Result<+T, +E> = Ok(value: T) | Err(error: E)
}
