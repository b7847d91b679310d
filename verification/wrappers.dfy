/** Optional values and results with an error, used for lookups that can miss
    and for the directory scan that can throw. */
module Wrappers {

  datatype Option<+T> = None | Some(value: T)

  datatype Result<+R, +E> = Ok(value: R) | Err(error: E)
}
