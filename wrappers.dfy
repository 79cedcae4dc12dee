/** Optional values and error-or-value results, used wherever the source
    returns None, raises, or reads a JSON field that may be missing. */
module Wrappers {

  datatype Option<+T> = None | Some(value: T)

  datatype Result<+R, +E> = Ok(value: R) | Err(error: E)
}
