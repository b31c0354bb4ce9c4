/** Optional values and results with an error, used wherever the JavaScript
    source would produce `undefined` or throw. */
module Wrappers {

  datatype Option<+T> = None | Some(value: T)

  datatype Result<+T, +E> = Ok(value: T) | Err(error: E)
}
