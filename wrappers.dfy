/** Optional values and results carrying an error, used where the script
    either has nothing (a failed query, an unparsable timestamp) or raises. */
module Wrappers {

  datatype Option<+T> = None | Some(value: T)

  datatype Result<+T, +E> = Ok(value: T) | Err(error: E)
}
