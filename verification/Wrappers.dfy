/** Optional values and fallible results, shared by every other module. */
module Wrappers {

  datatype Option<+T> = None | Some(value: T)

  /** `Err` carries what the Python function raises. */
  datatype Result<+T, +E> = Ok(value: T) | Err(error: E)
}
