// Option and Result, used for every source path that can fail (a NULL
// return, a negative status code, a raised exception).
module Wrappers {
  datatype Option<T> = None | Some(value: T)

  datatype Result<T, E> = Ok(value: T) | Err(error: E)
}
