/** Optional values, results with an error alternative, and the smaller of two integers. */
module Wrappers {

  datatype Option<+T> = None | Some(value: T)

  datatype Result<+R, +E> = Ok(value: R) | Err(error: E)

  function Min(a: int, b: int): int {
    if a <= b then a else b
  }
}
