/** Optional values and results with an error, used wherever the modelled
    code reads a value that may be missing or calls something that may raise. */
module Outcomes {

  datatype Option<+T> = None | Some(value: T)

  datatype Result<+T, +E> = Success(value: T) | Failure(error: E)

  function Min(a: nat, b: nat): nat {
    if a <= b then a else b
  }
}
