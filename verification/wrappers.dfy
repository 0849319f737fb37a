/** Failure-carrying datatypes used in place of Go's multiple return values
    (`value, err`) and of `log.Fatal`. */
module Wrappers {

  datatype Option<+T> = None | Some(value: T)

  datatype Result<+R, +E> = Success(value: R) | Failure(error: E)
}
