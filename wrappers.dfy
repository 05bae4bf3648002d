/** Option and Result, the two failure-carrying types the model uses. A Go
    pointer result that may be nil becomes an Option; a Go `(*T, error)` pair in
    which the pointer is nil whenever the error is set becomes a Result. */
module Wrappers {

  datatype Option<+T> = None | Some(value: T)

  datatype Result<+R, +E> = Success(value: R) | Failure(error: E)
}
