/** Option and Result values, used where the Go code returns nil,
    a (value, ok) pair or a (value, error) pair. */
module Wrappers {

  datatype Option<+T> = None | Some(value: T)

  datatype Result<+R, +E> = Success(value: R) | Failure(error: E)
}
