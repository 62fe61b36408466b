/** Option and Result, used for Python's `None` returns, the `+inf`
    sentinel and raised exceptions. */
module Wrappers {

  datatype Option<+T> = None | Some(value: T)

  datatype Result<+R, +E> = Success(value: R) | Failure(error: E)
}
