/** Option and Result values shared by the other modules. */
module Wrappers {

  datatype Option<+T> = None | Some(value: T)

  /** The outcome of a Python call that either returns `value` or raises `error`. */
  datatype Result<+R, +E> = Success(value: R) | Failure(error: E)
}
