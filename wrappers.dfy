/** Option and Result wrappers used for the resolver's outcome and for
    entries that a refresh step deletes. */
module Wrappers {

  datatype Option<+T> = None | Some(value: T)

  datatype Result<+R, +E> = Success(value: R) | Failure(error: E)
}
