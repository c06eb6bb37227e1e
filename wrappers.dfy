/** Option and Result values, standing for pandas' missing values and for
    the points where the dashboard script stops or raises. */
module Wrappers {

  datatype Option<+T> = None | Some(value: T)

  datatype Result<+R, +E> = Success(value: R) | Failure(error: E)
}
