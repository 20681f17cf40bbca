/** Option and Result, the two shapes in which the scripts' missing values and reported
    errors are modelled: pandas' NaN in a column becomes `None`, an exception that the
    scripts catch and show as a message becomes `Failure`. */
module Wrappers {

  datatype Option<+T> = None | Some(value: T)

  datatype Result<+R, +E> = Success(value: R) | Failure(error: E)
}
