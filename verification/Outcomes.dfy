/** Option and Result, as the models of nullable values and thrown errors. */
module Outcomes {
  datatype Option<+T> = None | Some(value: T)
  datatype Result<+T, +E> = Success(value: T) | Failure(error: E)
}
