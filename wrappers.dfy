/** The optional value used wherever the source keeps "nothing found", and
    the outcome of a step that may end the run. */
module Wrappers {
  datatype Option<+T> = None | Some(value: T)

  datatype Result<+T, +E> = Success(value: T) | Failure(error: E)
}
