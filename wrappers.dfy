/** Option and Result datatypes shared by the pipeline's modules. */
module Wrappers {

  /** A nullable cell: `None` is SQL NULL. */
  datatype Option<+T> = None | Some(value: T)

  /** The outcome of a run that may stop with an error. */
  datatype Result<+T, +E> = Success(value: T) | Failure(error: E)
}
