/** Datatypes for absent values and raised exceptions, shared by the rest of the model. */
module Wrappers {

  /** An optional value; `None` stands for Python's "not found". */
  datatype Option<+T> = None | Some(value: T)

  /** The outcome of an operation that may raise; `Failure` carries the exception kind. */
  datatype Result<+R, +E> = Success(value: R) | Failure(error: E)
}
