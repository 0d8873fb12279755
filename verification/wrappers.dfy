/** Failure-carrying datatypes shared by the model. */
module Wrappers {

  /** Python's `None` versus a present value: the result of `dict.get`
      on a missing key, or a search that found nothing. */
  datatype Option<+T> = None | Some(value: T)

  /** A value or the exception the Python code would raise instead. */
  datatype Result<+R, +E> = Success(value: R) | Failure(error: E)
}
