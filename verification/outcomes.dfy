/** Small failure-carrying datatypes shared by the pipeline model.
    A Python exception that escapes a call is modelled as a `Failure`. */
module Outcomes {

  /** Something that may be absent (Python's `None`). */
  datatype Option<+T> = None | Some(value: T)

  /** Either a value, or the error the call raised. */
  datatype Result<+T, +E> = Success(value: T) | Failure(error: E)
}
