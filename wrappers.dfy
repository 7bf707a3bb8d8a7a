/** Failure-carrying result types shared by the modules of the organizer model. */
module Wrappers {

  /** A value that may be absent; `None` plays the part of Python's `None`. */
  datatype Option<+T> = None | Some(value: T)

  /** The verdict of an operation that either succeeds or is refused with a reason. */
  datatype Outcome<+E> = Pass | Fail(error: E)

  /** A value computed on success, or the reason for a refusal. */
  datatype Result<+R, +E> = Success(value: R) | Failure(error: E)
}
