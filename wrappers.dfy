/** Outcome types used in place of Python's None returns and caught exceptions. */
module Wrappers {

  datatype Option<+T> = None | Some(value: T)

  /** A collaborator call that either returns a value or raises with a message. */
  datatype Result<+T> = Success(value: T) | Failure(error: string)
}
