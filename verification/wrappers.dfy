/** Option and Result values for lookups that may find nothing and for steps that may fail. */
module Wrappers {

  datatype Option<+T> = None | Some(value: T)

  /** The outcome of a step that either yields a value or fails with a message. */
  datatype Result<+T> = Success(value: T) | Failure(error: string)
}
