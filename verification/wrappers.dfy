/** Failure-carrying wrappers used by the extractor model. */
module Wrappers {

  /** An optional value: `None` where the source has nothing to emit. */
  datatype Option<+T> = None | Some(value: T)

  /** Either a value or the error the source would raise instead of returning one. */
  datatype Result<+T, +E> = Success(value: T) | Failure(error: E)
}
