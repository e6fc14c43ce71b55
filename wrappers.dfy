/** Option, the stock wrapper used by the other modules for "absent" values. */
module Wrappers {

  /** A value that may be missing: JavaScript's null/undefined for a
      single slot, or a nullable reference. */
  datatype Option<+T> = None | Some(value: T)

  /** Either a value or the error that prevented it. */
  datatype Result<+R, +E> = Success(value: R) | Failure(error: E)
}
