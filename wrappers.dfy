/** Stand-ins for the C# conventions the core relies on: a reference that may be
    `null` becomes an `Option`, and an operation that may throw becomes a `Result`. */
module Wrappers {

  /** `None` models a C# `null` reference. */
  datatype Option<+T> = None | Some(value: T) {
    /** The value, or `default` when this is `None`. */
    function GetOr(default: T): T {
      match this
      case Some(v) => v
      case None => default
    }
  }

  /** `Failure` models an exception thrown out of the operation. */
  datatype Result<+T, +E> = Success(value: T) | Failure(error: E)
}
