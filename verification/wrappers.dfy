/** Option and Result, the model's stand-ins for .NET `null` and for thrown exceptions. */
module Wrappers {

  /** `None` plays the part of a .NET `null` reference. */
  datatype Option<+T> = None | Some(value: T) {

    /** The value, or `default` for `None` (the C# `??` operator). */
    function GetOr(default: T): T {
      match this
      case Some(v) => v
      case None => default
    }
  }

  /** An operation that either returns a value or throws an exception carrying a message. */
  datatype Result<+T, +E> = Success(value: T) | Failure(error: E)
}
