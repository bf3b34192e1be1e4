/** Null-or-value and value-or-error wrappers used throughout the model.
    A Java reference that may be null becomes an Option; an operation that
    may throw becomes a Result whose error names the exception. */
module Wrappers {

  datatype Option<+T> = None | Some(value: T) {
    function GetOr(default: T): T {
      match this
      case Some(v) => v
      case None => default
    }
  }

  /** The Java exceptions the modelled code throws or catches. */
  datatype Exception =
    | IllegalArgument(message: string)
    | IllegalState(message: string)
    | NullPointer
    | NumberFormat(input: string)
    | Arithmetic
    | IO(message: string)
    | Runtime(message: string)

  datatype Result<+R> = Success(value: R) | Failure(error: Exception) {
    predicate IsFailure() { Failure? }
  }
}
