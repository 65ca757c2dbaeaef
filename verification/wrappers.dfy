/** Failure-carrying datatypes shared by every module of the model.

    The C# code reports failure in two ways: a FluentResults `Result.Fail(...)`
    that the caller inspects, and an exception. Both are values here.
 */
module Wrappers {

  /** A value that may be missing; stands for a C# null reference or an empty `Nullable<T>`. */
  datatype Option<+T> = None | Some(value: T)

  /** Why an operation did not produce a value. */
  datatype Error =
    | Returned(message: string)                 // Result.Fail(new Error(message))
    | Thrown(exception: string, message: string) // an exception of the named .NET type

  /** The outcome of an operation that can fail. */
  datatype Result<+T> = Ok(value: T) | Fail(error: Error)

  /** The outcome of an operation on a store: the store afterwards and what the call returned. */
  datatype Step<+S, +T> = Step(state: S, result: Result<T>)
}
