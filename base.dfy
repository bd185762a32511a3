// Values shared by every module of the model: nullable references, options,
// the exceptions the modelled code raises, and results that carry them.
module Base {

  /** A reference-typed argument or slot of the C# code: `null` or a value. */
  datatype Nullable<+T> = Null | NonNull(value: T)

  /** An optional value (both `SolidStack.Core.Options.Option<T>` and the
    * `IOption<T>` of SolidStack.Core.Flow). */
  datatype Option<+T> = None | Some(value: T)

  /** The exceptions the modelled code raises, by .NET type. */
  datatype Failure =
    | GuardClause(message: string)   // SolidStack.Core.Guards.GuardClauseException
    | ArgumentNull                   // System.ArgumentNullException
    | Argument                       // System.ArgumentException
    | NullReference                  // System.NullReferenceException
    | InvalidOperation               // System.InvalidOperationException

  /** The value a call returns, or the exception it throws. */
  datatype Result<+T> = Ok(value: T) | Err(failure: Failure)
  {
    predicate IsFailure() { Err? }
    function PropagateFailure<U>(): Result<U> requires Err? { Err(failure) }
    function Extract(): T requires Ok? { value }
  }

  /** A call that returns nothing: it completes, or it throws. */
  datatype Outcome = Pass | Fail(failure: Failure)
  {
    predicate IsFailure() { Fail? }
    function PropagateFailure<U>(): Result<U> requires Fail? { Err(failure) }
  }
}
