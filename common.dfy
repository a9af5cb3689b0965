/** Failure-compatible wrappers shared by every module of the model. */
module Common {

  /** The value of a reference that may be null. */
  datatype Option<+T> = None | Some(value: T) {
    predicate IsFailure() { None? }

    function PropagateFailure<U>(): Option<U>
      requires None?
    {
      None
    }

    function Extract(): T
      requires Some?
    {
      value
    }
  }

  /** The outcome of a call that either returns a value or throws. */
  datatype Result<+R, +E> = Success(value: R) | Failure(error: E) {
    predicate IsFailure() { Failure? }

    function PropagateFailure<U>(): Result<U, E>
      requires Failure?
    {
      Failure(error)
    }

    function Extract(): R
      requires Success?
    {
      value
    }
  }

  /** The exceptions the core can raise.  `First`, `Single` and
      `SingleOrDefault` raise InvalidOperationException for the first two
      reasons.  `Construct` raises ArgumentException when the number of type
      arguments differs from a generic definition's arity, and
      InvalidOperationException when the definition is not generic.  A
      member access through null raises NullReferenceException. */
  datatype Exception =
    | NoMatchingElement
    | MoreThanOneMatchingElement
    | TypeArgumentCountMismatch
    | NotGenericDefinition
    | NullReference
}
