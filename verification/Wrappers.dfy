/** The option type used for steps that may panic: None is a reverted call. */
module Wrappers {

  datatype Option<+T> = None | Some(value: T) {

    predicate IsFailure() {
      None?
    }

    function PropagateFailure<U>(): Option<U>
      requires None?
    {
      None
    }

    function Extract(): T
      requires Some?
    {
      value
    }

    function GetOr(default: T): T {
      match this
      case Some(v) => v
      case None => default
    }
  }

  /** The result of a check that carries no value. */
  datatype Outcome = Pass | Fail {

    predicate IsFailure() {
      Fail?
    }

    function PropagateFailure<U>(): Option<U>
      requires Fail?
    {
      None
    }
  }

  // A failed assertion or a panic: the rest of the step runs only when the condition holds.
  function Need(condition: bool): Outcome {
    if condition then Pass else Fail
  }
}
