/** Outcomes of the services: every exception the services throw is an `Error` value. */
module Results {

  datatype Option<+T> = None | Some(value: T)

  /** `NotFound` and `NotProcessable` are the two exceptions of the services; `Conflict` is a
      unique constraint of the database refusing a save; `EmptySequence` is LINQ's `First()`
      on an empty list; `CommitFailed` is a database that does not commit; `Unhandled` is any exception of
      a library that the services let through. */
  datatype Error =
    | NotFound(item: string)
    | NotProcessable(item: string)
    | Conflict(item: string)
    | EmptySequence(item: string)
    | CommitFailed(item: string)
    | Unhandled(item: string)

  datatype Result<+T> = Ok(value: T) | Err(error: Error) {
    predicate IsFailure() { Err? }

    function PropagateFailure<U>(): Result<U>
      requires Err?
    {
      Err(error)
    }

    function Extract(): T
      requires Ok?
    {
      value
    }
  }

  /** The result of a method that changes state instead of returning a value. */
  datatype Outcome = Pass | Fail(error: Error) {
    predicate IsFailure() { Fail? }

    function PropagateFailure(): Outcome
      requires Fail?
    {
      this
    }

    /** Carries on with `next` unless this check failed. */
    function Then<T>(next: Result<T>): Result<T> {
      if Pass? then next else Err(error)
    }
  }

  /** A method that ended with `outcome` in state `now` did what `spec` says: it fails exactly when
      `spec` fails, with the same error, and otherwise leaves the state `spec` computes. */
  predicate Realises<T(==)>(outcome: Outcome, now: T, spec: Result<T>) {
    match spec
    case Ok(expected) => outcome.Pass? && now == expected
    case Err(error) => outcome == Fail(error)
  }
}
