/** Failure-compatible wrappers used throughout the model. */
module Wrappers {

  datatype Option<+T> = None | Some(value: T)

  /** A computation that either yields a value or fails with an error. */
  datatype Result<+T, +E> = Ok(value: T) | Err(error: E) {
    predicate IsFailure() { Err? }

    function PropagateFailure<U>(): Result<U, E>
      requires Err?
    {
      Err(error)
    }

    function Extract(): T
      requires Ok?
    {
      value
    }
  }

  /** The outcome of a step that only changes state: it passes or fails. */
  datatype Outcome<+E> = Pass | Fail(error: E) {
    predicate IsFailure() { Fail? }

    function PropagateFailure(): Outcome<E>
      requires Fail?
    {
      this
    }
  }

  /** `out` reports the specified result `spec` of a state change from `before` to `after`:
      on success the new state is the specified one, on failure the state is untouched. */
  ghost predicate Reflects<T, E>(out: Outcome<E>, before: T, after: T, spec: Result<T, E>) {
    match spec
    case Ok(v) => out.Pass? && after == v
    case Err(e) => out == Fail(e) && after == before
  }

  /** `out` and the state `after` are what `spec` says; on failure the state is left unsaid
      (a failure aborts the whole extraction, so nothing reads that state again). */
  ghost predicate Yields<T, E>(out: Outcome<E>, after: T, spec: Result<T, E>) {
    match spec
    case Ok(v) => out.Pass? && after == v
    case Err(e) => out == Fail(e)
  }
}
