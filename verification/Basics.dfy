/** Option, Result and Verdict: the shapes the source's `Option`, `Result<T, E>` and `Result<(), E>` take here. */
module Basics {

  datatype Option<+T> = None | Some(value: T) {
    /** `Option::or`. */
    function Or(other: Option<T>): Option<T> {
      if Some? then this else other
    }
  }

  datatype Result<+T, +E> = Ok(value: T) | Err(error: E)

  /** The outcome of a check: nothing to report, or the first error met. */
  datatype Verdict<+E> = Pass | Fail(error: E) {
    /** Two checks in order; the first failure is reported. */
    function Then(next: Verdict<E>): Verdict<E> {
      if Fail? then this else next
    }
  }

  /** A check written as a condition with the error it reports. */
  function Check<E>(condition: bool, error: E): Verdict<E> {
    if condition then Pass else Fail(error)
  }
}
