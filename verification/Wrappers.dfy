/** Result types shared by the models. */
module Wrappers {

  datatype Option<+T> = None | Some(value: T)

  /** A fallible computation whose error text is not modelled. */
  datatype Result<+T> = Success(value: T) | Failure {
    predicate IsFailure() {
      Failure?
    }

    function PropagateFailure<U>(): Result<U>
      requires Failure?
    {
      Failure
    }

    function Extract(): T
      requires Success?
    {
      value
    }
  }

  /** What an awaited call yields: its value, its error, or nothing at all because
      the enclosing future was dropped at that await. Both of the last two leave
      the caller at once, as `?` and cancellation do. */
  datatype Outcome<+T> = Ok(value: T) | Err | Cancelled {
    predicate IsFailure() {
      !Ok?
    }

    function PropagateFailure<U>(): Outcome<U>
      requires !Ok?
    {
      if Err? then Err else Cancelled
    }

    function Extract(): T
      requires Ok?
    {
      value
    }
  }
}
