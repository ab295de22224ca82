/** Failure-carrying wrappers shared by the progress layer and the pages. */
module Outcomes {

  /** A value that may be absent: a nullable field, a `find` that found nothing. */
  datatype Option<T> = None | Some(value: T)

  /** The errors the progress layer raises instead of returning a value. */
  datatype Error =
    /** The value stored under `key` does not have the shape of the record read from it. */
    | CorruptData(key: string)

  /** A read that either yields a record or raises an error. */
  datatype Result<T> = Ok(value: T) | Err(error: Error) {
    predicate IsFailure() { Err? }
    function PropagateFailure<U>(): Result<U>
      requires Err?
    {
      Err(error)
    }
    function Extract(): T
      requires Ok?
    {
      value
    }
  }

  /** What an operation that returns nothing ended with: normally, or by raising. */
  datatype Outcome = Done | Raised(error: Error)
}
