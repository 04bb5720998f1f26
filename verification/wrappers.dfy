/** Optional values and results with an error.

    The alarm and runner code signal every failure the same way, by throwing
    a `FatalException` with a details string, so results carry that one
    error type.
 */
module Wrappers {

  /** A pointer that may be null, or a data reference that may lack a
      payload. */
  datatype Option<+T> = None | Some(value: T)

  /** The exception the modelled code throws (`BOOST_THROW_EXCEPTION(FatalException() << errinfo_details(..))`). */
  datatype Error = FatalException(details: string)

  /** Either a value or the exception that was thrown instead. */
  datatype Result<+T> = Ok(value: T) | Err(error: Error) {

    predicate IsFailure() {
      Err?
    }

    function PropagateFailure<U>(): Result<U>
      requires Err?
    {
      Err(error)
    }

    function Extract(): T
      requires Ok?
    {
      value
    }
  }
}
