/** Optional values and results, used for the source's nil pointers, unset times and error returns. */
module Wrappers {
  datatype Option<+T> = None | Some(value: T)

  /** A value, or an error whose message is not modelled. */
  datatype Result<+T> = Ok(value: T) | Err {
    predicate IsFailure() { Err? }

    function PropagateFailure<U>(): Result<U>
      requires Err?
    {
      Err
    }

    function Extract(): T
      requires Ok?
    {
      value
    }
  }
}
