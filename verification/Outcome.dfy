/** Option and Result values, standing for null returns and thrown errors. */
module Outcome {
  datatype Option<+T> = None | Some(value: T)

  /** The value, or a default for a missing one. */
  function GetOr<T>(o: Option<T>, missing: T): T { if o.Some? then o.value else missing }

  datatype Result<+T, +E> = Ok(value: T) | Err(error: E)
  {
    predicate IsFailure() { Err? }

    function PropagateFailure<U>(): (r: Result<U, E>)
      requires Err?
    {
      Err(error)
    }

    function Extract(): T
      requires Ok?
    {
      value
    }
  }
}
