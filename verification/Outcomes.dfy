/** A value that may be missing, a value or the type of the exception raised instead, and
    iteration in no particular order. */
module Outcomes {
  datatype Option<+T> = None | Some(value: T)
  datatype Result<+T> = Ok(value: T) | Err(errorType: string)
  {
    predicate IsFailure() { Err? }

    function PropagateFailure<U>(): Result<U>
      requires Err?
    {
      Err(errorType)
    }

    function Extract(): T
      requires Ok?
    {
      value
    }
  }

  /** The next member of a set being iterated over: the order is left open. */
  method AnyOf<T>(members: set<T>) returns (member: T)
    requires members != {}
    ensures member in members
  {
    member :| member in members;
  }
}
