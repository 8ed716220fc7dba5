/** Failure-compatible wrappers shared by the importer's modules. */
module Wrappers {

  datatype Option<+T> = None | Some(value: T)

  /** The exceptions the importer can raise. Each one aborts the running import. */
  datatype Fault =
    | NullBinding      // RuntimeBinderException: a member read on an absent (null) JSON node
    | Format           // Int32.Parse met a character that is not part of an integer
    | Overflow         // a number does not fit the target integer type
    | IndexOutOfRange  // List<T> indexer outside 0 .. Count - 1
    | InvalidCast      // the runtime binder cannot convert or bind a JSON node
    | DuplicateKey     // Dictionary.Add with a key that is already present
    | NoMatch          // Enumerable.First found no element that satisfies its predicate

  datatype Result<+T> = Ok(value: T) | Err(fault: Fault) {
    predicate IsFailure() { Err? }

    function PropagateFailure<U>(): Result<U>
      requires Err?
    {
      Err(fault)
    }

    function Extract(): T
      requires Ok?
    {
      value
    }
  }
}
