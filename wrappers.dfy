/** Failure-compatible wrappers shared by every module of the model. */
module Wrappers {

  datatype Option<+T> = None | Some(value: T)

  /** The exception kinds the modelled code raises. */
  datatype Error =
    | ArgumentNull       // ArgumentNullException
    | Argument           // ArgumentException
    | ArgumentOutOfRange // ArgumentOutOfRangeException (including slicing out of range)
    | Format             // FormatException raised by UInt64.Parse
    | Overflow           // OverflowException raised by UInt64.Parse
    | InvalidOperation   // InvalidOperationException raised by List.Sort around a failing comparer
    | IO                 // IOException raised by the file system

  datatype Result<+T> = Ok(value: T) | Err(error: Error) {
    predicate IsFailure() { Err? }
    function PropagateFailure<U>(): Result<U>
      requires Err?
    {
      Err(error)
    }
    function Extract(): T
      requires Ok?
    {
      value
    }
  }
}
