/** Failure-carrying datatypes standing for the exceptions the program throws. */
module Wrappers {

  /** The .NET exception classes the modelled code raises. */
  datatype Error =
    | ArgumentNull        // ArgumentNullException
    | Argument            // ArgumentException
    | Format              // FormatException (int.Parse)
    | Overflow            // OverflowException (int.Parse)
    | NotSupported        // NotSupportedException
    | ArgumentOutOfRange  // ArgumentOutOfRangeException
    | InvalidOperation    // InvalidOperationException
    | XmlLoad             // XmlException raised while loading a document
    | FileNotFound        // FileNotFoundException (opening a file that is not there)

  datatype Option<+T> = None | Some(value: T)

  datatype Result<+T> = Ok(value: T) | Err(error: Error) {
    predicate IsFailure() { Err? }

    function PropagateFailure<U>(): Result<U>
      requires Err?
    {
      Err(error)
    }

    function Extract(): T
      requires Ok?
    {
      value
    }
  }

  /** The result of an operation that returns nothing (a void method that may throw). */
  datatype Outcome = Pass | Fail(error: Error) {
    predicate IsFailure() { Fail? }

    function PropagateFailure(): Outcome
      requires Fail?
    {
      this
    }
  }
}
