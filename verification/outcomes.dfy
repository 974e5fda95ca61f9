/**
  Java's null references and the exceptions that cross the crawler's
  interfaces, as values.
 */
module Outcomes {

  /** A reference that may be null. */
  datatype Option<+T> = None | Some(value: T)

  /**
    The exceptions the crawl code throws or lets through. Every kind except
    `Export` (DataExportException) and `FileNotFound` is a RuntimeException.
   */
  datatype Fault =
    | Runtime(msg: string)
    | IndexOutOfBounds
    | NullPointer
    | IllegalArgument(msg: string)
    | FileNotFound
    | Export(msg: string)
  {
    predicate IsRuntime() {
      !Export? && !FileNotFound?
    }
  }

  /** How one call of a `void crawl()` ends: normally, or by throwing. */
  datatype Run = Done | Raised(fault: Fault)
  {
    predicate RaisedRuntime() {
      Raised? && fault.IsRuntime()
    }
  }
}
