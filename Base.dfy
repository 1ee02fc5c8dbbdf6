/** Option, Result and the error kinds a parse or serialize call can end with. */
module Base {

  datatype Option<+T> = None | Some(value: T)

  /** The exceptions that escape the engine. The first three are the library's own
      XmlError subclasses; Uncaught stands for the Python errors the engine does not
      raise on purpose (int(None), None.lower(), dict access on a non-dict, a failing
      converter) and that therefore escape as something other than an XmlError. */
  datatype ErrorKind = MissingValue | InvalidPrimitiveValue | InvalidRootProcessor | Uncaught

  datatype Result<+T> = Ok(value: T) | Err(error: ErrorKind) {
    predicate IsFailure() {
      Err?
    }

    function PropagateFailure<U>(): Result<U>
      requires Err?
    {
      Err(error)
    }

    function Extract(): T
      requires Ok?
    {
      value
    }
  }
}
