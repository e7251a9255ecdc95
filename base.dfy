/** Failure-compatible wrappers shared by every module of the model. */
module Base {

  datatype Option<+T> = None | Some(value: T)

  /** The value a Python function returns, or the exception it raises. */
  datatype Result<+T, +E> = Ok(value: T) | Err(error: E)

  /** A Python procedure that returns None normally, or raises. */
  datatype Outcome<+E> = Pass | Fail(error: E)

  /** Some element of a non-empty set: the next key of a dictionary walk whose result does not depend on the order. */
  method Choose<T>(s: set<T>) returns (x: T)
    requires s != {}
    ensures x in s
  {
    x :| x in s;
  }
}
