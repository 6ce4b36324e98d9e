/** Failure-compatible wrappers shared by every module of the model.

    The datastore is written in Python, where failures are exceptions. The
    model names the exception classes the core raises or lets through and
    carries them in a `Result`, so that an error path of the source is an
    `Err` value here rather than a precondition.
 */
module Outcomes {

  datatype Option<+T> = None | Some(value: T)
  {
    function GetOr(default: T): T
    {
      match this
      case Some(v) => v
      case None => default
    }
  }

  /** The Python exceptions the modelled code raises or propagates. */
  datatype Exception =
    | KeyError        // missing dict key or unknown mountpoint id
    | AttributeError  // attribute looked up on None, or a missing property without default
    | TypeError       // operation applied to a value of the wrong type
    | ValueError      // malformed date, number or integer literal
    | IndexError      // `results[0]` on an empty list
    | DecodeError     // binascii could not decode base64 text
    | StoreFailure    // a call into a backing store raised

  datatype Result<+T> = Ok(value: T) | Err(error: Exception)
  {
    predicate IsFailure()
    {
      Err?
    }

    function PropagateFailure<U>(): Result<U>
      requires Err?
    {
      Err(error)
    }

    function Extract(): T
      requires Ok?
    {
      value
    }
  }
}
