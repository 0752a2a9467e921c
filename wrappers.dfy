/** Option, Result and Outcome, plus the error kinds the service reports. */
module Wrappers {

  datatype Option<+T> = None | Some(value: T) {
    function GetOr(default: T): T {
      match this
      case Some(v) => v
      case None => default
    }
  }

  /** Why a PATCH content type was refused (all three are 415). */
  datatype MediaTypeReason = MissingContentType | JsonPatchNotEnabled | NotMergePatch

  /**
   * The error conditions raised by the core. InvalidRequest covers every payload or
   * schema violation (ValueError inside a pydantic validator); TypeError is an exception
   * a validator raises that pydantic does not turn into a validation error; ValueError
   * and KeyError are the store's programming-error conditions.
   */
  datatype Error =
    | InvalidRequest
    | InvalidFilter
    | InvalidFieldSelection
    | NotFound
    | Conflict
    | ValueError
    | KeyError
    | TypeError
    | UnsupportedMediaType(reason: MediaTypeReason)

  datatype Result<+R> = Ok(value: R) | Err(error: Error) {
    predicate IsFailure() { Err? }

    function PropagateFailure<U>(): Result<U>
      requires Err?
    {
      Err(error)
    }

    function Extract(): R
      requires Ok?
    {
      value
    }
  }

  /** A check that either passes or fails with an error. */
  datatype Outcome = Pass | Fail(error: Error) {
    predicate IsFailure() { Fail? }

    function PropagateFailure<U>(): Result<U>
      requires Fail?
    {
      Err(error)
    }
  }
}
