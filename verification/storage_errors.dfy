/**
 * The storage layer's error taxonomy. The JavaScript code tells a validation
 * error apart by a `validationError` flag that the `ValidationError` class
 * always sets to `true`; callers also rely on an `errorType` tag with the
 * three values "validation", "notfound" and "system". Here the three kinds
 * are the three constructors of one datatype, each keeping its message.
 */
module StorageErrors {

  datatype StorageError =
    | ValidationError(message: string)
    | NotFoundError(message: string)
    | SystemError(message: string)

  /** What every storage operation returns: a value or a storage error. */
  datatype Result<+T> = Ok(value: T) | Err(error: StorageError)

  /** The `validationError` flag: present (and `true`) only on a validation error. */
  function ValidationFlag(e: StorageError): (flag: bool)
    ensures flag <==> e.ValidationError?
  {
    match e
    case ValidationError(_) => true
    case _ => false
  }

  /** `isValidationError`: the flag is present and truthy. */
  predicate IsValidationError(e: StorageError) {
    ValidationFlag(e)
  }

  predicate IsNotFoundError(e: StorageError) {
    e.NotFoundError?
  }

  predicate IsSystemError(e: StorageError) {
    e.SystemError?
  }

  /** The `errorType` tag the handlers switch on. */
  function ErrorType(e: StorageError): (tag: string)
    ensures tag in {"validation", "notfound", "system"}
  {
    match e
    case ValidationError(_) => "validation"
    case NotFoundError(_) => "notfound"
    case SystemError(_) => "system"
  }

  /** The handlers' map from error tag to HTTP status. */
  function StatusCode(e: StorageError): (status: int)
    ensures IsValidationError(e) <==> status == 400
    ensures IsNotFoundError(e) <==> status == 404
    ensures IsSystemError(e) <==> status == 500
  {
    match ErrorType(e)
    case "notfound" => 404
    case "validation" => 400
    case _ => 500
  }

  /** Every constructed validation error is recognised, and keeps its message. */
  lemma ValidationErrorRecognised(msg: string)
    ensures IsValidationError(ValidationError(msg))
    ensures ValidationError(msg).message == msg
  {
  }

  /** An error without the flag (not-found or system) is not a validation error. */
  lemma OtherErrorsNotValidation(e: StorageError)
    requires !e.ValidationError?
    ensures !IsValidationError(e)
  {
  }

  /** The three classifications partition the errors: exactly one holds. */
  lemma ClassificationIsExclusive(e: StorageError)
    ensures IsValidationError(e) || IsNotFoundError(e) || IsSystemError(e)
    ensures !(IsValidationError(e) && IsNotFoundError(e))
    ensures !(IsValidationError(e) && IsSystemError(e))
    ensures !(IsNotFoundError(e) && IsSystemError(e))
  {
  }
}
