/**
 * The two error types of the validation envelope: ValidationFieldError, a leaf
 * describing one failed field, and ValidationError, the aggregate whose
 * reasons are the field errors.
 */
module Errors {
  import opened Core

  const ErrorCodeKey := "errorCode"
  const PropertyNameKey := "propertyName"
  const AttemptedValueKey := "attemptedValue"
  const ValidationMessage := "Validation error."

  /** The error a ValidationFieldError constructor yields. */
  function ValidationFieldError(message: string, errorCode: string, propertyName: string, attemptedValue: Value): (e: Error)
    ensures e.message == message
    ensures e.metadata.Keys == {ErrorCodeKey, PropertyNameKey, AttemptedValueKey} && |e.metadata| == 3
    ensures e.metadata[ErrorCodeKey] == Text(errorCode)
    ensures e.metadata[PropertyNameKey] == Text(propertyName)
    ensures e.metadata[AttemptedValueKey] == attemptedValue
    ensures e.reasons == None
  {
    Error(message,
          map[ErrorCodeKey := Text(errorCode), PropertyNameKey := Text(propertyName), AttemptedValueKey := attemptedValue],
          None)
  }

  /**
   * The ValidationFieldError constructor: the metadata dictionary starts empty
   * and receives its three entries by successive Add calls; each key is new
   * when it is added, so Add never raises its duplicate-key exception.
   */
  method NewValidationFieldError(message: string, errorCode: string, propertyName: string, attemptedValue: Value)
    returns (e: Error)
    ensures e == ValidationFieldError(message, errorCode, propertyName, attemptedValue)
  {
    var metadata: map<string, Value> := map[];
    assert ErrorCodeKey !in metadata;
    metadata := metadata[ErrorCodeKey := Text(errorCode)];
    assert PropertyNameKey !in metadata;
    metadata := metadata[PropertyNameKey := Text(propertyName)];
    assert AttemptedValueKey !in metadata;
    metadata := metadata[AttemptedValueKey := attemptedValue];
    e := Error(message, metadata, None);
  }

  /** The error a ValidationError constructor yields. */
  function ValidationError(errorCode: string, fieldErrors: seq<Error>): (e: Error)
    ensures e.message == ValidationMessage
    ensures e.metadata.Keys == {ErrorCodeKey} && e.metadata[ErrorCodeKey] == Text(errorCode)
    ensures e.reasons.Some? && e.reasons.value == fieldErrors
  {
    Error(ValidationMessage, map[ErrorCodeKey := Text(errorCode)], Some(fieldErrors))
  }

  /**
   * The ValidationError constructor: the metadata dictionary starts empty and
   * receives the error code; the reasons list starts empty and receives all
   * field errors with one AddRange. An empty list of field errors is accepted.
   */
  method NewValidationError(errorCode: string, fieldErrors: seq<Error>) returns (e: Error)
    ensures e == ValidationError(errorCode, fieldErrors)
  {
    var metadata: map<string, Value> := map[];
    metadata := metadata[ErrorCodeKey := Text(errorCode)];
    var reasons: seq<Error> := [];
    reasons := reasons + fieldErrors;
    assert reasons == fieldErrors;
    e := Error(ValidationMessage, metadata, Some(reasons));
  }
}
