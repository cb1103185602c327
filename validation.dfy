/**
 * ValidationBehavior: runs the validators bound to the request's type,
 * flattens their failures into ValidationFieldErrors and either delegates to
 * the rest of the pipeline or short-circuits with one ValidationError.
 *
 * The validators are external; each is represented by what it reported for
 * the request (its ValidationResult). `next` is the Execution the rest of the
 * pipeline would produce: Handle calls it exactly when its result contains it.
 */
module Validation {
  import opened Core
  import opened Errors

  /** One failure a validator reports. */
  datatype ValidationFailure = ValidationFailure(errorMessage: string, errorCode: string, propertyName: string, attemptedValue: Value)

  /** What one validator reported: its failures, in its own order. */
  datatype ValidationResult = ValidationResult(errors: seq<ValidationFailure>)

  /** The Select step: one failure becomes one field error, its four fields copied. */
  function ToFieldError(f: ValidationFailure): Error
  {
    ValidationFieldError(f.errorMessage, f.errorCode, f.propertyName, f.attemptedValue)
  }

  /** The total number of failures the validators reported. */
  function FailureCount(results: seq<ValidationResult>): nat
  {
    if results == [] then 0 else |results[0].errors| + FailureCount(results[1..])
  }

  /**
   * The SelectMany/Select/ToList expression: every validator's failures, in
   * validator order and then in each validator's own order, as field errors.
   */
  function FieldErrors(results: seq<ValidationResult>): (errors: seq<Error>)
    ensures |errors| == FailureCount(results)
    ensures forall i :: 0 <= i < |errors| ==> errors[i].reasons == None
  {
    if results == [] then []
    else
      var first := results[0].errors;
      seq(|first|, i requires 0 <= i < |first| => ToFieldError(first[i])) + FieldErrors(results[1..])
  }

  /** ValidationBehavior.Handle. */
  function Handle(request: Request, validators: seq<ValidationResult>, next: Execution): (e: Execution)
    ensures |validators| == 0 ==> e == next
    ensures FailureCount(validators) == 0 ==> e == next
    ensures FailureCount(validators) > 0 ==>
      && e.trace == []
      && e.outcome == Returned(Fail([ValidationError(request.typeFullName, FieldErrors(validators))]))
  {
    if |validators| == 0 then next
    else
      var errors := FieldErrors(validators);
      if |errors| == 0 then next
      else Execution(Returned(Fail([ValidationError(request.typeFullName, errors)])), [])
  }

  /**
   * Where a failure lands: failure j of validator v is field error number
   * (failures of the validators before v) + j, copied from that failure.
   */
  lemma {:induction false} FieldErrorAt(results: seq<ValidationResult>, v: nat, j: nat)
    requires v < |results| && j < |results[v].errors|
    ensures FailureCount(results[..v]) + j < |FieldErrors(results)|
    ensures FieldErrors(results)[FailureCount(results[..v]) + j] == ToFieldError(results[v].errors[j])
  {
    if v == 0 {
      assert results[..0] == [];
    } else {
      var rest := results[1..];
      assert results[..v][1..] == rest[..v - 1];
      assert results[..v][0] == results[0];
      FieldErrorAt(rest, v - 1, j);
      assert rest[v - 1] == results[v];
    }
  }

  /** Every field error comes from some failure: none is invented. */
  lemma {:induction false} FieldErrorOrigin(results: seq<ValidationResult>, k: nat)
    requires k < |FieldErrors(results)|
    ensures exists v, j ::
              && 0 <= v < |results| && 0 <= j < |results[v].errors|
              && FieldErrors(results)[k] == ToFieldError(results[v].errors[j])
  {
    if results != [] {
      var first := results[0].errors;
      if k < |first| {
        assert FieldErrors(results)[k] == ToFieldError(results[0].errors[k]);
      } else {
        FieldErrorOrigin(results[1..], k - |first|);
        var v, j :| 0 <= v < |results[1..]| && 0 <= j < |results[1..][v].errors| &&
          FieldErrors(results[1..])[k - |first|] == ToFieldError(results[1..][v].errors[j]);
        assert results[1..][v] == results[v + 1];
      }
    }
  }
}
