/**
 * The shipped behaviours combined, in the order a host configures them:
 * AddMediatorAltLogging and then AddMediatorAltFluentValidation, so that
 * logging is the outer stage and validation the inner one.
 */
module Scenarios {
  import opened Core
  import opened Errors
  import opened Validation
  import opened Dispatch
  import Logging
  import Registration

  /** The two behaviour registrations, in the order the host adds them, follow AddMediatorAlt's. */
  lemma ConfiguredBehaviorOrder(descriptors: seq<Registration.ServiceDescriptor>, types: seq<Registration.TypeDescriptor>)
    ensures var configured := descriptors + [Registration.SenderRegistration] + Registration.HandlerRegistrations(types)
        + [Registration.ServiceDescriptor(Registration.PipelineBehaviorService, Registration.LoggingBehaviorType, Registration.Transient)]
        + [Registration.ServiceDescriptor(Registration.PipelineBehaviorService, Registration.ValidationBehaviorType, Registration.Transient)];
      Registration.BehaviorTypes(configured)
        == Registration.BehaviorTypes(descriptors) + [Registration.LoggingBehaviorType, Registration.ValidationBehaviorType]
  {
    var registered := descriptors + [Registration.SenderRegistration] + Registration.HandlerRegistrations(types);
    var logging := Registration.ServiceDescriptor(Registration.PipelineBehaviorService, Registration.LoggingBehaviorType, Registration.Transient);
    var validation := Registration.ServiceDescriptor(Registration.PipelineBehaviorService, Registration.ValidationBehaviorType, Registration.Transient);
    Registration.RegistrationAddsNoBehavior(descriptors, types);
    Registration.BehaviorTypesAppend(registered, [logging]);
    Registration.BehaviorTypesAppend(registered + [logging], [validation]);
  }

  /**
   * Logging outside a failing validation: the handler is never reached, the
   * caller gets one ValidationError, and the logger records a normal
   * completion, because a failed Result is not an exception.
   */
  lemma LoggedValidationFailure(validators: seq<ValidationResult>, handler: Handler, request: Request, token: CancelToken)
    requires FailureCount(validators) > 0
    ensures var o := Returned(Fail([ValidationError(request.typeFullName, FieldErrors(validators))]));
      var e := Run(Compose([LoggingBehavior, ValidationBehavior(validators)], handler), request, token, 0);
      && e.outcome == o
      && e.trace == [StageEntered(0, request, token), Logged(Handling(request)),
                     StageEntered(1, request, token), StageLeft(1, o),
                     Logged(Completed), StageLeft(0, o)]
  {
    assert [LoggingBehavior, ValidationBehavior(validators)][1..] == [ValidationBehavior(validators)];
    assert [ValidationBehavior(validators)][1..] == [];
  }

  /** Validation outside logging: a failing validation keeps the logger from writing anything. */
  lemma ValidationBeforeLogging(validators: seq<ValidationResult>, handler: Handler, request: Request, token: CancelToken)
    requires FailureCount(validators) > 0
    ensures var o := Returned(Fail([ValidationError(request.typeFullName, FieldErrors(validators))]));
      Run(Compose([ValidationBehavior(validators), LoggingBehavior], handler), request, token, 0)
        == Execution(o, [StageEntered(0, request, token), StageLeft(0, o)])
  {
    assert [ValidationBehavior(validators), LoggingBehavior][1..] == [LoggingBehavior];
    assert [LoggingBehavior][1..] == [];
  }

  /**
   * A handler that throws, behind logging and a passing validation: the
   * exception reaches the caller unchanged and the last log entry records it.
   */
  lemma LoggedHandlerException(
    validators: seq<ValidationResult>, handler: Handler, request: Request, token: CancelToken, exception: Exception)
    requires FailureCount(validators) == 0
    requires handler.process(request, token) == Threw(exception)
    ensures var e := Run(Compose([LoggingBehavior, ValidationBehavior(validators)], handler), request, token, 0);
      && e.outcome == Threw(exception)
      && e.trace == [StageEntered(0, request, token), Logged(Handling(request)),
                     StageEntered(1, request, token), HandlerInvoked(request, token), StageLeft(1, Threw(exception)),
                     Logged(Failed(exception)), StageLeft(0, Threw(exception))]
  {
    assert [LoggingBehavior, ValidationBehavior(validators)][1..] == [ValidationBehavior(validators)];
    var thrown := Threw(exception);
    var inner := Run(Compose([ValidationBehavior(validators)], handler), request, token, 1);
    PassingValidationStage(validators, handler, request, token, thrown);
    assert Logging.Traced(request, inner).trace == [Logged(Handling(request))] + inner.trace + [Logged(Failed(exception))];
  }

  lemma PassingValidationStage(validators: seq<ValidationResult>, handler: Handler, request: Request, token: CancelToken, o: Outcome)
    requires FailureCount(validators) == 0
    requires handler.process(request, token) == o
    ensures Run(Compose([ValidationBehavior(validators)], handler), request, token, 1)
      == Execution(o, [StageEntered(1, request, token), HandlerInvoked(request, token), StageLeft(1, o)])
  {
    assert [ValidationBehavior(validators)][1..] == [];
    assert Compose([ValidationBehavior(validators)], handler) == Stage(ValidationBehavior(validators), Terminal(handler));
    var call := Run(Terminal(handler), request, token, 2);
    assert Invoke(ValidationBehavior(validators), request, call) == call;
  }

  /**
   * Two validators reporting one and two failures: one ValidationError whose
   * three reasons follow validator order, then each validator's own order.
   */
  lemma TwoValidatorsThreeReasons(request: Request, next: Execution, f1: ValidationFailure, f2: ValidationFailure, f3: ValidationFailure)
    ensures var e := Validation.Handle(request, [ValidationResult([f1]), ValidationResult([f2, f3])], next);
      && e.trace == []
      && e.outcome.Returned? && e.outcome.result.Fail? && |e.outcome.result.errors| == 1
      && e.outcome.result.errors[0].reasons == Some([ToFieldError(f1), ToFieldError(f2), ToFieldError(f3)])
  {
    var validators := [ValidationResult([f1]), ValidationResult([f2, f3])];
    assert validators[1..] == [ValidationResult([f2, f3])];
    assert validators[1..][1..] == [];
    assert validators[..0] == [] && validators[..1] == [ValidationResult([f1])];
    FieldErrorAt(validators, 0, 0);
    FieldErrorAt(validators, 1, 0);
    FieldErrorAt(validators, 1, 1);
    assert FieldErrors(validators) == [ToFieldError(f1), ToFieldError(f2), ToFieldError(f3)];
  }
}
