# MediatoR.Alternative.Lite in Dafny

A model of the dispatch core of MediatoR.Alternative.Lite, an in-process
mediator for .NET. Callers send a request through `ISender.Send`. The `Sender`
resolves the `IRequestHandler<TRequest, TResponse>` registered for the
request's runtime type and the response type. It wraps every registered
`IPipelineBehavior<,>` around that handler, so that the first-registered
behaviour is outermost, and runs the chain. Two behaviours ship with the
library:
- `ValidationBehavior` runs the FluentValidation validators. It either
  delegates or short-circuits with one `ValidationError` that holds a
  `ValidationFieldError` per failure.
- `LoggingBehavior` logs around `next` and rethrows exceptions unchanged.

`MediatorAltExtension` populates the service collection. It registers the
Sender, one transient registration per handler interface of each scanned type,
and the two behaviours.

Modules:

- `Core` (core.dfy): the values that pass through the pipeline. These are
  requests, FluentResults-style `Result`s and `Error`s (message, metadata,
  optional reasons), exceptions, log entries, and the events of one dispatch.
- `Errors` (errors.dfy): `ValidationFieldError` and `ValidationError`. Each
  is a value function, plus a method that fills the metadata the way the
  constructor does.
- `Validation` (validation.dfy): `ValidationBehavior.Handle` and the
  flattening of validator failures into field errors.
- `Logging` (logging.dfy): `LoggingBehavior` as a class writing to a logger
  sink. Also `Traced`, the same behaviour as a pipeline stage.
- `Dispatch` (dispatch.dfy): behaviours, the chain as a value
  (`Terminal`/`Stage`), its semantics `Run`, and the class `Sender` with
  `Send` and `SendPipeline`. `SendPipeline` reverses the behaviours and wraps
  them one at a time in a loop. It is proved equal to the right fold
  `Compose`.
- `DispatchProperties` (dispatch_properties.dfy): ordering, short-circuit,
  exception-propagation and "handler runs once" properties of the chain.
- `Registration` (registration.dfy): `ServiceCollection` and the three
  extension methods. Also the LINQ filters of `AddMediatorAlt`, interface
  inheritance (`ICommandHandler`/`IQueryHandler` extend `IRequestHandler`),
  and what resolving a service yields.
- `Scenarios` (scenarios.dfy): the shipped behaviours combined in the
  order a host adds them.

How dispatch is observed. `Run` returns the outcome together with a trace of:
- `StageEntered(depth)` and `StageLeft(depth)`, where depth 0 is the
  outermost stage;
- `HandlerInvoked`;
- `Logged(entry)`.

A behaviour calls `next` exactly when its part of the trace contains the
continuation's trace. An outcome is either a returned `Result` or a thrown
exception, so exceptions are modelled as values that travel outwards.

Behaviour of the code that the model keeps:
- `ValidationFieldError.Reasons` is `null` (ValidationFieldError.cs:7), not an
  empty list. It is modelled as `None`.
- `LoggingBehavior` writes a start entry, then either a completion entry or an
  error entry (LoggingBehavior.cs:31, 42, 50). It does not record the outcome
  of a returned `Result`, so a failed `Result` is logged as a normal
  completion (`Scenarios.LoggedValidationFailure`).
- An exception raised inside the awaited `Task` of a handler or behaviour
  reaches the caller unchanged; `LoggingBehavior` rethrows it with `throw;`.
  An exception thrown synchronously by a `Handle` that `MethodInfo.Invoke`
  calls (Sender.cs:56, 79) arrives wrapped in `TargetInvocationException`.
  The model treats every exception the first way.

## Model

| member | source | states |
|---|---|---|
| Errors.ValidationFieldError | src/MediatoR.Alternative.Lite/src/MediatoR.Alternative.Lite/Errors/ValidationFieldError.cs:5-17 | the message is kept; the metadata has exactly the keys errorCode, propertyName and attemptedValue, holding the three arguments; there are no reasons |
| Errors.NewValidationFieldError | src/MediatoR.Alternative.Lite/src/MediatoR.Alternative.Lite/Errors/ValidationFieldError.cs:11-17 | adding the three entries one by one (no key is already present, so no Add throws) yields exactly `ValidationFieldError` |
| Errors.ValidationError | MediatoR.Alternative.Lite/MediatoR.Alternative.Lite/Errors/ValidationError.cs:5-16 | the message is "Validation error."; the metadata is exactly errorCode; the reasons are the field errors, in order |
| Errors.NewValidationError | MediatoR.Alternative.Lite/MediatoR.Alternative.Lite/Errors/ValidationError.cs:11-16 | starting from an empty list and metadata, the constructor's steps yield exactly `ValidationError` |
| Validation.FieldErrors | MediatoR.Alternative.Lite/MediatoR.Alternative.Lite/ValidationBehavior.cs:40-47 | one field error per reported failure, none with reasons |
| Validation.FieldErrorAt | MediatoR.Alternative.Lite/MediatoR.Alternative.Lite/ValidationBehavior.cs:40-47 | failure j of validator v lands at position (failures before v) + j, with its message, code, property and attempted value copied |
| Validation.FieldErrorOrigin | MediatoR.Alternative.Lite/MediatoR.Alternative.Lite/ValidationBehavior.cs:40-47 | every field error is the copy of some reported failure |
| Validation.Handle | MediatoR.Alternative.Lite/MediatoR.Alternative.Lite/ValidationBehavior.cs:28-54 | with no validators, or no failures, the result is exactly `next`; otherwise `next` is not run and the result is a Fail holding one ValidationError keyed by the request type's full name |
| Logging.Traced | src/MediatoR.Alternative.Lite/MediatoR.Alternative.Lite/LoggingBehavior.cs:24-54 | the outcome of `next` is passed on unchanged; `next` runs once, between a start entry holding the request and a final entry; the final entry is a completion exactly when `next` did not throw, and otherwise records the exception |
| Logging.Logger.Log | src/MediatoR.Alternative.Lite/MediatoR.Alternative.Lite/LoggingBehavior.cs:31-32 | one entry is appended to the sink |
| Logging.LoggingBehavior.Handle | src/MediatoR.Alternative.Lite/MediatoR.Alternative.Lite/LoggingBehavior.cs:24-54 | the response is what `next` produced, a thrown exception included; the sink gains exactly the start entry and then the completion or error entry |
| Dispatch.Invoke | src/MediatoR.Alternative.Lite/src/MediatoR.Alternative.Lite/IPipelineBehavior.cs:8-19 | a delegating behaviour passes on the continuation's outcome; a stopping one yields its own outcome with no events; a behaviour adds only log events to what it runs |
| Dispatch.Run | MediatoR.Alternative.Lite/MediatoR.Alternative.Lite/Sender.cs:54-87 | running a chain with at least one behaviour enters its outermost stage first and leaves it last, the exit carrying the chain's final outcome |
| Dispatch.Compose | MediatoR.Alternative.Lite/MediatoR.Alternative.Lite/Sender.cs:60-84 | the chain has one stage per behaviour, with the handler innermost |
| Dispatch.Reverse | MediatoR.Alternative.Lite/MediatoR.Alternative.Lite/Sender.cs:62-64 | same length; element i is element n-1-i of the input |
| Dispatch.Sender.Send | MediatoR.Alternative.Lite/MediatoR.Alternative.Lite/Sender.cs:22-36 | no handler for (request type, response type): a HandlerNotFound exception before any stage runs; otherwise the run of the composed chain; with no behaviours, exactly the handler's outcome |
| Dispatch.Sender.SendPipeline | MediatoR.Alternative.Lite/MediatoR.Alternative.Lite/Sender.cs:48-88 | wrapping the reversed behaviours one by one around the handler call builds the right fold `Compose`, so the first-registered behaviour is outermost |
| DispatchProperties.StageTrace | MediatoR.Alternative.Lite/MediatoR.Alternative.Lite/Sender.cs:73-83 | a stage's non-log events are its entry, what its behaviour ran, and its exit; its handler calls are those of what it ran |
| DispatchProperties.DelegatingAddsOnlyLogs | MediatoR.Alternative.Lite/MediatoR.Alternative.Lite/Sender.cs:73-83 | a modelled behaviour that calls `next` (logging, or validation reporting no failure) adds no stage event and no handler call of its own |
| DispatchProperties.ComposeSuffix | MediatoR.Alternative.Lite/MediatoR.Alternative.Lite/Sender.cs:67-84 | the chain below stage i is the chain of behaviours i.. |
| DispatchProperties.StageAt | MediatoR.Alternative.Lite/MediatoR.Alternative.Lite/Sender.cs:67-84 | stage i runs behaviour i with the chain of behaviours i+1.. as its `next` |
| DispatchProperties.OutcomeIgnoresDepth | MediatoR.Alternative.Lite/MediatoR.Alternative.Lite/Sender.cs:87 | a helper for `DelegatingStageRemovable`, about the model's own depth labels: the outcome of a chain does not depend on the depth its stages are numbered from |
| DispatchProperties.DelegatingChainNests | MediatoR.Alternative.Lite/MediatoR.Alternative.Lite/Sender.cs:60-87 | when every behaviour is a modelled one that calls `next` (logging, or validation reporting no failure): the outcome is the handler's, and the stages are entered outermost first, the handler runs, and they are left innermost first |
| DispatchProperties.TwoBehaviorsNest | MediatoR.Alternative.Lite/MediatoR.Alternative.Lite/Sender.cs:60-87 | behaviours [A, B]: A enters, B enters, the handler runs, B leaves, A leaves |
| DispatchProperties.StoppedStageHidesRest | MediatoR.Alternative.Lite/MediatoR.Alternative.Lite/Sender.cs:73-83 | once behaviour k does not call `next`, the handler never runs and no stage below k is entered |
| DispatchProperties.FirstStopDecides | MediatoR.Alternative.Lite/MediatoR.Alternative.Lite/Sender.cs:60-87 | the outcome is that of the first behaviour that does not call `next` (its Result, or the exception it throws) |
| DispatchProperties.HandlerCalledOnceIffAllDelegate | MediatoR.Alternative.Lite/MediatoR.Alternative.Lite/Sender.cs:54-87 | the handler runs exactly once if every behaviour calls `next`, and never otherwise |
| DispatchProperties.HandlerResultKept | MediatoR.Alternative.Lite/MediatoR.Alternative.Lite/Sender.cs:54-83 | once the handler has run, the chain's outcome is the handler's: every modelled behaviour that calls `next` (logging, or validation reporting no failure) returns what `next` returned |
| DispatchProperties.SameRequestEverywhere | MediatoR.Alternative.Lite/MediatoR.Alternative.Lite/Sender.cs:56-81 | every stage, the handler and the logger see the same request and cancellation token |
| DispatchProperties.DelegatingStageRemovable | MediatoR.Alternative.Lite/MediatoR.Alternative.Lite/Sender.cs:60-87 | removing a modelled behaviour that calls `next` (logging, or validation reporting no failure) leaves the outcome unchanged |
| DispatchProperties.ValidationFailureShortCircuits | MediatoR.Alternative.Lite/MediatoR.Alternative.Lite/ValidationBehavior.cs:50-53 | a failing validation stage reached by the request makes Send fail with one ValidationError holding one field error per failure, and the handler never runs |
| Registration.Expand | src/MediatoR.Alternative.Lite/src/MediatoR.Alternative.Lite/ICommandHandler.cs:8 | every declared interface is kept, and a type has IRequestHandler<TReq, TResp> exactly when it declares it, ICommandHandler<TReq, TResp> or IQueryHandler<TReq, TResp> |
| Registration.Distinct | src/MediatoR.Alternative.Lite/src/MediatoR.Alternative.Lite/MediatorAltExtension.cs:33 | the same members as the input, each once |
| Registration.GetInterfaces | src/MediatoR.Alternative.Lite/src/MediatoR.Alternative.Lite/MediatorAltExtension.cs:33 | the declared interfaces and those they extend, without repeats; IRequestHandler<TReq, TResp> is among them exactly when the type declares it or a command or query handler for the same pair |
| Registration.HandlerKeys | src/MediatoR.Alternative.Lite/src/MediatoR.Alternative.Lite/MediatorAltExtension.cs:33-35 | the keys kept are exactly those of the IRequestHandler<,> interfaces |
| Registration.HandlerTypes | src/MediatoR.Alternative.Lite/src/MediatoR.Alternative.Lite/MediatorAltExtension.cs:27-29 | a type is kept exactly when it is scanned and has some IRequestHandler<,> |
| Registration.ServiceCollection.Add | src/MediatoR.Alternative.Lite/src/MediatoR.Alternative.Lite/MediatorAltExtension.cs:40 | one descriptor is appended |
| Registration.ServiceCollection.AddMediatorAlt | src/MediatoR.Alternative.Lite/src/MediatoR.Alternative.Lite/MediatorAltExtension.cs:21-45 | the same collection is returned; it gains the scoped Sender and then the handler registrations, type by type and interface by interface |
| Registration.ServiceCollection.AddHandler | src/MediatoR.Alternative.Lite/src/MediatoR.Alternative.Lite/MediatorAltExtension.cs:33-41 | the collection gains exactly the transient registrations of one handler type |
| Registration.ServiceCollection.AddMediatorAltLogging | src/MediatoR.Alternative.Lite/src/MediatoR.Alternative.Lite/MediatorAltExtension.cs:57-58 | one transient open-generic LoggingBehavior registration is appended, and it becomes the last pipeline behaviour |
| Registration.ServiceCollection.AddMediatorAltFluentValidation | src/MediatoR.Alternative.Lite/src/MediatoR.Alternative.Lite/MediatorAltExtension.cs:70-71 | one transient open-generic ValidationBehavior registration is appended, and it becomes the last pipeline behaviour |
| Registration.RegistrationsMembers | src/MediatoR.Alternative.Lite/src/MediatoR.Alternative.Lite/MediatorAltExtension.cs:38-41 | a type's registrations are exactly the transient ones of its IRequestHandler<,> interfaces to it |
| Registration.RegistrationsOfMembers | src/MediatoR.Alternative.Lite/src/MediatoR.Alternative.Lite/MediatorAltExtension.cs:31-42 | the registrations of several types are exactly those of one of them |
| Registration.HandlerRegisteredIffImplements | src/MediatoR.Alternative.Lite/src/MediatoR.Alternative.Lite/MediatorAltExtension.cs:27-42 | a descriptor is added exactly when it is a transient IRequestHandler<TReq, TResp> registration of a scanned type having that interface |
| Registration.InheritedHandlerRegistered | src/MediatoR.Alternative.Lite/tests/MediatoR.Alternative.Lite.Tests/Unit/CommandQueryHandlersDIRegisterTests.cs:26-33 | a scanned command or query handler is registered under IRequestHandler<TReq, TResp> |
| Registration.HandlerInterfacesMakeHandler | src/MediatoR.Alternative.Lite/src/MediatoR.Alternative.Lite/MediatorAltExtension.cs:27-35 | a type with a handler interface passes the outer filter |
| Registration.RegistrationCount | src/MediatoR.Alternative.Lite/src/MediatoR.Alternative.Lite/MediatorAltExtension.cs:31-42 | the number of handler registrations is the total number of IRequestHandler<,> interfaces of the scanned types |
| Registration.BehaviorTypesAppend | src/MediatoR.Alternative.Lite/src/MediatoR.Alternative.Lite/MediatorAltExtension.cs:57-71 | the pipeline behaviours of a concatenation are those of each part, in order |
| Registration.RegistrationAddsNoBehavior | src/MediatoR.Alternative.Lite/src/MediatoR.Alternative.Lite/MediatorAltExtension.cs:21-45 | AddMediatorAlt leaves the list of pipeline behaviours unchanged |
| Registration.NoBehaviorAmong | src/MediatoR.Alternative.Lite/src/MediatoR.Alternative.Lite/MediatorAltExtension.cs:38-41 | handler registrations contribute no pipeline behaviour |
| Registration.BehaviorTypes | MediatoR.Alternative.Lite/MediatoR.Alternative.Lite/Sender.cs:62 | the behaviours `GetServices` yields are exactly the implementations of the pipeline-behaviour registrations (in registration order, by `BehaviorTypesAppend`) |
| Registration.Resolve | MediatoR.Alternative.Lite/MediatoR.Alternative.Lite/Sender.cs:32 | nothing exactly when no registration is for the service; otherwise the implementation of a registration for it after which none is for it: the last registration wins |
| Registration.ResolveAppend | MediatoR.Alternative.Lite/MediatoR.Alternative.Lite/Sender.cs:32 | later registrations of a service take precedence over earlier ones |
| Registration.HandlerRegistrationResolves | src/MediatoR.Alternative.Lite/src/MediatoR.Alternative.Lite/MediatorAltExtension.cs:31-42 | among the handler registrations alone, IRequestHandler<TReq, TResp> resolves to a scanned type implementing it, and to nothing when no scanned type implements it |
| Registration.HandlerResolvable | src/MediatoR.Alternative.Lite/tests/MediatoR.Alternative.Lite.Tests/Unit/MediatorAltExtensionTests.cs:97-123 | after AddMediatorAlt, IRequestHandler<TReq, TResp> resolves to a scanned type implementing it when one exists; otherwise resolution is as before |
| Scenarios.ConfiguredBehaviorOrder | src/MediatoR.Alternative.Lite/src/MediatoR.Alternative.Lite/MediatorAltExtension.cs:21-71 | AddMediatorAlt, then AddMediatorAltLogging, then AddMediatorAltFluentValidation: logging comes before validation |
| Scenarios.LoggedValidationFailure | src/MediatoR.Alternative.Lite/MediatoR.Alternative.Lite/LoggingBehavior.cs:37-45 | logging around a failing validation: the handler does not run, the caller gets the ValidationError, and the log shows a completion |
| Scenarios.ValidationBeforeLogging | MediatoR.Alternative.Lite/MediatoR.Alternative.Lite/ValidationBehavior.cs:50-53 | a failing validation outside logging keeps the logger from writing anything |
| Scenarios.LoggedHandlerException | src/MediatoR.Alternative.Lite/MediatoR.Alternative.Lite/LoggingBehavior.cs:47-52 | a handler exception passes through validation and logging unchanged, and the last log entry records it |
| Scenarios.TwoValidatorsThreeReasons | MediatoR.Alternative.Lite/MediatoR.Alternative.Lite/ValidationBehavior.cs:40-53 | validators reporting one and two failures give one ValidationError whose three reasons follow validator order and then each validator's own order |

## Left out

- Reflection is not modelled. This covers `GetType`, `MakeGenericType`,
  `GetMethod("Handle")`, `Invoke` and `dynamic`. A handler is its `process`
  function, and a request carries its runtime type's full name.
- Exception wrapping is not modelled. `MethodInfo.Invoke` wraps exceptions
  thrown synchronously by a handler in `TargetInvocationException`; the model
  lets every exception travel unchanged.
- Async is not modelled: `Task`, `await`, the concurrent `Task.WhenAll`
  fan-out of validators, and cancellation. The cancellation token is passed
  along and never fires.
- Dispatch.ServiceProvider: building the provider from the collection is not
  modelled. The same goes for lifetimes at resolution time and constructor
  injection. The provider is given as handlers by key and the behaviour list
  per key, in registration order. `Registration.Resolve` models which
  registration wins.
- Dispatch.Sender.Send: `GetRequiredService` throws InvalidOperationException
  on a missing handler. Here that is the `HandlerNotFound` exception value.
- FluentValidation is not modelled. Each validator is given as the
  `ValidationResult` it reports, so a validator that throws is not modelled.
- FluentResults is not modelled: success reasons, error chaining and
  `Result.Ok` shapes. A `Result` is Ok(value) or Fail(errors).
- Errors are values. The public setters of `ValidationError.Reasons` and
  `Metadata` are not modelled, and neither is reference identity.
- `null` arguments to the error constructors are not modelled (a `null`
  errorCode is a Dictionary value). An attempted value of `null` is `Value.Null`.
- Logging.LoggingBehavior.Handle: the `Stopwatch`, the elapsed milliseconds
  and the message templates are not modelled. A logger sink that throws is not
  modelled either; in the source the catch block would log and rethrow that
  too.
- Dispatch.Sender.SendPipeline: the model dispatches normally to a handler
  type that implements two `IRequestHandler<,>` interfaces, which
  MediatorAltExtension.cs:19 says is supported. From the code (Sender.cs:51):
  `GetMethod("Handle")` would throw
  `AmbiguousMatchException` for such a type when both `Handle` methods are
  public, so every `Send` to it would throw before any behaviour runs. With
  explicit interface implementations `GetMethod` would return null, and line
  56 would throw `NullReferenceException` when the handler call is reached.
  The model's handler is just its `process` function and does not capture
  either failure.
- Dispatch.Behavior: the library ships only the logging and validation
  behaviours. ShortCircuit and Faulting stand for user-written behaviours that
  return a Result or throw without calling `next`. A user behaviour that calls
  `next` and then changes its Result, catches its exception and returns
  something else, or calls it more than once, is not modelled: every modelled
  behaviour that calls `next` returns exactly what `next` returned.
  `DispatchProperties.DelegatingAddsOnlyLogs`, `HandlerResultKept`,
  `DelegatingStageRemovable` and the outcome clause of `DelegatingChainNests`
  therefore hold for the shipped behaviours and the two stand-ins only.
- Trace events are model instrumentation. They show which stages and the
  handler ran, and in what order.
- `Assembly.GetCallingAssembly().GetTypes()` is not modelled. The scanned
  types are a parameter of `AddMediatorAlt`. The `AddMediatorAlt(params
  Assembly[])` overload that the tests call does not exist in this source.
- Registration.GetInterfaces: the order of `Type.GetInterfaces()` is
  unspecified in .NET. It is taken as declaration order, each extended
  interface right after the interface that extends it. Only the extension
  chains `ICommandHandler`/`IQueryHandler` → `IRequestHandler` are modelled.
  Interfaces inherited from base classes are counted among the declared ones.
  Open generic handler types are not modelled.
- The test helper that compiles assemblies at run time is not part of this
  model.
