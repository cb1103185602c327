/**
 * The Sender: resolves the handler registered for (runtime request type,
 * response type), wraps the registered pipeline behaviours around it and
 * runs the resulting chain.
 *
 * The chain is a value: `Terminal(h)` is the direct handler call and
 * `Stage(b, next)` is behaviour `b` with `next` as its continuation. Running
 * it (Run) yields the outcome together with the events it produced.
 */
module Dispatch {
  import opened Core
  import Validation
  import Errors
  import Logging

  /** A resolved handler: its implementation type and what its Handle does. */
  datatype Handler = Handler(implementation: string, process: (Request, CancelToken) -> Outcome)

  /**
   * A registered pipeline behaviour. ShortCircuit and Faulting stand for
   * user behaviours that return a Result, or throw, without calling `next`.
   * Every behaviour here that calls `next` returns what `next` returned.
   */
  datatype Behavior =
    | LoggingBehavior
    | ValidationBehavior(validators: seq<Validation.ValidationResult>)
    | ShortCircuit(result: Result<Value>)
    | Faulting(exception: Exception)

  datatype Pipeline = Terminal(handler: Handler) | Stage(behavior: Behavior, next: Pipeline)

  /** What the service provider resolves: handlers by key, and the behaviours applicable to a key. */
  datatype ServiceProvider = ServiceProvider(handlers: map<HandlerKey, Handler>, behaviors: HandlerKey -> seq<Behavior>)

  /** A behaviour that calls `next` on this request. */
  predicate Delegates(b: Behavior)
  {
    b.LoggingBehavior? || (b.ValidationBehavior? && Validation.FailureCount(b.validators) == 0)
  }

  /** What a behaviour that does not call `next` produces instead. */
  function StopOutcome(b: Behavior, request: Request): Outcome
    requires !Delegates(b)
  {
    match b
    case ValidationBehavior(vs) =>
      Returned(Fail([Errors.ValidationError(request.typeFullName, Validation.FieldErrors(vs))]))
    case ShortCircuit(r) => Returned(r)
    case Faulting(x) => Threw(x)
  }

  /**
   * The Handle method of behaviour `b`, given what the continuation would
   * produce: a delegating behaviour passes its outcome on, any other ignores it.
   */
  function Invoke(b: Behavior, request: Request, next: Execution): (e: Execution)
    ensures Delegates(b) ==> e.outcome == next.outcome
    ensures !Delegates(b) ==> e == Execution(StopOutcome(b, request), [])
    ensures forall ev :: ev in e.trace ==> ev in next.trace || ev.Logged?
  {
    match b
    case LoggingBehavior => Logging.Traced(request, next)
    case ValidationBehavior(vs) => Validation.Handle(request, vs, next)
    case ShortCircuit(r) => Execution(Returned(r), [])
    case Faulting(x) => Execution(Threw(x), [])
  }

  /**
   * Running a chain whose outermost stage sits at `depth`: that stage is
   * entered first and left last, carrying the final outcome.
   */
  function Run(p: Pipeline, request: Request, token: CancelToken, depth: nat): (e: Execution)
    ensures p.Stage? ==> |e.trace| >= 2 && e.trace[0] == StageEntered(depth, request, token)
                         && e.trace[|e.trace| - 1] == StageLeft(depth, e.outcome)
    decreases p
  {
    match p
    case Terminal(h) => Execution(h.process(request, token), [HandlerInvoked(request, token)])
    case Stage(b, next) =>
      var e := Invoke(b, request, Run(next, request, token, depth + 1));
      Execution(e.outcome, [StageEntered(depth, request, token)] + e.trace + [StageLeft(depth, e.outcome)])
  }

  /** The number of behaviour stages around the handler. */
  function Depth(p: Pipeline): nat
  {
    match p
    case Terminal(_) => 0
    case Stage(_, next) => 1 + Depth(next)
  }

  /** The handler at the centre of a chain. */
  function Innermost(p: Pipeline): Handler
  {
    match p
    case Terminal(h) => h
    case Stage(_, next) => Innermost(next)
  }

  /**
   * The chain for behaviours in registration order: the first one is the
   * outermost stage and the handler is innermost (a right fold).
   */
  function Compose(behaviors: seq<Behavior>, handler: Handler): (p: Pipeline)
    ensures Depth(p) == |behaviors|
    ensures Innermost(p) == handler
    decreases |behaviors|
  {
    if behaviors == [] then Terminal(handler)
    else Stage(behaviors[0], Compose(behaviors[1..], handler))
  }

  /** Enumerable.Reverse. */
  function Reverse<T>(s: seq<T>): (r: seq<T>)
    ensures |r| == |s|
    ensures forall i :: 0 <= i < |s| ==> r[i] == s[|s| - 1 - i]
  {
    if s == [] then [] else Reverse(s[1..]) + [s[0]]
  }

  class Sender {
    const provider: ServiceProvider

    constructor (provider: ServiceProvider)
      ensures this.provider == provider
    {
      this.provider := provider;
    }

    /**
     * Sender.Send: a missing handler is an exception raised before any stage
     * runs; otherwise the composed chain runs and its outcome is returned.
     */
    method Send(request: Request, responseType: string, token: CancelToken) returns (e: Execution)
      ensures var key := HandlerKey(request.typeFullName, responseType);
        && (key !in provider.handlers ==> e == Execution(Threw(HandlerNotFound(key)), []))
        && (key in provider.handlers ==>
              e == Run(Compose(provider.behaviors(key), provider.handlers[key]), request, token, 0))
        && (key in provider.handlers && provider.behaviors(key) == [] ==>
              e.outcome == provider.handlers[key].process(request, token))
    {
      var key := HandlerKey(request.typeFullName, responseType);
      if key !in provider.handlers {
        return Execution(Threw(HandlerNotFound(key)), []);
      }
      var handler := provider.handlers[key];
      e := SendPipeline(request, handler, key, token);
    }

    /**
     * Sender.SendPipeline: the behaviours are reversed and each one in turn is
     * wrapped around the chain built so far, which starts as the handler call.
     */
    method SendPipeline(request: Request, handler: Handler, key: HandlerKey, token: CancelToken) returns (e: Execution)
      ensures e == Run(Compose(provider.behaviors(key), handler), request, token, 0)
    {
      var pipeline := Terminal(handler);
      var registered := provider.behaviors(key);
      var behaviors := Reverse(registered);
      for i := 0 to |behaviors|
        invariant pipeline == Compose(registered[|registered| - i..], handler)
      {
        var current := behaviors[i];
        var next := pipeline;
        pipeline := Stage(current, next);
        assert registered[|registered| - (i + 1)..][1..] == registered[|registered| - i..];
      }
      assert registered[0..] == registered;
      e := Run(pipeline, request, token, 0);
    }
  }
}
