/**
 * What the Sender's chain guarantees: the order in which stages run, that a
 * stage which does not call `next` hides everything inside it, how often the
 * handler runs, and that every stage sees the same request and token.
 */
module DispatchProperties {
  import opened Core
  import opened Dispatch
  import Validation
  import Errors

  /** Every behaviour calls `next`. */
  predicate AllDelegate(behaviors: seq<Behavior>)
  {
    forall i :: 0 <= i < |behaviors| ==> Delegates(behaviors[i])
  }

  /** The continuation below the outermost `i` stages. */
  function Suffix(p: Pipeline, i: nat): Pipeline
    requires i <= Depth(p)
  {
    if i == 0 then p
    else
      match p
      case Stage(_, next) => Suffix(next, i - 1)
  }

  /** The events of a trace other than log entries. */
  function StageEvents(t: seq<Event>): seq<Event>
  {
    if t == [] then [] else (if t[0].Logged? then [] else [t[0]]) + StageEvents(t[1..])
  }

  /** How many times a trace shows the handler being invoked. */
  function HandlerCalls(t: seq<Event>): nat
  {
    if t == [] then 0 else (if t[0].HandlerInvoked? then 1 else 0) + HandlerCalls(t[1..])
  }

  /** Stages depth, depth + 1, ..., depth + n - 1 being entered, outermost first. */
  function Opening(depth: nat, n: nat, request: Request, token: CancelToken): seq<Event>
    decreases n
  {
    if n == 0 then [] else [StageEntered(depth, request, token)] + Opening(depth + 1, n - 1, request, token)
  }

  /** The same stages being left, innermost first. */
  function Closing(depth: nat, n: nat, outcome: Outcome): seq<Event>
    decreases n
  {
    if n == 0 then [] else Closing(depth + 1, n - 1, outcome) + [StageLeft(depth, outcome)]
  }

  lemma {:induction false} StageEventsAppend(a: seq<Event>, b: seq<Event>)
    ensures StageEvents(a + b) == StageEvents(a) + StageEvents(b)
  {
    if a == [] {
      assert a + b == b;
    } else {
      assert (a + b)[1..] == a[1..] + b;
      StageEventsAppend(a[1..], b);
    }
  }

  lemma {:induction false} HandlerCallsAppend(a: seq<Event>, b: seq<Event>)
    ensures HandlerCalls(a + b) == HandlerCalls(a) + HandlerCalls(b)
  {
    if a == [] {
      assert a + b == b;
    } else {
      assert (a + b)[1..] == a[1..] + b;
      HandlerCallsAppend(a[1..], b);
    }
  }

  /** A stage's own events: its entry, what its behaviour produced, and its exit. */
  lemma StageTrace(b: Behavior, next: Pipeline, request: Request, token: CancelToken, depth: nat)
    ensures var e := Invoke(b, request, Run(next, request, token, depth + 1));
      && StageEvents(Run(Stage(b, next), request, token, depth).trace)
         == [StageEntered(depth, request, token)] + StageEvents(e.trace) + [StageLeft(depth, e.outcome)]
      && HandlerCalls(Run(Stage(b, next), request, token, depth).trace) == HandlerCalls(e.trace)
  {
    var e := Invoke(b, request, Run(next, request, token, depth + 1));
    var entered, left := [StageEntered(depth, request, token)], [StageLeft(depth, e.outcome)];
    StageEventsAppend(entered + e.trace, left);
    StageEventsAppend(entered, e.trace);
    HandlerCallsAppend(entered + e.trace, left);
    HandlerCallsAppend(entered, e.trace);
  }

  /** A delegating behaviour adds only log entries around the continuation's events. */
  lemma {:induction false} DelegatingAddsOnlyLogs(b: Behavior, request: Request, next: Execution)
    requires Delegates(b)
    ensures StageEvents(Invoke(b, request, next).trace) == StageEvents(next.trace)
    ensures HandlerCalls(Invoke(b, request, next).trace) == HandlerCalls(next.trace)
  {
    if b.LoggingBehavior? {
      var t := Invoke(b, request, next).trace;
      var first, last := [t[0]], [t[|t| - 1]];
      assert t == first + next.trace + last;
      StageEventsAppend(first + next.trace, last);
      StageEventsAppend(first, next.trace);
      HandlerCallsAppend(first + next.trace, last);
      HandlerCallsAppend(first, next.trace);
    }
  }

  /**
   * Each stage's `next` is the chain of the later-registered behaviours and
   * the handler: the stage at depth i runs behaviours[i].
   */
  lemma {:induction false} ComposeSuffix(behaviors: seq<Behavior>, handler: Handler, i: nat)
    requires i <= |behaviors|
    ensures Suffix(Compose(behaviors, handler), i) == Compose(behaviors[i..], handler)
  {
    if i == 0 {
      assert behaviors[0..] == behaviors;
    } else {
      ComposeSuffix(behaviors[1..], handler, i - 1);
      assert behaviors[1..][i - 1..] == behaviors[i..];
    }
  }

  lemma StageAt(behaviors: seq<Behavior>, handler: Handler, i: nat)
    requires i < |behaviors|
    ensures Suffix(Compose(behaviors, handler), i) == Stage(behaviors[i], Compose(behaviors[i + 1..], handler))
  {
    ComposeSuffix(behaviors, handler, i);
    assert behaviors[i..][1..] == behaviors[i + 1..];
  }

  /** The outcome of a chain does not depend on where its stages are numbered from. */
  lemma {:induction false} OutcomeIgnoresDepth(p: Pipeline, request: Request, token: CancelToken, d1: nat, d2: nat)
    ensures Run(p, request, token, d1).outcome == Run(p, request, token, d2).outcome
  {
    match p
    case Terminal(_) =>
    case Stage(b, next) =>
      OutcomeIgnoresDepth(next, request, token, d1 + 1, d2 + 1);
  }

  /**
   * When every behaviour calls `next`, the chain returns exactly what the
   * handler returned (a Result unchanged, an exception propagated), and the
   * stages nest: entered first-registered first, left in the reverse order,
   * with the handler in between.
   */
  lemma {:induction false} DelegatingChainNests(
    behaviors: seq<Behavior>, handler: Handler, request: Request, token: CancelToken, depth: nat)
    requires AllDelegate(behaviors)
    ensures var e := Run(Compose(behaviors, handler), request, token, depth);
      var o := handler.process(request, token);
      && e.outcome == o
      && StageEvents(e.trace)
         == Opening(depth, |behaviors|, request, token) + [HandlerInvoked(request, token)] + Closing(depth, |behaviors|, o)
  {
    var o := handler.process(request, token);
    if behaviors == [] {
      assert StageEvents([HandlerInvoked(request, token)]) == [HandlerInvoked(request, token)];
    } else {
      var rest := behaviors[1..];
      assert AllDelegate(rest) by {
        forall i | 0 <= i < |rest| ensures Delegates(rest[i]) {
          assert rest[i] == behaviors[i + 1];
        }
      }
      DelegatingChainNests(rest, handler, request, token, depth + 1);
      var inner := Run(Compose(rest, handler), request, token, depth + 1);
      DelegatingAddsOnlyLogs(behaviors[0], request, inner);
      StageTrace(behaviors[0], Compose(rest, handler), request, token, depth);
      assert Compose(behaviors, handler) == Stage(behaviors[0], Compose(rest, handler));
      NestingStep(depth, |behaviors|, request, token, o,
                  StageEvents(Run(Compose(behaviors, handler), request, token, depth).trace));
    }
  }

  lemma NestingStep(depth: nat, n: nat, request: Request, token: CancelToken, o: Outcome, s: seq<Event>)
    requires n > 0
    requires s == [StageEntered(depth, request, token)]
                  + (Opening(depth + 1, n - 1, request, token) + [HandlerInvoked(request, token)] + Closing(depth + 1, n - 1, o))
                  + [StageLeft(depth, o)]
    ensures s == Opening(depth, n, request, token) + [HandlerInvoked(request, token)] + Closing(depth, n, o)
  {
  }

  /** For behaviours [A, B] that both call `next`: A in, B in, handler, B out, A out. */
  lemma TwoBehaviorsNest(a: Behavior, b: Behavior, handler: Handler, request: Request, token: CancelToken)
    requires Delegates(a) && Delegates(b)
    ensures var o := handler.process(request, token);
      StageEvents(Run(Compose([a, b], handler), request, token, 0).trace)
      == [StageEntered(0, request, token), StageEntered(1, request, token), HandlerInvoked(request, token),
          StageLeft(1, o), StageLeft(0, o)]
  {
    DelegatingChainNests([a, b], handler, request, token, 0);
    var o := handler.process(request, token);
    assert Opening(0, 2, request, token) == [StageEntered(0, request, token), StageEntered(1, request, token)];
    assert Closing(0, 2, o) == [StageLeft(1, o), StageLeft(0, o)];
  }

  /**
   * A behaviour that does not call `next` hides the handler and every
   * later-registered behaviour: none of them is entered.
   */
  lemma {:induction false} StoppedStageHidesRest(
    behaviors: seq<Behavior>, handler: Handler, request: Request, token: CancelToken, depth: nat, k: nat)
    requires k < |behaviors| && !Delegates(behaviors[k])
    ensures forall ev :: ev in Run(Compose(behaviors, handler), request, token, depth).trace ==>
      !ev.HandlerInvoked? && (ev.StageEntered? ==> ev.depth <= depth + k)
  {
    var rest := behaviors[1..];
    var inner := Run(Compose(rest, handler), request, token, depth + 1);
    if Delegates(behaviors[0]) {
      assert rest[k - 1] == behaviors[k];
      StoppedStageHidesRest(rest, handler, request, token, depth + 1, k - 1);
    }
  }

  /**
   * The chain's outcome is that of the first behaviour that does not call
   * `next`, when every behaviour before it does.
   */
  lemma {:induction false} FirstStopDecides(
    behaviors: seq<Behavior>, handler: Handler, request: Request, token: CancelToken, depth: nat, k: nat)
    requires k < |behaviors| && !Delegates(behaviors[k])
    requires forall i :: 0 <= i < k ==> Delegates(behaviors[i])
    ensures Run(Compose(behaviors, handler), request, token, depth).outcome == StopOutcome(behaviors[k], request)
  {
    if k > 0 {
      var rest := behaviors[1..];
      assert rest[k - 1] == behaviors[k];
      FirstStopDecides(rest, handler, request, token, depth + 1, k - 1);
    }
  }

  /**
   * The handler is invoked exactly once when every behaviour calls `next`,
   * and not at all otherwise.
   */
  lemma {:induction false} HandlerCalledOnceIffAllDelegate(
    behaviors: seq<Behavior>, handler: Handler, request: Request, token: CancelToken, depth: nat)
    ensures HandlerCalls(Run(Compose(behaviors, handler), request, token, depth).trace)
            == if AllDelegate(behaviors) then 1 else 0
  {
    if behaviors == [] {
      assert HandlerCalls([HandlerInvoked(request, token)]) == 1;
    } else {
      var rest := behaviors[1..];
      HandlerCalledOnceIffAllDelegate(rest, handler, request, token, depth + 1);
      var inner := Run(Compose(rest, handler), request, token, depth + 1);
      StageTrace(behaviors[0], Compose(rest, handler), request, token, depth);
      assert AllDelegate(behaviors) <==> Delegates(behaviors[0]) && AllDelegate(rest) by {
        if Delegates(behaviors[0]) && AllDelegate(rest) {
          forall i | 0 <= i < |behaviors| ensures Delegates(behaviors[i]) {
            if i > 0 { assert behaviors[i] == rest[i - 1]; }
          }
        }
        if AllDelegate(behaviors) {
          forall i | 0 <= i < |rest| ensures Delegates(rest[i]) {
            assert rest[i] == behaviors[i + 1];
          }
        }
      }
      if Delegates(behaviors[0]) {
        DelegatingAddsOnlyLogs(behaviors[0], request, inner);
      }
    }
  }

  /** Every stage, the handler included, receives the same request and the same token. */
  lemma {:induction false} SameRequestEverywhere(p: Pipeline, request: Request, token: CancelToken, depth: nat)
    ensures forall ev :: ev in Run(p, request, token, depth).trace ==>
      && (ev.StageEntered? ==> ev.request == request && ev.token == token)
      && (ev.HandlerInvoked? ==> ev.request == request && ev.token == token)
      && (ev.Logged? && ev.entry.Handling? ==> ev.entry.request == request)
  {
    match p
    case Terminal(_) =>
    case Stage(b, next) =>
      SameRequestEverywhere(next, request, token, depth + 1);
  }

  /**
   * A behaviour that calls `next` can be removed without changing the chain's
   * outcome; in particular a validation stage with no validators, or whose
   * validators report nothing, is result-equivalent to no validation stage.
   */
  lemma {:induction false} DelegatingStageRemovable(
    behaviors: seq<Behavior>, i: nat, handler: Handler, request: Request, token: CancelToken, depth: nat)
    requires i < |behaviors| && Delegates(behaviors[i])
    ensures Run(Compose(behaviors, handler), request, token, depth).outcome
         == Run(Compose(behaviors[..i] + behaviors[i + 1..], handler), request, token, depth).outcome
  {
    var rest := behaviors[1..];
    if i == 0 {
      assert behaviors[..0] + behaviors[1..] == rest;
      OutcomeIgnoresDepth(Compose(rest, handler), request, token, depth + 1, depth);
    } else {
      var without := behaviors[..i] + behaviors[i + 1..];
      assert without[0] == behaviors[0];
      assert without[1..] == rest[..i - 1] + rest[i..];
      assert rest[i - 1] == behaviors[i];
      DelegatingStageRemovable(rest, i - 1, handler, request, token, depth + 1);
    }
  }

  /**
   * A validation stage whose validators report failures, reached because every
   * earlier behaviour called `next`, decides the outcome: one ValidationError
   * naming the request type, with one reason per reported failure; the handler
   * never runs.
   */
  lemma ValidationFailureShortCircuits(
    behaviors: seq<Behavior>, handler: Handler, request: Request, token: CancelToken, k: nat)
    requires k < |behaviors| && behaviors[k].ValidationBehavior?
    requires Validation.FailureCount(behaviors[k].validators) > 0
    requires forall i :: 0 <= i < k ==> Delegates(behaviors[i])
    ensures var e := Run(Compose(behaviors, handler), request, token, 0);
      var fieldErrors := Validation.FieldErrors(behaviors[k].validators);
      && e.outcome == Returned(Fail([Errors.ValidationError(request.typeFullName, fieldErrors)]))
      && |fieldErrors| == Validation.FailureCount(behaviors[k].validators)
      && HandlerCalls(e.trace) == 0
  {
    FirstStopDecides(behaviors, handler, request, token, 0, k);
    HandlerCalledOnceIffAllDelegate(behaviors, handler, request, token, 0);
  }

  /**
   * Once the handler has run, its outcome is the chain's outcome: every
   * behaviour that calls `next` returns what `next` returned.
   */
  lemma {:induction false} HandlerResultKept(p: Pipeline, request: Request, token: CancelToken, depth: nat)
    ensures HandlerInvoked(request, token) in Run(p, request, token, depth).trace ==>
      Run(p, request, token, depth).outcome == Innermost(p).process(request, token)
  {
    match p
    case Terminal(_) =>
    case Stage(b, next) =>
      var inner := Run(next, request, token, depth + 1);
      var e := Invoke(b, request, inner);
      HandlerResultKept(next, request, token, depth + 1);
      if HandlerInvoked(request, token) in Run(p, request, token, depth).trace {
        assert HandlerInvoked(request, token) in e.trace;
        assert HandlerInvoked(request, token) in inner.trace;
      }
  }
}
