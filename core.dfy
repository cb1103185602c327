/**
 * Values shared by every stage of the mediator: the FluentResults envelope
 * (Result and IError), the request with its cancellation token, the keys the
 * handler registry is indexed by, and what a dispatch makes observable.
 */
module Core {

  datatype Option<+T> = None | Some(value: T)

  /** A value the source types as `object`: a metadata value, an attempted value, a response. */
  datatype Value = Null | Text(text: string) | Opaque(id: nat)

  /**
   * The IError surface every error exposes: a message, a metadata dictionary
   * and its nested reasons; `None` stands for a null reasons list.
   */
  datatype Error = Error(message: string, metadata: map<string, Value>, reasons: Option<seq<Error>>)

  /** FluentResults' Result<T>: a value, or the errors of a failure. */
  datatype Result<+T> = Ok(value: T) | Fail(errors: seq<Error>)

  /** The closed generic IRequestHandler<TRequest, TResponse>, by type name. */
  datatype HandlerKey = HandlerKey(request: string, response: string)

  /** An exception escaping a stage; the only one the mediator raises itself is the failed resolution. */
  datatype Exception = HandlerNotFound(key: HandlerKey) | Raised(name: string)

  /** What running a stage amounts to: it returned a Result, or it threw. */
  datatype Outcome = Returned(result: Result<Value>) | Threw(exception: Exception)

  /** A request object: its runtime type's full name and an opaque payload. */
  datatype Request = Request(typeFullName: string, payload: Value)

  /** An opaque cancellation token, passed along unchanged. */
  datatype CancelToken = CancelToken(id: nat)

  /** The entries LoggingBehavior writes to its logger (the elapsed time is not modelled). */
  datatype LogEntry = Handling(request: Request) | Completed | Failed(exception: Exception)

  /**
   * What a dispatch makes observable, in order: a stage of the chain being
   * entered (with the request and token it received) and left, the handler
   * being invoked, and log entries. `depth` counts stages from the outermost (0).
   */
  datatype Event =
    | StageEntered(depth: nat, request: Request, token: CancelToken)
    | StageLeft(depth: nat, outcome: Outcome)
    | HandlerInvoked(request: Request, token: CancelToken)
    | Logged(entry: LogEntry)

  /** The outcome of running (part of) a pipeline, with the events it produced. */
  datatype Execution = Execution(outcome: Outcome, trace: seq<Event>)
}
