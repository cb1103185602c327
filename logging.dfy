/**
 * LoggingBehavior: writes a start entry holding the request, runs the rest
 * of the pipeline, then writes a completion entry, or, when the rest of the
 * pipeline threw, an error entry before rethrowing. It never builds a Result
 * of its own.
 */
module Logging {
  import opened Core

  /** The two entries written around `next`, given how `next` ended. */
  function Entries(request: Request, outcome: Outcome): seq<LogEntry>
  {
    [Handling(request), if outcome.Threw? then Failed(outcome.exception) else Completed]
  }

  /**
   * The logging stage inside a pipeline: `next` is what the rest of the
   * pipeline produces, and it runs exactly once, between the two entries.
   */
  function Traced(request: Request, next: Execution): (e: Execution)
    ensures e.outcome == next.outcome
    ensures |e.trace| == |next.trace| + 2
    ensures e.trace[0] == Logged(Handling(request))
    ensures e.trace[1..|e.trace| - 1] == next.trace
    ensures e.trace[|e.trace| - 1] == Logged(Completed) <==> !next.outcome.Threw?
    ensures next.outcome.Threw? ==> e.trace[|e.trace| - 1] == Logged(Failed(next.outcome.exception))
  {
    var entries := Entries(request, next.outcome);
    Execution(next.outcome, [Logged(entries[0])] + next.trace + [Logged(entries[1])])
  }

  /** The logger sink LoggingBehavior writes to. */
  class Logger {
    var entries: seq<LogEntry>

    constructor ()
      ensures entries == []
    {
      entries := [];
    }

    method Log(entry: LogEntry)
      modifies this
      ensures entries == old(entries) + [entry]
    {
      entries := entries + [entry];
    }
  }

  class LoggingBehavior {
    const logger: Logger

    constructor (logger: Logger)
      ensures this.logger == logger
    {
      this.logger := logger;
    }

    /**
     * LoggingBehavior.Handle: `next` is the rest of the pipeline; a `Threw`
     * outcome is an exception, which is logged and rethrown unchanged.
     */
    method Handle(request: Request, token: CancelToken, next: () -> Outcome) returns (response: Outcome)
      modifies logger
      ensures response == next()
      ensures logger.entries == old(logger.entries) + Entries(request, response)
    {
      logger.Log(Handling(request));
      var result := next();
      if result.Threw? {
        logger.Log(Failed(result.exception));
        response := result;
      } else {
        logger.Log(Completed);
        response := result;
      }
    }
  }
}
