/** The global `onError` decision chain: from the framework's error code, the
    caught value and the derived request id to the response status, the error
    envelope and the log level (packages/api/src/core/plugins/error-handler.ts). */
module ErrorHandler {
  import opened Wrappers
  import opened Json
  import opened HttpErrors

  datatype LogLevel = Warn | Error

  datatype Handled = Handled(status: int, body: ErrorEnvelope, level: LogLevel)

  /** The request id the handler puts in the body: the derived one, or
      'unknown' when derivation did not run. */
  function BodyRequestId(derived: Option<string>): string {
    derived.GetOr("unknown")
  }

  /** The status a server-chosen code is sent with. */
  function StatusOfCode(c: ErrorCode): int {
    match c
    case AuthMissingToken => 401
    case AuthInvalidToken => 401
    case TaskNotFound => 404
    case ValidationError => 400
    case ParseError => 400
    case RouteNotFound => 404
    case DatabaseUnavailable => 503
    case DatabaseError => 500
    case InternalError => 500
  }

  function OnError(fc: FrameworkCode, e: Caught, derived: Option<string>): (h: Handled)
    // Every branch carries the request id.
    ensures h.body.requestId == BodyRequestId(derived)
    // An application error speaks for itself.
    ensures e.AppErr? ==>
      h == Handled(e.err.status, CreateErrorEnvelope(e.err.code, e.err.message, BodyRequestId(derived), e.err.details), Warn)
    // Otherwise connection faults, then query faults, then the framework code.
    ensures !e.AppErr? && IsDatabaseUnavailableError(e) ==>
      h.status == 503 && h.body.code == DatabaseUnavailable && h.body.message == "Database unavailable"
    ensures !e.AppErr? && !IsDatabaseUnavailableError(e) && IsDatabaseError(e) ==>
      h.status == 500 && h.body.code == DatabaseError && h.body.message == "Database operation failed"
    ensures !e.AppErr? && !IsDatabaseError(e) ==>
      var m := MapFrameworkError(fc); h.status == m.status && h.body.code == m.code && h.body.message == m.message
    // Faults other than application errors get fixed text, no details, and the
    // status that belongs to their code; they are logged as errors iff the status is 5xx.
    ensures !e.AppErr? ==> h.body.details.None? && h.status == StatusOfCode(h.body.code)
    ensures !e.AppErr? ==> (h.level == Error <==> h.status >= 500)
  {
    var requestId := BodyRequestId(derived);
    if e.AppErr? then
      Handled(e.err.status, CreateErrorEnvelope(e.err.code, e.err.message, requestId, e.err.details), Warn)
    else if IsDatabaseUnavailableError(e) then
      Handled(503, CreateErrorEnvelope(DatabaseUnavailable, "Database unavailable", requestId, Undefined), Error)
    else if IsDatabaseError(e) then
      Handled(500, CreateErrorEnvelope(DatabaseError, "Database operation failed", requestId, Undefined), Error)
    else
      var mapped := MapFrameworkError(fc);
      Handled(mapped.status, CreateErrorEnvelope(mapped.code, mapped.message, requestId, Undefined),
              if mapped.status >= 500 then Error else Warn)
  }

  /** The logger a plugin is created with. Both factories declare one, but
      packages/api/src/app.ts:56 and :69 call them with no argument. */
  datatype Logger = Logger(service: string)

  /** What the error hook does: return its answer, or throw before returning. */
  datatype HookResult = Returned(handled: Handled) | ThrewTypeError

  /** The error hook of a plugin created with `logger` (`None`: with no
      argument). Every branch logs at the answer's level before it returns the
      envelope, so on an undefined logger every branch throws a `TypeError`
      first, whatever the error. */
  function RunErrorHook(logger: Option<Logger>, fc: FrameworkCode, e: Caught, derived: Option<string>): (r: HookResult)
    ensures r.ThrewTypeError? <==> logger.None?
    ensures r.Returned? ==> r.handled == OnError(fc, e, derived)
  {
    var h := OnError(fc, e, derived);
    match logger
    case None => ThrewTypeError
    case Some(_) => Returned(h)
  }

  /** Only an application error can put a caller-facing code (authentication,
      missing task) or a fault's own message into the body. */
  lemma {:induction false} OnlyAppErrorsChooseCode(fc: FrameworkCode, e: Caught, derived: Option<string>)
    ensures var h := OnError(fc, e, derived);
      !e.AppErr? ==>
        && h.body.code in {DatabaseUnavailable, DatabaseError, ValidationError, ParseError, RouteNotFound, InternalError}
        && h.body.message in {"Database unavailable", "Database operation failed", "Invalid request",
                              "Malformed request", "Not found", "Internal server error"}
  {
    MappingStatusFollowsCode(fc);
    DatabaseErrorExactly(e);
  }
}
