/** The superseded `/api/todos` error handling: the seven-code set, the flat
    error body and the application error (packages/api/src/schemas/error.ts),
    and the global error hook (packages/api/src/plugins/error.ts). */
module LegacyErrors {
  import opened Wrappers
  import opened Json
  import HttpErrors
  import RequestContext

  datatype LegacyCode =
    | Unauthorized
    | TodoNotFound
    | NoUpdates
    | ValidationError
    | ParseError
    | NotFound
    | InternalError

  function LegacyCodeName(c: LegacyCode): string {
    match c
    case Unauthorized => "UNAUTHORIZED"
    case TodoNotFound => "TODO_NOT_FOUND"
    case NoUpdates => "NO_UPDATES"
    case ValidationError => "VALIDATION_ERROR"
    case ParseError => "PARSE_ERROR"
    case NotFound => "NOT_FOUND"
    case InternalError => "INTERNAL_ERROR"
  }

  /** Membership in `ErrorCodeEnum`, by wire name. */
  function LegacyCodeFromName(s: string): (r: Option<LegacyCode>)
    ensures r.Some? ==> LegacyCodeName(r.value) == s
  {
    if s == "UNAUTHORIZED" then Some(Unauthorized)
    else if s == "TODO_NOT_FOUND" then Some(TodoNotFound)
    else if s == "NO_UPDATES" then Some(NoUpdates)
    else if s == "VALIDATION_ERROR" then Some(ValidationError)
    else if s == "PARSE_ERROR" then Some(ParseError)
    else if s == "NOT_FOUND" then Some(NotFound)
    else if s == "INTERNAL_ERROR" then Some(InternalError)
    else None
  }

  /** The code set is exactly the seven names: each is found again from its
      name, so no two share one. */
  lemma {:induction false} LegacyCodeNameRoundTrip(c: LegacyCode)
    ensures LegacyCodeFromName(LegacyCodeName(c)) == Some(c)
  {
    match c
    case Unauthorized =>
    case TodoNotFound =>
    case NoUpdates =>
    case ValidationError =>
    case ParseError =>
    case NotFound =>
    case InternalError =>
  }

  /** `buildError`: `{error, code, requestId}` and nothing else. */
  function BuildError(requestId: string, code: LegacyCode, error: string): (r: Value)
    ensures r.Obj? && |r.fields| == 3
    ensures Get(r, "error") == Str(error) && Get(r, "code") == Str(LegacyCodeName(code))
    ensures Get(r, "requestId") == Str(requestId)
  {
    var f0, f1, f2 := Field("error", Str(error)), Field("code", Str(LegacyCodeName(code))),
                      Field("requestId", Str(requestId));
    assert [f0, f1, f2] == [f0] + ([f1] + ([f2] + []));
    GetFront("error", f0.val, [f1] + ([f2] + []));
    GetSkip(f0, [f1] + ([f2] + []), "code");
    GetFront("code", f1.val, [f2] + []);
    GetSkip(f0, [f1] + ([f2] + []), "requestId");
    GetSkip(f1, [f2] + [], "requestId");
    GetFront("requestId", f2.val, []);
    Obj([f0, f1, f2])
  }

  /** The legacy `AppError`: its fields are set once by the constructor, and
      its name is always 'AppError'. */
  datatype LegacyAppError = LegacyAppError(code: LegacyCode, status: int, message: string)
  {
    function Name(): string { "AppError" }
  }

  /** What the legacy error hook can receive: an instance of the legacy
      `AppError` class, or anything else (including the new API's errors). */
  datatype LegacyCaught = LegacyAppErr(err: LegacyAppError) | OtherThrown

  predicate IsAppError(e: LegacyCaught) {
    e.LegacyAppErr?
  }

  /** `{error, code}` chosen from the framework's code. */
  datatype ErrorResult = ErrorResult(error: string, code: LegacyCode)

  /** `toErrorResult` */
  function ToErrorResult(fc: HttpErrors.FrameworkCode): (r: ErrorResult)
    ensures fc == HttpErrors.FwStr("VALIDATION") <==> r == ErrorResult("Invalid request", ValidationError)
    ensures fc == HttpErrors.FwStr("PARSE") <==> r == ErrorResult("Malformed request", ParseError)
    ensures fc == HttpErrors.FwStr("NOT_FOUND") <==> r == ErrorResult("Not found", NotFound)
    ensures fc !in {HttpErrors.FwStr("VALIDATION"), HttpErrors.FwStr("PARSE"), HttpErrors.FwStr("NOT_FOUND")} <==>
      r == ErrorResult("Internal server error", InternalError)
  {
    if fc == HttpErrors.FwStr("VALIDATION") then ErrorResult("Invalid request", ValidationError)
    else if fc == HttpErrors.FwStr("PARSE") then ErrorResult("Malformed request", ParseError)
    else if fc == HttpErrors.FwStr("NOT_FOUND") then ErrorResult("Not found", NotFound)
    else ErrorResult("Internal server error", InternalError)
  }

  /** The hook's own status chain, written apart from `toErrorResult`. */
  function StatusChain(fc: HttpErrors.FrameworkCode): int {
    if fc == HttpErrors.FwStr("VALIDATION") || fc == HttpErrors.FwStr("PARSE") then 400
    else if fc == HttpErrors.FwStr("NOT_FOUND") then 404
    else 500
  }

  /** The status each result code stands for. */
  function StatusOfResult(c: LegacyCode): int {
    match c
    case ValidationError => 400
    case ParseError => 400
    case NotFound => 404
    case _ => 500
  }

  /** The two chains never disagree: the status written is the one the chosen
      code stands for. They also agree with the new API's mapping on status
      and message; only the not-found code is named differently. */
  lemma {:induction false} StatusChainAgrees(fc: HttpErrors.FrameworkCode)
    ensures StatusChain(fc) == StatusOfResult(ToErrorResult(fc).code)
    ensures StatusChain(fc) == HttpErrors.MapFrameworkError(fc).status
    ensures ToErrorResult(fc).error == HttpErrors.MapFrameworkError(fc).message
    ensures ToErrorResult(fc).code == NotFound <==> HttpErrors.MapFrameworkError(fc).code == HttpErrors.RouteNotFound
  {
  }

  /** The body's request id: the derived one, or 'unknown' when none was derived. */
  function RequestIdOrUnknown(requestId: Option<string>): (r: string)
    ensures requestId.Some? ==> r == requestId.value
    ensures requestId.None? ==> r == "unknown"
  {
    requestId.GetOr("unknown")
  }

  /** The status and body the hook answers with. */
  function LegacyOnError(fc: HttpErrors.FrameworkCode, e: LegacyCaught, requestId: Option<string>): (r: (int, Value))
    ensures e.LegacyAppErr? ==>
      r == (e.err.status, BuildError(RequestIdOrUnknown(requestId), e.err.code, e.err.message))
    ensures e.OtherThrown? ==>
      r == (StatusChain(fc), BuildError(RequestIdOrUnknown(requestId), ToErrorResult(fc).code, ToErrorResult(fc).error))
  {
    var id := RequestIdOrUnknown(requestId);
    match e
    case LegacyAppErr(a) => (a.status, BuildError(id, a.code, a.message))
    case OtherThrown =>
      var result := ToErrorResult(fc);
      (StatusChain(fc), BuildError(id, result.code, result.error))
  }

  /** Only an application error can answer with a code outside the four
      framework codes, and every other failure answers 400, 404 or 500 with
      fixed text. */
  lemma {:induction false} LegacyOnErrorShape(fc: HttpErrors.FrameworkCode, e: LegacyCaught, requestId: Option<string>)
    ensures var (status, body) := LegacyOnError(fc, e, requestId);
      && Get(body, "requestId") == Str(RequestIdOrUnknown(requestId))
      && (e.OtherThrown? ==>
            && status in {400, 404, 500}
            && Get(body, "code") in {Str("VALIDATION_ERROR"), Str("PARSE_ERROR"), Str("NOT_FOUND"), Str("INTERNAL_ERROR")}
            && Get(body, "error") in {Str("Invalid request"), Str("Malformed request"), Str("Not found"), Str("Internal server error")})
  {
    var id := RequestIdOrUnknown(requestId);
    if e.OtherThrown? {
      var result := ToErrorResult(fc);
      var body := BuildError(id, result.code, result.error);
      assert LegacyOnError(fc, e, requestId) == (StatusChain(fc), body);
      assert Get(body, "code") == Str(LegacyCodeName(result.code));
      assert Get(body, "error") == Str(result.error);
    }
  }

  /** `errorPlugin`'s `onError`: the status is written on `set` (here `res`), the body returned. */
  method OnError(res: RequestContext.ResponseSet, fc: HttpErrors.FrameworkCode, e: LegacyCaught, requestId: Option<string>)
    returns (body: Value)
    modifies res
    ensures (res.status, body) == LegacyOnError(fc, e, requestId)
    ensures res.headers == old(res.headers)
  {
    var id := RequestIdOrUnknown(requestId);
    if e.LegacyAppErr? {
      res.status := e.err.status;
      return BuildError(id, e.err.code, e.err.message);
    }
    var result := ToErrorResult(fc);
    if fc == HttpErrors.FwStr("VALIDATION") || fc == HttpErrors.FwStr("PARSE") {
      res.status := 400;
    } else if fc == HttpErrors.FwStr("NOT_FOUND") {
      res.status := 404;
    } else {
      res.status := 500;
    }
    body := BuildError(id, result.code, result.error);
  }
}
