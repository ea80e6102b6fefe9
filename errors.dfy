/** The API's error taxonomy: the closed code set, the application error, the
    error envelope, the framework-code mapping and the database-fault
    classifiers (packages/api/src/core/http/errors.ts). */
module HttpErrors {
  import opened Wrappers
  import opened Json

  datatype ErrorCode =
    | AuthMissingToken
    | AuthInvalidToken
    | TaskNotFound
    | ValidationError
    | ParseError
    | RouteNotFound
    | DatabaseUnavailable
    | DatabaseError
    | InternalError

  /** The wire name of a code. */
  function CodeName(c: ErrorCode): string {
    match c
    case AuthMissingToken => "AUTH_MISSING_TOKEN"
    case AuthInvalidToken => "AUTH_INVALID_TOKEN"
    case TaskNotFound => "TASK_NOT_FOUND"
    case ValidationError => "VALIDATION_ERROR"
    case ParseError => "PARSE_ERROR"
    case RouteNotFound => "ROUTE_NOT_FOUND"
    case DatabaseUnavailable => "DATABASE_UNAVAILABLE"
    case DatabaseError => "DATABASE_ERROR"
    case InternalError => "INTERNAL_ERROR"
  }

  /** Membership in the code enumeration, by wire name. */
  function CodeFromName(s: string): (r: Option<ErrorCode>)
    ensures r.Some? ==> CodeName(r.value) == s
  {
    if s == "AUTH_MISSING_TOKEN" then Some(AuthMissingToken)
    else if s == "AUTH_INVALID_TOKEN" then Some(AuthInvalidToken)
    else if s == "TASK_NOT_FOUND" then Some(TaskNotFound)
    else if s == "VALIDATION_ERROR" then Some(ValidationError)
    else if s == "PARSE_ERROR" then Some(ParseError)
    else if s == "ROUTE_NOT_FOUND" then Some(RouteNotFound)
    else if s == "DATABASE_UNAVAILABLE" then Some(DatabaseUnavailable)
    else if s == "DATABASE_ERROR" then Some(DatabaseError)
    else if s == "INTERNAL_ERROR" then Some(InternalError)
    else None
  }

  /** Every code is found again from its wire name, so the nine names are
      distinct and the enumeration is exactly these nine. */
  lemma {:induction false} CodeNameRoundTrip(c: ErrorCode)
    ensures CodeFromName(CodeName(c)) == Some(c)
  {
    match c
    case AuthMissingToken =>
    case AuthInvalidToken =>
    case TaskNotFound =>
    case ValidationError =>
    case ParseError =>
    case RouteNotFound =>
    case DatabaseUnavailable =>
    case DatabaseError =>
    case InternalError =>
  }

  lemma {:induction false} CodeNameInjective(c: ErrorCode, d: ErrorCode)
    requires CodeName(c) == CodeName(d)
    ensures c == d
  {
    CodeNameRoundTrip(c);
    CodeNameRoundTrip(d);
  }

  /** An `AppError`: code, HTTP status, message and optional details
      (`Undefined` when absent). Its `name` is always 'AppError'. */
  datatype AppError = AppError(code: ErrorCode, status: int, message: string, details: Value)
  {
    function Name(): string { "AppError" }
  }

  /** What a `catch` or `onError` receives: an `AppError`, another object with
      optional string `name`, `code` and `message` properties, or a value that
      is not an object at all (a primitive, `null`, `undefined`). */
  datatype Caught =
    | AppErr(err: AppError)
    | ErrObj(name: Option<string>, code: Option<string>, message: Option<string>)
    | NotObject

  /** The `{name, code, message}` view `asErrorLike` takes of a caught value;
      an `AppError` is an object whose code property is its code's wire name. */
  function AsErrorLike(e: Caught): (r: Option<(Option<string>, Option<string>)>)
    ensures r.None? <==> e.NotObject?
    ensures e.AppErr? ==> r == Some((Some("AppError"), Some(CodeName(e.err.code))))
  {
    match e
    case AppErr(a) => Some((Some(a.Name()), Some(CodeName(a.code))))
    case ErrObj(name, code, _) => Some((name, code))
    case NotObject => None
  }

  const PrismaInitName := "PrismaClientInitializationError"
  const PrismaUnreachableCode := "P1001"
  const PrismaQueryFaultNames: set<string> := {
    "PrismaClientKnownRequestError",
    "PrismaClientUnknownRequestError",
    "PrismaClientRustPanicError",
    "PrismaClientValidationError"
  }

  predicate IsDatabaseUnavailableError(e: Caught) {
    match AsErrorLike(e)
    case None => false
    case Some((name, code)) =>
      if name == Some(PrismaInitName) then true else code == Some(PrismaUnreachableCode)
  }

  predicate IsDatabaseError(e: Caught) {
    match AsErrorLike(e)
    case None => false
    case Some((name, _)) =>
      if IsDatabaseUnavailableError(e) then true
      else name.Some? && name.value in PrismaQueryFaultNames
  }

  /** Connection faults: an object named as a client-initialisation failure or
      carrying the "server unreachable" code, and nothing else. */
  lemma {:induction false} DatabaseUnavailableExactly(e: Caught)
    ensures IsDatabaseUnavailableError(e) <==>
      e.ErrObj? && (e.name == Some(PrismaInitName) || e.code == Some(PrismaUnreachableCode))
  {
    if e.AppErr? {
      assert CodeName(e.err.code) != PrismaUnreachableCode by {
        if CodeName(e.err.code) == PrismaUnreachableCode {
          assert CodeFromName(PrismaUnreachableCode).None?;
          CodeNameRoundTrip(e.err.code);
        }
      }
    }
  }

  /** Query faults include the connection faults; beyond those they are the
      objects named as one of the four request/panic/validation failures.
      An application error is never a database fault. */
  lemma {:induction false} DatabaseErrorExactly(e: Caught)
    ensures IsDatabaseUnavailableError(e) ==> IsDatabaseError(e)
    ensures !IsDatabaseUnavailableError(e) ==>
      (IsDatabaseError(e) <==> e.ErrObj? && e.name.Some? && e.name.value in PrismaQueryFaultNames)
    ensures e.AppErr? ==> !IsDatabaseError(e)
  {
    DatabaseUnavailableExactly(e);
  }

  /** The body of an error response. `details` is present only when given. */
  datatype ErrorEnvelope = ErrorEnvelope(code: ErrorCode, message: string, requestId: string, details: Option<Value>)

  function CreateErrorEnvelope(code: ErrorCode, message: string, requestId: string, details: Value): (env: ErrorEnvelope)
    ensures env.code == code && env.message == message && env.requestId == requestId
    ensures env.details.Some? <==> details != Undefined
    ensures env.details.Some? ==> env.details.value == details
  {
    ErrorEnvelope(code, message, requestId, if details == Undefined then None else Some(details))
  }

  /** The JSON form of an envelope: `{error: {code, message, requestId[, details]}}`. */
  function EnvelopeJson(env: ErrorEnvelope): Value {
    var inner := [Field("code", Str(CodeName(env.code))), Field("message", Str(env.message)),
                  Field("requestId", Str(env.requestId))];
    Obj([Field("error", Obj(inner + if env.details.Some? then [Field("details", env.details.value)] else []))])
  }

  /** Reading the serialised envelope back gives its code name, message,
      request id and details; the `details` key is there only when details are. */
  lemma {:induction false} EnvelopeJsonFields(env: ErrorEnvelope)
    ensures var inner := Get(EnvelopeJson(env), "error");
      && inner.Obj?
      && Get(inner, "code") == Str(CodeName(env.code))
      && Get(inner, "message") == Str(env.message)
      && Get(inner, "requestId") == Str(env.requestId)
      && (HasKey(inner, "details") <==> env.details.Some?)
      && Get(inner, "details") == (if env.details.Some? then env.details.value else Undefined)
  {
    var tail := if env.details.Some? then [Field("details", env.details.value)] else [];
    var f0, f1, f2 := Field("code", Str(CodeName(env.code))), Field("message", Str(env.message)),
                      Field("requestId", Str(env.requestId));
    var inner := [f0, f1, f2] + tail;
    assert EnvelopeJson(env) == Obj([Field("error", Obj(inner))] + []);
    GetFront("error", Obj(inner), []);
    assert inner == [f0] + ([f1] + ([f2] + tail));
    InnerFields(f0, f1, f2, tail);
    if env.details.Some? {
      GetFront("details", env.details.value, []);
    }
  }

  /** The three fixed fields of an envelope read back, and `details` is read from the tail. */
  lemma {:induction false} InnerFields(f0: Field, f1: Field, f2: Field, tail: seq<Field>)
    requires f0.key == "code" && f1.key == "message" && f2.key == "requestId"
    ensures var o := Obj([f0] + ([f1] + ([f2] + tail)));
      && Get(o, "code") == f0.val && Get(o, "message") == f1.val && Get(o, "requestId") == f2.val
      && Get(o, "details") == Get(Obj(tail), "details")
      && HasKey(o, "details") == HasKey(Obj(tail), "details")
  {
    GetFront("code", f0.val, [f1] + ([f2] + tail));
    GetSkip(f0, [f1] + ([f2] + tail), "message");
    GetFront("message", f1.val, [f2] + tail);
    GetSkip(f0, [f1] + ([f2] + tail), "requestId");
    GetSkip(f1, [f2] + tail, "requestId");
    GetFront("requestId", f2.val, tail);
    GetSkip(f0, [f1] + ([f2] + tail), "details");
    GetSkip(f1, [f2] + tail, "details");
    GetSkip(f2, tail, "details");
  }

  /** The serialised envelope has a `details` key exactly when details were
      passed, and then carries them unchanged. */
  lemma {:induction false} EnvelopeDetailsKey(code: ErrorCode, message: string, requestId: string, details: Value)
    ensures var inner := Get(EnvelopeJson(CreateErrorEnvelope(code, message, requestId, details)), "error");
      && (HasKey(inner, "details") <==> details != Undefined)
      && Get(inner, "details") == details
  {
    EnvelopeJsonFields(CreateErrorEnvelope(code, message, requestId, details));
  }

  /** The error codes the framework reports (a string or a number). */
  datatype FrameworkCode = FwStr(s: string) | FwNum(n: int)

  datatype Mapping = Mapping(status: int, code: ErrorCode, message: string)

  function MapFrameworkError(fc: FrameworkCode): (m: Mapping)
    ensures fc == FwStr("VALIDATION") <==> m == Mapping(400, ValidationError, "Invalid request")
    ensures fc == FwStr("PARSE") <==> m == Mapping(400, ParseError, "Malformed request")
    ensures fc == FwStr("NOT_FOUND") <==> m == Mapping(404, RouteNotFound, "Not found")
    ensures fc !in {FwStr("VALIDATION"), FwStr("PARSE"), FwStr("NOT_FOUND")} <==>
      m == Mapping(500, InternalError, "Internal server error")
  {
    if fc == FwStr("VALIDATION") then Mapping(400, ValidationError, "Invalid request")
    else if fc == FwStr("PARSE") then Mapping(400, ParseError, "Malformed request")
    else if fc == FwStr("NOT_FOUND") then Mapping(404, RouteNotFound, "Not found")
    else Mapping(500, InternalError, "Internal server error")
  }

  /** The mapping only ever yields four codes, and the status is determined by
      the code: 400 for request faults, 404 for an unknown route, 500 otherwise. */
  lemma {:induction false} MappingStatusFollowsCode(fc: FrameworkCode)
    ensures var m := MapFrameworkError(fc);
      && m.code in {ValidationError, ParseError, RouteNotFound, InternalError}
      && m.status == (if m.code == RouteNotFound then 404 else if m.code == InternalError then 500 else 400)
  {
  }
}
