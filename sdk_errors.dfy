/** The SDK's error-envelope parser (packages/sdk/src/errors.ts): it accepts
    either a bare body or a response-like wrapper `{status, body, headers}`
    and recognises the API's nested envelope and the framework's flat
    `{error, message, statusCode}` shape. */
module SdkErrors {
  import opened Wrappers
  import opened Json
  import opened Text
  import opened HttpErrors

  /** `isRecord`: truthy, an object, and not an array. */
  predicate IsRecord(v: Value): (r: bool)
    ensures r <==> v.Obj? || v.HeaderBag?
  {
    Truthy(v) && IsObject(v) && !v.Arr?
  }

  /** `Object.entries(headers).find(([key]) => key.toLowerCase() === name.toLowerCase())` */
  function FindHeader(fields: seq<Field>, name: string): (r: Option<nat>)
    ensures r.Some? ==> r.value < |fields| && ToLower(fields[r.value].key) == ToLower(name)
    ensures r.Some? ==> forall j :: 0 <= j < r.value ==> ToLower(fields[j].key) != ToLower(name)
    ensures r.None? ==> forall j :: 0 <= j < |fields| ==> ToLower(fields[j].key) != ToLower(name)
  {
    if fields == [] then None
    else if ToLower(fields[0].key) == ToLower(name) then Some(0)
    else
      match FindHeader(fields[1..], name)
      case None => None
      case Some(i) => Some(i + 1)
  }

  /** `getHeader`: nothing without headers; a fetch `Headers` answers `get`
      (`null` becomes `undefined`); a plain record gives the value of its first
      entry whose key matches the name case-insensitively. */
  function GetHeader(headers: Value, name: string): (r: Value)
    ensures !Truthy(headers) ==> r == Undefined
    ensures headers.HeaderBag? ==> r == OptStr(HeaderGet(headers.entries, name))
    ensures headers.Obj? ==>
      ((forall j :: 0 <= j < |headers.fields| ==> ToLower(headers.fields[j].key) != ToLower(name)) ==> r == Undefined)
    ensures headers.Obj? ==>
      forall i :: (0 <= i < |headers.fields| && ToLower(headers.fields[i].key) == ToLower(name) &&
                   (forall j :: 0 <= j < i ==> ToLower(headers.fields[j].key) != ToLower(name)))
                  ==> r == headers.fields[i].val
  {
    if !Truthy(headers) then Undefined
    else if headers.HeaderBag? then OptStr(HeaderGet(headers.entries, name))
    else if headers.Obj? then
      match FindHeader(headers.fields, name)
      case Some(i) => headers.fields[i].val
      case None => Undefined
    else Undefined
  }

  /** Lookup depends on the name only up to case. */
  lemma {:induction false} FindHeaderIgnoresCase(fields: seq<Field>, a: string, b: string)
    requires ToLower(a) == ToLower(b)
    ensures FindHeader(fields, a) == FindHeader(fields, b)
  {
    if fields != [] {
      FindHeaderIgnoresCase(fields[1..], a, b);
    }
  }

  lemma {:induction false} GetHeaderIgnoresCase(headers: Value, a: string, b: string)
    requires ToLower(a) == ToLower(b)
    ensures GetHeader(headers, a) == GetHeader(headers, b)
  {
    if headers.Obj? {
      FindHeaderIgnoresCase(headers.fields, a, b);
    }
  }

  /** The three parts `normalizeInput` returns. */
  datatype Normalized = Normalized(body: Value, status: Option<int>, headers: Value)

  /** A record with a `body`, `status` or `headers` key is a response wrapper. */
  predicate IsWrapper(input: Value) {
    IsRecord(input) && (HasKey(input, "body") || HasKey(input, "status") || HasKey(input, "headers"))
  }

  function NormalizeInput(input: Value): (r: Normalized)
    ensures IsWrapper(input) ==> r.body == Get(input, "body") && r.headers == Get(input, "headers")
    ensures !IsWrapper(input) ==> r == Normalized(input, None, Undefined)
    ensures r.status.Some? <==> IsWrapper(input) && Get(input, "status").Num?
    ensures r.status.Some? ==> Get(input, "status") == Num(r.status.value)
  {
    if IsWrapper(input) then Normalized(Get(input, "body"), AsNum(Get(input, "status")), Get(input, "headers"))
    else Normalized(input, None, Undefined)
  }

  /** `SdkError`; an absent optional field is `Undefined` / `None`. */
  datatype SdkError = SdkError(code: string, message: string, details: Value, status: Option<int>,
                               requestId: Value, raw: Value)

  /** The request id: the body's own string `requestId`, else the header. */
  function RequestIdOf(body: Value, headers: Value): (r: Value)
    ensures IsRecord(body) && Get(body, "requestId").Str? ==> r == Get(body, "requestId")
    ensures !(IsRecord(body) && Get(body, "requestId").Str?) ==> r == GetHeader(headers, "x-request-id")
  {
    var fromBody := if IsRecord(body) then AsStr(Get(body, "requestId")) else None;
    if fromBody.Some? then Str(fromBody.value) else GetHeader(headers, "x-request-id")
  }

  /** `{error: {code, message}}` with both strings. */
  predicate IsNestedEnvelope(body: Value) {
    IsRecord(body) && IsRecord(Get(body, "error"))
    && Get(Get(body, "error"), "code").Str? && Get(Get(body, "error"), "message").Str?
  }

  /** `{error: string, message: string}` */
  predicate IsFlatEnvelope(body: Value) {
    IsRecord(body) && Get(body, "error").Str? && Get(body, "message").Str?
  }

  /** `parseErrorEnvelope`: the nested envelope first, then the flat one, else `null`. */
  function ParseErrorEnvelope(input: Value): (r: Option<SdkError>)
    ensures var n := NormalizeInput(input);
      && (r.Some? <==> IsNestedEnvelope(n.body) || IsFlatEnvelope(n.body))
      && (r.Some? ==> r.value.raw == n.body && r.value.requestId == RequestIdOf(n.body, n.headers))
      && (IsNestedEnvelope(n.body) ==>
            var e := Get(n.body, "error");
            r == Some(SdkError(Get(e, "code").s, Get(e, "message").s, Get(e, "details"), n.status,
                               RequestIdOf(n.body, n.headers), n.body)))
      && (!IsNestedEnvelope(n.body) && IsFlatEnvelope(n.body) ==>
            && r.value.code == Get(n.body, "error").s && r.value.message == Get(n.body, "message").s
            && r.value.details == Undefined
            && r.value.status == (if Get(n.body, "statusCode").Num? then Some(Get(n.body, "statusCode").n) else n.status))
  {
    var n := NormalizeInput(input);
    var requestId := RequestIdOf(n.body, n.headers);
    if IsNestedEnvelope(n.body) then
      var e := Get(n.body, "error");
      Some(SdkError(Get(e, "code").s, Get(e, "message").s, Get(e, "details"), n.status, requestId, n.body))
    else if IsFlatEnvelope(n.body) then
      var fromBody := AsNum(Get(n.body, "statusCode"));
      var status := if fromBody.Some? then fromBody else n.status;
      Some(SdkError(Get(n.body, "error").s, Get(n.body, "message").s, Undefined, status, requestId, n.body))
    else None
  }

  /** A body without an `error` key, such as a success envelope `{data}`, is
      not an error. */
  lemma {:induction false} ParseWithoutErrorKey(input: Value)
    requires !HasKey(NormalizeInput(input).body, "error")
    ensures ParseErrorEnvelope(input) == None
  {
  }

  // ---------------------------------------------------------------------------
  // Reading the API's envelope back

  /** The response the API sends for an error: the status, the `x-request-id`
      header and the envelope as body. */
  function ApiResponse(status: int, env: ErrorEnvelope): Value {
    Obj([Field("status", Num(status)),
         Field("headers", HeaderBag(map["x-request-id" := env.requestId])),
         Field("body", EnvelopeJson(env))])
  }

  /** The envelope's top level has only the `error` key. */
  lemma {:induction false} EnvelopeTopLevel(env: ErrorEnvelope)
    ensures Get(EnvelopeJson(env), "requestId") == Undefined
    ensures !HasKey(EnvelopeJson(env), "body") && !HasKey(EnvelopeJson(env), "status")
    ensures !HasKey(EnvelopeJson(env), "headers")
  {
    var f := EnvelopeJson(env).fields[0];
    assert EnvelopeJson(env).fields == [f] + [];
    GetSkip(f, [], "requestId");
    GetSkip(f, [], "body");
    GetSkip(f, [], "status");
    GetSkip(f, [], "headers");
  }

  lemma {:induction false} ApiResponseParts(status: int, env: ErrorEnvelope)
    ensures NormalizeInput(ApiResponse(status, env)) ==
      Normalized(EnvelopeJson(env), Some(status), HeaderBag(map["x-request-id" := env.requestId]))
  {
    var w := ApiResponse(status, env);
    var f0, f1, f2 := w.fields[0], w.fields[1], w.fields[2];
    assert w.fields == [f0] + ([f1] + ([f2] + []));
    GetFront("status", f0.val, [f1] + ([f2] + []));
    GetSkip(f0, [f1] + ([f2] + []), "headers");
    GetFront("headers", f1.val, [f2] + []);
    GetSkip(f0, [f1] + ([f2] + []), "body");
    GetSkip(f1, [f2] + [], "body");
    GetFront("body", f2.val, []);
  }

  /** The header name is already lower-case. */
  lemma {:induction false} RequestIdHeaderIsLower()
    ensures ToLower("x-request-id") == "x-request-id"
  {
    ToLowerWithoutCapitals("x-request-id");
  }

  /** The SDK reads back everything the API's error response carries: the
      code's wire name, the message, the details, the status, and the request
      id from the header. */
  lemma {:induction false} ParseApiResponse(status: int, env: ErrorEnvelope)
    ensures ParseErrorEnvelope(ApiResponse(status, env)) ==
      Some(SdkError(CodeName(env.code), env.message,
                    if env.details.Some? then env.details.value else Undefined,
                    Some(status), Str(env.requestId), EnvelopeJson(env)))
  {
    ApiResponseParts(status, env);
    var body := EnvelopeJson(env);
    var headers := HeaderBag(map["x-request-id" := env.requestId]);
    EnvelopeJsonFields(env);
    EnvelopeTopLevel(env);
    assert IsNestedEnvelope(body);
    RequestIdHeaderIsLower();
    assert GetHeader(headers, "x-request-id") == Str(env.requestId);
    assert RequestIdOf(body, headers) == Str(env.requestId);
  }

  /** Given only the body, the parser as written loses the request id: the
      API nests it under `error`, and the parser looks for it at the top. */
  lemma {:induction false} BareEnvelopeLosesRequestId(env: ErrorEnvelope)
    ensures ParseErrorEnvelope(EnvelopeJson(env)).Some?
    ensures ParseErrorEnvelope(EnvelopeJson(env)).value.requestId == Undefined
  {
    EnvelopeJsonFields(env);
    EnvelopeTopLevel(env);
  }

  /** The request id with the API's nested `error.requestId` also read, after
      the top-level one and before the header. */
  function RequestIdOfCorrected(body: Value, headers: Value): (r: Value)
    ensures IsRecord(body) && Get(body, "requestId").Str? ==> r == Get(body, "requestId")
    ensures IsRecord(body) && !Get(body, "requestId").Str? && Get(Get(body, "error"), "requestId").Str? ==>
      r == Get(Get(body, "error"), "requestId")
    ensures r != RequestIdOf(body, headers) ==>
      !Get(body, "requestId").Str? && Get(Get(body, "error"), "requestId").Str?
  {
    var fromBody := if IsRecord(body) then AsStr(Get(body, "requestId")) else None;
    var fromError := if IsRecord(body) then AsStr(Get(Get(body, "error"), "requestId")) else None;
    if fromBody.Some? then Str(fromBody.value)
    else if fromError.Some? then Str(fromError.value)
    else GetHeader(headers, "x-request-id")
  }

  /** `parseErrorEnvelope` reading the nested request id. It differs from the
      parser as written only in the request id. */
  function ParseErrorEnvelopeCorrected(input: Value): (r: Option<SdkError>)
    ensures var w := ParseErrorEnvelope(input);
      && r.Some? == w.Some?
      && (r.Some? ==> r.value == w.value.(requestId := r.value.requestId))
      && (r.Some? ==> var n := NormalizeInput(input); r.value.requestId == RequestIdOfCorrected(n.body, n.headers))
  {
    var n := NormalizeInput(input);
    match ParseErrorEnvelope(input)
    case None => None
    case Some(e) => Some(e.(requestId := RequestIdOfCorrected(n.body, n.headers)))
  }

  /** With the correction, the bare body alone gives the request id back. */
  lemma {:induction false} BareEnvelopeKeepsRequestId(env: ErrorEnvelope)
    ensures ParseErrorEnvelopeCorrected(EnvelopeJson(env)).Some?
    ensures ParseErrorEnvelopeCorrected(EnvelopeJson(env)).value.requestId == Str(env.requestId)
    ensures ParseErrorEnvelopeCorrected(EnvelopeJson(env)).value.code == CodeName(env.code)
  {
    EnvelopeJsonFields(env);
    EnvelopeTopLevel(env);
  }

  /** With the header present the correction changes nothing. */
  lemma {:induction false} CorrectedAgreesOnApiResponse(status: int, env: ErrorEnvelope)
    ensures ParseErrorEnvelopeCorrected(ApiResponse(status, env)) == ParseErrorEnvelope(ApiResponse(status, env))
  {
    ApiResponseParts(status, env);
    EnvelopeJsonFields(env);
    EnvelopeTopLevel(env);
    ParseApiResponse(status, env);
  }
}
