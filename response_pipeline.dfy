/** One request through the hooks registered in packages/api/src/app.ts: the
    request-context hooks, the handler (or the failure it raises) and the global
    error handler. The property the integration tests check is that the
    response's `x-request-id` header equals the `requestId` in its body. */
module ResponsePipeline {
  import opened Wrappers
  import opened Json
  import HttpErrors
  import Envelope
  import ErrorHandler
  import RequestContext

  /** What happened after the hooks: the handler returned data, or something
      failed. `derived` says whether the `derive` hook had already run when it
      failed (a malformed body or an unknown route fails before it does). */
  datatype Outcome =
    | Succeeded(data: Value)
    | Failed(fc: HttpErrors.FrameworkCode, caught: HttpErrors.Caught, derived: bool)

  datatype Response = Response(status: int, headers: map<string, string>, body: Value)

  /** The request id in a response body, if it has one. */
  function BodyRequestId(body: Value): Option<string> {
    var m := Get(Get(body, "meta"), "requestId");
    var e := Get(Get(body, "error"), "requestId");
    if m.Str? then Some(m.s) else if e.Str? then Some(e.s) else None
  }

  /** How a request ends: with a response, or with the error hook throwing
      after the request-context error hook has written `headers`. What the
      framework sends after a hook throws is not part of this model. */
  datatype Served = Answered(resp: Response) | HookThrew(headers: map<string, string>)

  /** The request with the plugins as packages/api/src/app.ts:56 and :69
      create them, without a logger: successes are answered as usual, but the
      error hook throws on every failure, so no failure gets an error envelope. */
  method ServeAsWired(header: Option<string>, freshId: string, errorFreshId: string, outcome: Outcome)
    returns (r: Served)
    requires freshId != [] && errorFreshId != []
    ensures r.Answered? <==> outcome.Succeeded?
    ensures r.Answered? ==>
      && r.resp.status == 200
      && RequestContext.RequestIdHeader in r.resp.headers
      && BodyRequestId(r.resp.body) == Some(r.resp.headers[RequestContext.RequestIdHeader])
    ensures outcome.Failed? ==>
      var derived := if outcome.derived then Some(RequestContext.Derive(header, freshId)) else None;
      r == HookThrew(map[RequestContext.RequestIdHeader := RequestContext.ErrorPathRequestId(derived, header, errorFreshId)])
  {
    var ctx := new RequestContext.ResponseSet();
    if outcome.Succeeded? {
      var id := RequestContext.Derive(header, freshId);
      RequestContext.BeforeHandle(ctx, id);
      var env := Envelope.ToSuccessEnvelope(outcome.data, id);
      RequestContext.MapResponse(ctx, id, None);
      var body := Envelope.SuccessJson(env);
      Envelope.SuccessEnvelopeShape(env.data, id, "meta");
      r := Answered(Response(ctx.status, ctx.HeaderMap(), body));
    } else {
      var derived := if outcome.derived then Some(RequestContext.Derive(header, freshId)) else None;
      RequestContext.OnError(ctx, derived, header, errorFreshId);
      var hook := ErrorHandler.RunErrorHook(None, outcome.fc, outcome.caught, derived);
      assert hook.ThrewTypeError?;
      r := HookThrew(ctx.HeaderMap());
    }
  }

  /** The request with both plugins given the container's logger
      (packages/api/src/bootstrap/create-container.ts:27-30). On the error path
      the handler then puts 'unknown' in the body when no id was derived, while
      the header gets a freshly resolved one. */
  method ServeWithLogger(logger: ErrorHandler.Logger, header: Option<string>, freshId: string, errorFreshId: string, outcome: Outcome)
    returns (r: Response)
    requires freshId != [] && errorFreshId != []
    ensures outcome.Succeeded? ==> r.status == 200
    ensures outcome.Failed? && outcome.derived ==>
      r.status == ErrorHandler.OnError(outcome.fc, outcome.caught, Some(RequestContext.Derive(header, freshId))).status
    ensures outcome.Succeeded? || outcome.derived ==>
      RequestContext.RequestIdHeader in r.headers && BodyRequestId(r.body) == Some(r.headers[RequestContext.RequestIdHeader])
    ensures outcome.Failed? && !outcome.derived ==>
      BodyRequestId(r.body) == Some("unknown") &&
      r.headers == map[RequestContext.RequestIdHeader := RequestContext.ResolveRequestId(header, errorFreshId)]
  {
    var ctx := new RequestContext.ResponseSet();
    if outcome.Succeeded? {
      var id := RequestContext.Derive(header, freshId);
      RequestContext.BeforeHandle(ctx, id);
      var env := Envelope.ToSuccessEnvelope(outcome.data, id);
      RequestContext.MapResponse(ctx, id, None);
      var body := Envelope.SuccessJson(env);
      Envelope.SuccessEnvelopeShape(env.data, id, "meta");
      r := Response(ctx.status, ctx.HeaderMap(), body);
    } else {
      var derived := if outcome.derived then Some(RequestContext.Derive(header, freshId)) else None;
      RequestContext.OnError(ctx, derived, header, errorFreshId);
      var h := ErrorHandler.RunErrorHook(Some(logger), outcome.fc, outcome.caught, derived).handled;
      ctx.status := h.status;
      var body := HttpErrors.EnvelopeJson(h.body);
      ErrorBodyRequestId(h.body);
      r := Response(ctx.status, ctx.HeaderMap(), body);
    }
  }

  /** When the failure comes before `derive`, header and body disagree: with no
      caller id the header holds the fresh id and the body says 'unknown'. */
  lemma {:induction false} HeaderBodyMismatchBeforeDerive(fc: HttpErrors.FrameworkCode, caught: HttpErrors.Caught)
    ensures var h := ErrorHandler.OnError(fc, caught, None);
      var headerId := RequestContext.ErrorPathRequestId(None, None, "f");
      BodyRequestId(HttpErrors.EnvelopeJson(h.body)) == Some("unknown") && headerId == "f"
  {
    ErrorBodyRequestId(ErrorHandler.OnError(fc, caught, None).body);
  }

  /** The request with both plugins given their logger and the error handler
      reading the id the error hook resolved, so that header and body always
      agree. */
  method Serve(logger: ErrorHandler.Logger, header: Option<string>, freshId: string, errorFreshId: string, outcome: Outcome)
    returns (r: Response)
    requires freshId != [] && errorFreshId != []
    ensures outcome.Succeeded? ==> r.status == 200
    ensures outcome.Failed? && outcome.derived ==>
      r.status == ErrorHandler.OnError(outcome.fc, outcome.caught, Some(RequestContext.Derive(header, freshId))).status
    ensures RequestContext.RequestIdHeader in r.headers
    ensures BodyRequestId(r.body) == Some(r.headers[RequestContext.RequestIdHeader])
    ensures header.Some? && header.value != [] ==> r.headers[RequestContext.RequestIdHeader] == header.value
  {
    var ctx := new RequestContext.ResponseSet();
    if outcome.Succeeded? {
      var id := RequestContext.Derive(header, freshId);
      RequestContext.BeforeHandle(ctx, id);
      var env := Envelope.ToSuccessEnvelope(outcome.data, id);
      RequestContext.MapResponse(ctx, id, None);
      var body := Envelope.SuccessJson(env);
      Envelope.SuccessEnvelopeShape(env.data, id, "meta");
      r := Response(ctx.status, ctx.HeaderMap(), body);
    } else {
      var derived := if outcome.derived then Some(RequestContext.Derive(header, freshId)) else None;
      RequestContext.OnError(ctx, derived, header, errorFreshId);
      var id := RequestContext.ErrorPathRequestId(derived, header, errorFreshId);
      var h := ErrorHandler.RunErrorHook(Some(logger), outcome.fc, outcome.caught, Some(id)).handled;
      ctx.status := h.status;
      var body := HttpErrors.EnvelopeJson(h.body);
      ErrorBodyRequestId(h.body);
      r := Response(ctx.status, ctx.HeaderMap(), body);
    }
  }

  /** An error body's request id is the envelope's. */
  lemma {:induction false} ErrorBodyRequestId(env: HttpErrors.ErrorEnvelope)
    ensures BodyRequestId(HttpErrors.EnvelopeJson(env)) == Some(env.requestId)
  {
    HttpErrors.EnvelopeJsonFields(env);
    GetSkip(Field("error", Get(HttpErrors.EnvelopeJson(env), "error")), [], "meta");
  }
}
