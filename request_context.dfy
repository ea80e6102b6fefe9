/** Request-id propagation (packages/api/src/core/plugins/request-context.ts):
    the id is taken from the caller's `x-request-id` header or freshly
    generated, and written into the response headers before handling, when the
    response is mapped, and on the error path. */
module RequestContext {
  import opened Wrappers

  const RequestIdHeader := "x-request-id"

  /** A non-empty caller-supplied id is reused verbatim; otherwise the freshly
      generated id (`crypto.randomUUID()`, passed in) is used. */
  function ResolveRequestId(header: Option<string>, freshId: string): (id: string)
    ensures header.Some? && header.value != [] ==> id == header.value
    ensures !(header.Some? && header.value != []) ==> id == freshId
  {
    if header.Some? && |header.value| > 0 then header.value else freshId
  }

  /** Resolution is stable: a request that carries the id this one resolved to
      resolves to the same id, whatever fresh id is drawn. */
  lemma {:induction false} ResolveStable(header: Option<string>, freshId: string, otherFresh: string)
    requires freshId != []
    ensures ResolveRequestId(Some(ResolveRequestId(header, freshId)), otherFresh) == ResolveRequestId(header, freshId)
    ensures ResolveRequestId(header, freshId) != []
  {
  }

  /** The framework's mutable response settings (`set`); `headers` may be absent. */
  class ResponseSet {
    var headers: Option<map<string, string>>
    var status: int

    constructor ()
      ensures headers == None && status == 200
    {
      headers := None;
      status := 200;
    }

    function HeaderMap(): map<string, string>
      reads this
    {
      headers.GetOr(map[])
    }

    /** `applyRequestIdHeader`: create the header map if absent, then set the
        request-id header; every other header is left as it was. */
    method ApplyRequestIdHeader(requestId: string)
      modifies this
      ensures headers == Some(old(HeaderMap())[RequestIdHeader := requestId])
      ensures status == old(status)
    {
      if headers.None? {
        headers := Some(map[]);
      }
      headers := Some(headers.value[RequestIdHeader := requestId]);
    }
  }

  /** A `Response` object returned by a handler, whose headers can be set. */
  class HttpResponse {
    var headers: map<string, string>

    constructor (headers: map<string, string>)
      ensures this.headers == headers
    {
      this.headers := headers;
    }
  }

  /** The `derive` hook: the id this request is handled under. */
  function Derive(header: Option<string>, freshId: string): string {
    ResolveRequestId(header, freshId)
  }

  /** The `beforeHandle` hook. */
  method BeforeHandle(ctx: ResponseSet, requestId: string)
    modifies ctx
    ensures ctx.headers == Some(old(ctx.HeaderMap())[RequestIdHeader := requestId])
    ensures ctx.status == old(ctx.status)
  {
    ctx.ApplyRequestIdHeader(requestId);
  }

  /** The `mapResponse` hook: the header goes on `set`, and also on the
      response itself when the handler returned a `Response`. */
  method MapResponse(ctx: ResponseSet, requestId: string, response: Option<HttpResponse>)
    modifies ctx
    modifies if response.Some? then {response.value} else {}
    ensures ctx.headers == Some(old(ctx.HeaderMap())[RequestIdHeader := requestId])
    ensures ctx.status == old(ctx.status)
    ensures response.Some? ==> response.value.headers == old(response.value.headers)[RequestIdHeader := requestId]
  {
    ctx.ApplyRequestIdHeader(requestId);
    if response.Some? {
      var r := response.value;
      r.headers := r.headers[RequestIdHeader := requestId];
    }
  }

  /** The id the error hook writes: the derived id if there is a non-empty one,
      otherwise the caller's header is resolved again. */
  function ErrorPathRequestId(derived: Option<string>, header: Option<string>, freshId: string): (id: string)
    ensures derived.Some? && derived.value != [] ==> id == derived.value
    ensures !(derived.Some? && derived.value != []) ==> id == ResolveRequestId(header, freshId)
  {
    if derived.Some? && |derived.value| > 0 then derived.value else ResolveRequestId(header, freshId)
  }

  /** The `onError` hook of this plugin. */
  method OnError(ctx: ResponseSet, derived: Option<string>, header: Option<string>, freshId: string)
    modifies ctx
    ensures ctx.headers == Some(old(ctx.HeaderMap())[RequestIdHeader := ErrorPathRequestId(derived, header, freshId)])
    ensures ctx.status == old(ctx.status)
  {
    var safeRequestId := ErrorPathRequestId(derived, header, freshId);
    ctx.ApplyRequestIdHeader(safeRequestId);
  }
}
