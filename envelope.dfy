/** Success and error response envelopes (packages/api/src/core/http/envelope.ts). */
module Envelope {
  import opened Json
  import opened Wrappers
  import HttpErrors

  /** `{data, meta: {requestId}}` */
  datatype SuccessEnvelope = SuccessEnvelope(data: Value, requestId: string)

  function ToSuccessEnvelope(data: Value, requestId: string): SuccessEnvelope {
    SuccessEnvelope(data, requestId)
  }

  function SuccessJson(env: SuccessEnvelope): Value {
    Obj([Field("data", env.data), Field("meta", Obj([Field("requestId", Str(env.requestId))]))])
  }

  /** The serialised success envelope holds the data unchanged under `data`, the
      request id under `meta.requestId`, and no other key. */
  lemma {:induction false} SuccessEnvelopeShape(data: Value, requestId: string, key: string)
    ensures var j := SuccessJson(ToSuccessEnvelope(data, requestId));
      && Get(j, "data") == data
      && Get(Get(j, "meta"), "requestId") == Str(requestId)
      && (HasKey(j, key) <==> key == "data" || key == "meta")
      && (HasKey(Get(j, "meta"), key) <==> key == "requestId")
  {
    var d, m := Field("data", data), Field("meta", Obj([Field("requestId", Str(requestId))]));
    GetFront("data", data, [m]);
    GetSkip(d, [m], "meta");
    GetFront("meta", m.val, []);
    if key != "data" {
      GetSkip(d, [m], key);
      if key != "meta" {
        GetSkip(m, [], key);
      }
    }
    GetFront("requestId", Str(requestId), []);
    if key != "requestId" {
      GetSkip(Field("requestId", Str(requestId)), [], key);
    }
  }

  /** The error envelope schema: `error` is an object whose `code` is one of the
      enumerated names and whose `message` and `requestId` are strings;
      `details` may be anything, or absent. */
  predicate MatchesErrorSchema(v: Value) {
    var e := Get(v, "error");
    && v.Obj?
    && e.Obj?
    && Get(e, "code").Str? && HttpErrors.CodeFromName(Get(e, "code").s).Some?
    && Get(e, "message").Str?
    && Get(e, "requestId").Str?
  }

  /** Every envelope the server builds matches the schema, and a success
      envelope never does. */
  lemma {:induction false} EnvelopesMatchSchema(env: HttpErrors.ErrorEnvelope, s: SuccessEnvelope)
    ensures MatchesErrorSchema(HttpErrors.EnvelopeJson(env))
    ensures !MatchesErrorSchema(SuccessJson(s))
  {
    HttpErrors.EnvelopeJsonFields(env);
    HttpErrors.CodeNameRoundTrip(env.code);
    GetSkip(Field("data", s.data), [Field("meta", Obj([Field("requestId", Str(s.requestId))]))], "error");
    GetSkip(Field("meta", Obj([Field("requestId", Str(s.requestId))])), [], "error");
  }
}
