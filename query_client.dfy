/** The query client's error hook (apps/app/src/lib/query-client.ts): a query's
    or mutation's `meta` is narrowed to the pipeline's options before the
    error is handed on. */
module QueryClient {
  import opened Wrappers
  import opened Json
  import opened ErrorPipeline

  /** `asErrorMeta`: `{}` for anything that is not a non-null object;
      otherwise only a non-empty string `fallbackI18nKey` and a
      `suppressGlobalToast` that is exactly `true` are taken. */
  function AsErrorMeta(meta: Value): (r: Options)
    ensures !(Truthy(meta) && IsObject(meta)) ==> r == Options(None, false)
    ensures r.fallbackKey.Some? <==> IsObject(meta) && Get(meta, "fallbackI18nKey").Str? && Get(meta, "fallbackI18nKey").s != ""
    ensures r.fallbackKey.Some? ==> Get(meta, "fallbackI18nKey") == Str(r.fallbackKey.value)
    ensures r.suppress <==> IsObject(meta) && Get(meta, "suppressGlobalToast") == Bool(true)
  {
    if !Truthy(meta) || !IsObject(meta) then Options(None, false)
    else
      var key := Get(meta, "fallbackI18nKey");
      var fallbackKey := if key.Str? && |key.s| > 0 then Some(key.s) else None;
      Options(fallbackKey, Get(meta, "suppressGlobalToast") == Bool(true))
  }

  /** Every other key of `meta` is dropped: metas that agree on the two keys
      give the same options. */
  lemma {:induction false} AsErrorMetaReadsTwoKeys(a: Value, b: Value)
    requires a.Obj? && b.Obj?
    requires Get(a, "fallbackI18nKey") == Get(b, "fallbackI18nKey")
    requires Get(a, "suppressGlobalToast") == Get(b, "suppressGlobalToast")
    ensures AsErrorMeta(a) == AsErrorMeta(b)
  {
  }

  /** The `meta` object a caller writes for some options. */
  function MetaOf(o: Options): Value {
    Obj([Field("fallbackI18nKey", if o.fallbackKey.Some? then Str(o.fallbackKey.value) else Undefined),
         Field("suppressGlobalToast", Bool(o.suppress))])
  }

  /** Options written as `meta` come back unchanged, unless the fallback key is
      the empty string, which is dropped. */
  lemma {:induction false} AsErrorMetaOfMeta(o: Options)
    ensures o.fallbackKey != Some("") ==> AsErrorMeta(MetaOf(o)) == o
    ensures o.fallbackKey == Some("") ==> AsErrorMeta(MetaOf(o)) == o.(fallbackKey := None)
  {
    var m := MetaOf(o);
    var f0, f1 := m.fields[0], m.fields[1];
    assert m.fields == [f0] + ([f1] + []);
    GetFront("fallbackI18nKey", f0.val, [f1] + []);
    GetSkip(f0, [f1] + [], "suppressGlobalToast");
    GetFront("suppressGlobalToast", f1.val, []);
  }
}
