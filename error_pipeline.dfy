/** The web app's error pipeline (apps/app/src/lib/error-pipeline.ts): an
    error becomes a toast title, a message, an "unauthorized" flag and a
    fingerprint; toasts with the same fingerprint are suppressed for two
    seconds through a map updated in place; unauthorized errors go to the
    sign-out flow. The translation catalogue and the clock are parameters. */
module ErrorPipeline {
  import opened Wrappers
  import opened Json
  import opened Text
  import opened HttpErrors

  const DedupWindowMs := 2000

  /** The translations that exist and are strings (`i18n.exists` and `i18n.t`). */
  type Catalog = map<string, string>

  /** `translate`: the translation when there is one, else the fallback. */
  function Translate(cat: Catalog, key: string, fallback: string): (r: string)
    ensures key in cat ==> r == cat[key]
    ensures key !in cat ==> r == fallback
  {
    if key in cat then cat[key] else fallback
  }

  /** `ErrorPipelineOptions`; an absent `suppressGlobalToast` is `false`. */
  datatype Options = Options(fallbackKey: Option<string>, suppress: bool)

  /** `resolveFallbackMessage`: a non-empty translation of a non-empty key. */
  function ResolveFallbackMessage(cat: Catalog, options: Options): (r: Option<string>)
    ensures r.Some? <==> options.fallbackKey.Some? && options.fallbackKey.value != ""
                         && options.fallbackKey.value in cat && cat[options.fallbackKey.value] != ""
    ensures r.Some? ==> r.value == cat[options.fallbackKey.value]
  {
    match options.fallbackKey
    case None => None
    case Some(key) =>
      if key == "" || key !in cat then None
      else if cat[key] != "" then Some(cat[key]) else None
  }

  /** `asString`: a non-empty string, else `null`. */
  function AsString(v: Value): (r: Option<string>)
    ensures r.Some? <==> v.Str? && v.s != ""
    ensures r.Some? ==> r.value == v.s
  {
    if v.Str? && v.s != "" then Some(v.s) else None
  }

  /** `asNumber` (every modelled number is finite). */
  function AsNumber(v: Value): Option<int> {
    if v.Num? then Some(v.n) else None
  }

  const NetworkPhrases: seq<string> := ["failed to fetch", "networkerror", "network request failed", "fetch failed"]

  /** `isNetworkMessage`: false for `null` and the empty string; otherwise the
      lower-cased text contains one of the four phrases. */
  predicate IsNetworkMessage(message: Option<string>): (r: bool)
    ensures r <==> message.Some? && message.value != "" &&
                   exists i :: 0 <= i < |NetworkPhrases| && Contains(ToLower(message.value), NetworkPhrases[i])
  {
    if message.None? || message.value == "" then false
    else
      var normalized := ToLower(message.value);
      assert NetworkPhrases[0] == "failed to fetch" && NetworkPhrases[1] == "networkerror";
      assert NetworkPhrases[2] == "network request failed" && NetworkPhrases[3] == "fetch failed";
      || Contains(normalized, "failed to fetch")
      || Contains(normalized, "networkerror")
      || Contains(normalized, "network request failed")
      || Contains(normalized, "fetch failed")
  }

  lemma {:induction false} ToLowerIdempotent(s: string)
    ensures ToLower(ToLower(s)) == ToLower(s)
  {
    var l := ToLower(s);
    var ll := ToLower(l);
    forall i | 0 <= i < |s| ensures ll[i] == l[i] {
      assert l[i] == LowerChar(s[i]);
    }
  }

  /** The test ignores case: a message and its lower-cased form are judged alike. */
  lemma {:induction false} NetworkMessageIgnoresCase(m: string)
    ensures IsNetworkMessage(Some(ToLower(m))) == IsNetworkMessage(Some(m))
  {
    ToLowerIdempotent(m);
  }

  /** A message whose lower-cased text contains a phrase is a network message. */
  lemma {:induction false} NetworkWhenContains(m: string, k: nat)
    requires m != "" && k < |NetworkPhrases| && Contains(ToLower(m), NetworkPhrases[k])
    ensures IsNetworkMessage(Some(m))
  {
  }

  /** Each phrase, having no capital letters, is itself a network message. */
  lemma {:induction false} PhraseIsNetwork(k: nat)
    requires k < |NetworkPhrases|
    requires forall i :: 0 <= i < |NetworkPhrases[k]| ==> !('A' <= NetworkPhrases[k][i] <= 'Z')
    ensures IsNetworkMessage(Some(NetworkPhrases[k]))
  {
    var m := NetworkPhrases[k];
    assert Contains(ToLower(m), m) by {
      ToLowerWithoutCapitals(m);
      assert m[0..|m|] == m;
      assert OccursAt(m, m, 0);
    }
    NetworkWhenContains(m, k);
  }

  /** The message Node's `fetch` throws when the network is down. */
  lemma {:induction false} FetchFailedIsNetwork()
    ensures IsNetworkMessage(Some("fetch failed"))
  {
    PhraseIsNetwork(3);
  }

  // ---------------------------------------------------------------------------
  // The toast message

  const SessionExpiredKey := "errors.sessionExpired"
  const SessionExpiredText := "Your session has expired. Please sign in again."
  const NetworkKey := "errors.network"
  const NetworkText := "Network error"
  const UnknownKey := "errors.unknown"
  const UnknownText := "Something went wrong. Please try again."

  /** `a ?? b` */
  function Coalesce(a: Option<string>, b: Option<string>): (r: Option<string>)
    ensures a.Some? ==> r == a
    ensures a.None? ==> r == b
  {
    if a.Some? then a else b
  }

  /** The network text when the raw message is a network failure. */
  function NetworkStep(cat: Catalog, raw: Option<string>): (r: Option<string>)
    ensures r.Some? <==> IsNetworkMessage(raw)
  {
    if IsNetworkMessage(raw) then Some(Translate(cat, NetworkKey, NetworkText)) else None
  }

  /** The message chain as written: the preferred text (the mapped code text,
      then the fallback key's text), then the error's own non-empty message
      `msg`, then the network text if the raw message `raw` is a network
      failure, then the unknown-error text. */
  function MessageChainAsWritten(cat: Catalog, preferred: Option<string>, msg: Option<string>, raw: Option<string>): (r: string)
    ensures preferred.Some? ==> r == preferred.value
    ensures preferred.None? && msg.Some? ==> r == msg.value
  {
    Coalesce(preferred, Coalesce(msg, NetworkStep(cat, raw))).GetOr(Translate(cat, UnknownKey, UnknownText))
  }

  /** The network step of the chain as written never decides the message: the
      raw message is tested only after its non-empty form `msg` was found
      missing, and a missing or empty message is never a network failure. Both
      call sites pass `msg = asString(raw)`. */
  lemma {:induction false} NetworkFallbackUnreachable(cat: Catalog, preferred: Option<string>, raw: Option<string>)
    ensures var msg := if raw.Some? then AsString(Str(raw.value)) else None;
      MessageChainAsWritten(cat, preferred, msg, raw) ==
        Coalesce(preferred, msg).GetOr(Translate(cat, UnknownKey, UnknownText))
  {
  }

  /** The chain with the network test placed before the raw message, so that a
      network failure shows the network text. */
  function MessageChain(cat: Catalog, preferred: Option<string>, msg: Option<string>): (r: string)
    ensures preferred.Some? ==> r == preferred.value
    ensures preferred.None? && IsNetworkMessage(msg) ==> r == Translate(cat, NetworkKey, NetworkText)
    ensures preferred.None? && !IsNetworkMessage(msg) && msg.Some? ==> r == msg.value
    ensures preferred.None? && msg.None? ==> r == Translate(cat, UnknownKey, UnknownText)
  {
    Coalesce(preferred, Coalesce(NetworkStep(cat, msg), msg)).GetOr(Translate(cat, UnknownKey, UnknownText))
  }

  /** "fetch failed" with nothing preferred: the chain as written shows the
      raw text, the corrected one the network text. */
  lemma {:induction false} NetworkFallbackExample()
    ensures MessageChainAsWritten(map[], None, Some("fetch failed"), Some("fetch failed")) == "fetch failed"
    ensures MessageChain(map[], None, Some("fetch failed")) == NetworkText
  {
    FetchFailedIsNetwork();
  }

  /** The two chains differ only on network failures. */
  lemma {:induction false} MessageChainAgrees(cat: Catalog, preferred: Option<string>, msg: Option<string>)
    requires msg.Some? ==> msg.value != ""
    ensures !IsNetworkMessage(msg) ==> MessageChain(cat, preferred, msg) == MessageChainAsWritten(cat, preferred, msg, msg)
  {
  }

  // ---------------------------------------------------------------------------
  // The UI error

  /** What `toUiError` receives: an API client error (its class is not part of
      this model; the fields are the ones read here), or any other value. */
  datatype Thrown =
    | ApiClientError(code: Option<string>, status: Option<int>, requestId: Option<string>, message: string)
    | Other(v: Value)

  datatype UiError = UiError(title: string, message: string, isUnauthorized: bool, fingerprint: string)

  /** `ERROR_CODE_TO_I18N_KEY[error.code]` for a non-empty code: a key for each
      of the nine API codes, none for anything else. */
  function MappedKey(code: Option<string>): (r: Option<string>)
    ensures r.Some? <==> code.Some? && CodeFromName(code.value).Some?
    ensures r.Some? ==> r.value == "errors.codes." + code.value
  {
    if code.Some? && code.value != "" && CodeFromName(code.value).Some? then Some("errors.codes." + code.value)
    else None
  }

  /** The mapped code's non-empty translation. */
  function MappedMessage(cat: Catalog, code: Option<string>): (r: Option<string>)
    ensures r.Some? <==> MappedKey(code).Some? && MappedKey(code).value in cat && cat[MappedKey(code).value] != ""
    ensures r.Some? ==> r.value == cat[MappedKey(code).value]
  {
    match MappedKey(code)
    case None => None
    case Some(key) => if key in cat && Translate(cat, key, "") != "" then Some(Translate(cat, key, "")) else None
  }

  predicate ApiUnauthorized(status: Option<int>, code: Option<string>) {
    status == Some(401) || code == Some("AUTH_INVALID_TOKEN") || code == Some("AUTH_MISSING_TOKEN")
  }

  predicate GenericUnauthorized(status: Option<int>, code: Option<string>) {
    status == Some(401) || code == Some("AUTH_INVALID_TOKEN") || code == Some("invalid_token")
  }

  /** `x ?? 'unknown-status'` for a number joined into a string. */
  function StatusText(status: Option<int>): string {
    if status.Some? then IntToString(status.value) else "unknown-status"
  }

  function ApiFingerprint(code: Option<string>, status: Option<int>, requestId: Option<string>, message: string): string {
    Join(["api", code.GetOr("unknown-code"), StatusText(status), requestId.GetOr("unknown-request"), message], '|')
  }

  function GenericFingerprint(status: Option<int>, code: Option<string>, message: string): string {
    Join(["generic", StatusText(status), code.GetOr("unknown-code"), message], '|')
  }

  /** The status and code `toUiError` reads from a value that is not an API error. */
  function GenericStatus(v: Value): Option<int> {
    AsNumber(Get(v, "status"))
  }

  function GenericCode(v: Value): Option<string> {
    AsString(Get(v, "code"))
  }

  /** `getGenericErrorMessage`: an `Error`'s message and a record's `message`
      property are the same property here. */
  function GenericMessage(v: Value): Option<string> {
    AsString(Get(v, "message"))
  }

  /** The text an authorised error prefers over its own message: for an API
      error the code's translation, then the caller's fallback text; for any
      other error the fallback text. */
  function PreferredText(err: Thrown, options: Options, cat: Catalog): Option<string> {
    match err
    case ApiClientError(code, _, _, _) => Coalesce(MappedMessage(cat, code), ResolveFallbackMessage(cat, options))
    case Other(_) => ResolveFallbackMessage(cat, options)
  }

  /** The error's own non-empty message: `asString(error.message)` for an API
      error, `getGenericErrorMessage` for any other. */
  function OwnMessage(err: Thrown): Option<string> {
    match err
    case ApiClientError(_, _, _, message) => AsString(Str(message))
    case Other(v) => GenericMessage(v)
  }

  /** What `isNetworkMessage` is applied to: the API error's message as it is,
      or the generic message. */
  function RawMessage(err: Thrown): Option<string> {
    match err
    case ApiClientError(_, _, _, message) => Some(message)
    case Other(v) => GenericMessage(v)
  }

  predicate IsUnauthorized(err: Thrown) {
    match err
    case ApiClientError(code, status, _, _) => ApiUnauthorized(status, code)
    case Other(v) => GenericUnauthorized(GenericStatus(v), GenericCode(v))
  }

  function FingerprintOf(err: Thrown, message: string): string {
    match err
    case ApiClientError(code, status, requestId, _) => ApiFingerprint(code, status, requestId, message)
    case Other(v) => GenericFingerprint(GenericStatus(v), GenericCode(v), message)
  }

  /** The UI error of `err` whose message, unless it is unauthorized, is `text`. */
  function UiErrorWithText(err: Thrown, cat: Catalog, text: string): UiError {
    var message := if IsUnauthorized(err) then Translate(cat, SessionExpiredKey, SessionExpiredText) else text;
    UiError(Translate(cat, "errors.title", "Request failed"), message, IsUnauthorized(err), FingerprintOf(err, message))
  }

  /** `toUiError` as written. An unauthorized error always gets the
      session-expired text; any other error gets the message chain as written;
      the fingerprint starts with the kind of error and ends with the message. */
  function ToUiError(err: Thrown, options: Options, cat: Catalog): (r: UiError)
    ensures r.title == Translate(cat, "errors.title", "Request failed")
    ensures err.ApiClientError? ==> (r.isUnauthorized <==> ApiUnauthorized(err.status, err.code))
    ensures err.Other? ==> (r.isUnauthorized <==> GenericUnauthorized(GenericStatus(err.v), GenericCode(err.v)))
    ensures r.isUnauthorized ==> r.message == Translate(cat, SessionExpiredKey, SessionExpiredText)
    ensures !r.isUnauthorized ==>
      r.message == MessageChainAsWritten(cat, PreferredText(err, options, cat), OwnMessage(err), RawMessage(err))
    ensures err.ApiClientError? ==> r.fingerprint == ApiFingerprint(err.code, err.status, err.requestId, r.message)
    ensures err.Other? ==>
      r.fingerprint == GenericFingerprint(GenericStatus(err.v), GenericCode(err.v), r.message)
  {
    UiErrorWithText(err, cat, MessageChainAsWritten(cat, PreferredText(err, options, cat), OwnMessage(err), RawMessage(err)))
  }

  /** `toUiError` with the corrected chain: the same title, flag and
      fingerprint rule, and an authorised network failure with no preferred
      text shows the network text. */
  function ToUiErrorCorrected(err: Thrown, options: Options, cat: Catalog): (r: UiError)
    ensures var w := ToUiError(err, options, cat);
      && r.title == w.title && r.isUnauthorized == w.isUnauthorized
      && (r.isUnauthorized ==> r == w)
      && r.fingerprint == FingerprintOf(err, r.message)
    ensures !r.isUnauthorized ==> r.message == MessageChain(cat, PreferredText(err, options, cat), OwnMessage(err))
    ensures !r.isUnauthorized && PreferredText(err, options, cat).None? && IsNetworkMessage(OwnMessage(err)) ==>
      r.message == Translate(cat, NetworkKey, NetworkText)
  {
    UiErrorWithText(err, cat, MessageChain(cat, PreferredText(err, options, cat), OwnMessage(err)))
  }

  /** The network test reads the raw message, but only after its non-empty
      form was found missing, and then it is never a network failure. */
  lemma {:induction false} RawNetworkOnlyWithOwnMessage(err: Thrown)
    ensures IsNetworkMessage(RawMessage(err)) ==> OwnMessage(err) == RawMessage(err)
  {
  }

  /** The corrected `toUiError` changes nothing for an error whose message is
      not a network failure. */
  lemma {:induction false} ToUiErrorCorrectedAgrees(err: Thrown, options: Options, cat: Catalog)
    requires !IsNetworkMessage(OwnMessage(err))
    ensures ToUiErrorCorrected(err, options, cat) == ToUiError(err, options, cat)
  {
    var preferred := PreferredText(err, options, cat);
    RawNetworkOnlyWithOwnMessage(err);
    MessageChainAgrees(cat, preferred, OwnMessage(err));
    NetworkFallbackUnreachable(cat, preferred, RawMessage(err));
  }

  /** Which text an authorised error shows as written: the code's translation
      first, then the caller's fallback key, then the error's own message, then
      the unknown-error text; the corrected version puts the network text
      before the error's own message. */
  lemma {:induction false} ToastMessagePrecedence(err: Thrown, options: Options, cat: Catalog)
    requires !ToUiError(err, options, cat).isUnauthorized
    ensures var r := ToUiError(err, options, cat);
      var fallback := ResolveFallbackMessage(cat, options);
      var mapped := if err.ApiClientError? then MappedMessage(cat, err.code) else None;
      var msg := if err.ApiClientError? then AsString(Str(err.message)) else GenericMessage(err.v);
      && (mapped.Some? ==> r.message == mapped.value)
      && (mapped.None? && fallback.Some? ==> r.message == fallback.value)
      && (mapped.None? && fallback.None? && msg.Some? ==> r.message == msg.value)
      && (mapped.None? && fallback.None? && msg.None? ==> r.message == Translate(cat, UnknownKey, UnknownText))
      && ToUiErrorCorrected(err, options, cat).message ==
           (if mapped.None? && fallback.None? then MessageChain(cat, None, msg) else r.message)
  {
    var preferred := PreferredText(err, options, cat);
    NetworkFallbackUnreachable(cat, preferred, RawMessage(err));
    RawNetworkOnlyWithOwnMessage(err);
  }

  /** Every step of either chain yields a non-empty text, so a toast is never
      blank as long as the last-resort texts are not translated to blank. */
  lemma {:induction false} ToastMessageNonEmpty(err: Thrown, options: Options, cat: Catalog)
    requires SessionExpiredKey in cat ==> cat[SessionExpiredKey] != ""
    requires NetworkKey in cat ==> cat[NetworkKey] != ""
    requires UnknownKey in cat ==> cat[UnknownKey] != ""
    ensures ToUiError(err, options, cat).message != ""
    ensures ToUiErrorCorrected(err, options, cat).message != ""
  {
    var preferred := PreferredText(err, options, cat);
    if err.ApiClientError? {
      assert preferred.Some? ==> preferred.value != "";
    }
  }

  lemma {:induction false} SplitOfFingerprint(parts: seq<string>)
    requires |parts| >= 1 && '|' !in parts[0]
    ensures Split(Join(parts, '|'), '|')[0] == parts[0]
  {
    if |parts| == 1 {
      SplitWithoutSeparator(parts[0], '|');
    } else {
      SplitAfterPrefix(parts[0], '|', Join(parts[1..], '|'));
    }
  }

  /** An API error and any other error never share a fingerprint, so one
      cannot suppress the toast of the other. */
  lemma {:induction false} FingerprintKindsDiffer(a: Thrown, b: Thrown, options: Options, cat: Catalog)
    requires a.ApiClientError? && b.Other?
    ensures ToUiError(a, options, cat).fingerprint != ToUiError(b, options, cat).fingerprint
    ensures ToUiErrorCorrected(a, options, cat).fingerprint != ToUiErrorCorrected(b, options, cat).fingerprint
  {
    var ra, rb := ToUiError(a, options, cat), ToUiError(b, options, cat);
    FingerprintKind(a, ra.message);
    FingerprintKind(b, rb.message);
    var ca, cb := ToUiErrorCorrected(a, options, cat), ToUiErrorCorrected(b, options, cat);
    FingerprintKind(a, ca.message);
    FingerprintKind(b, cb.message);
  }

  /** The first part of a fingerprint names the kind of error. */
  lemma {:induction false} FingerprintKind(err: Thrown, message: string)
    ensures Split(FingerprintOf(err, message), '|')[0] == (if err.ApiClientError? then "api" else "generic")
  {
    match err
    case ApiClientError(code, status, requestId, _) =>
      SplitOfFingerprint(["api", code.GetOr("unknown-code"), StatusText(status), requestId.GetOr("unknown-request"), message]);
    case Other(v) =>
      SplitOfFingerprint(["generic", StatusText(GenericStatus(v)), GenericCode(v).GetOr("unknown-code"), message]);
  }

  /** The fingerprint of an API error determines its code, status, request id
      and message, as long as none of them contains the separator '|'. */
  lemma {:induction false} ApiFingerprintInjective(c1: Option<string>, s1: Option<int>, q1: Option<string>, m1: string,
                                c2: Option<string>, s2: Option<int>, q2: Option<string>, m2: string)
    requires '|' !in c1.GetOr("") && '|' !in q1.GetOr("") && '|' !in m1
    requires '|' !in c2.GetOr("") && '|' !in q2.GetOr("") && '|' !in m2
    requires ApiFingerprint(c1, s1, q1, m1) == ApiFingerprint(c2, s2, q2, m2)
    ensures c1.GetOr("unknown-code") == c2.GetOr("unknown-code")
    ensures StatusText(s1) == StatusText(s2)
    ensures q1.GetOr("unknown-request") == q2.GetOr("unknown-request")
    ensures m1 == m2
  {
    var p1 := ["api", c1.GetOr("unknown-code"), StatusText(s1), q1.GetOr("unknown-request"), m1];
    var p2 := ["api", c2.GetOr("unknown-code"), StatusText(s2), q2.GetOr("unknown-request"), m2];
    StatusTextNoSeparator(s1);
    StatusTextNoSeparator(s2);
    forall p | p in p1 ensures '|' !in p {
    }
    forall p | p in p2 ensures '|' !in p {
    }
    SplitJoin(p1, '|');
    SplitJoin(p2, '|');
  }

  lemma {:induction false} StatusTextNoSeparator(s: Option<int>)
    ensures '|' !in StatusText(s)
  {
    if s.Some? {
      var t := if s.value < 0 then NatToString(-s.value) else NatToString(s.value);
      assert forall k :: 0 <= k < |t| ==> IsDigit(t[k]);
      if s.value < 0 {
        assert StatusText(s) == "-" + t;
      }
    }
  }

  // ---------------------------------------------------------------------------
  // Toast de-duplication

  /** The entries still inside the window at `now`. */
  function Pruned(m: map<string, int>, now: int): (r: map<string, int>)
    ensures forall k :: k in r <==> k in m && now - m[k] <= DedupWindowMs
    ensures forall k :: k in r ==> r[k] == m[k]
  {
    map k | k in m && now - m[k] <= DedupWindowMs :: m[k]
  }

  /** `previous && now - previous <= TOAST_DEDUP_WINDOW_MS` (a zero timestamp
      is falsy). */
  predicate SeenRecently(m: map<string, int>, fingerprint: string, now: int) {
    fingerprint in m && m[fingerprint] != 0 && now - m[fingerprint] <= DedupWindowMs
  }

  /** `shouldSkipToast`'s answer. */
  function SkipDecision(m: map<string, int>, fingerprint: string, now: int): bool {
    SeenRecently(Pruned(m, now), fingerprint, now)
  }

  /** The map after `shouldSkipToast`: pruned, and the fingerprint recorded
      at `now` unless the toast was skipped. */
  function AfterToast(m: map<string, int>, fingerprint: string, now: int): map<string, int> {
    var p := Pruned(m, now);
    if SeenRecently(p, fingerprint, now) then p else p[fingerprint := now]
  }

  /** Pruning first does not change the decision: a toast is skipped exactly
      when its fingerprint was recorded, at a non-zero time, at most two
      seconds ago. A skipped toast keeps its old timestamp; a shown one is
      stamped `now`; every other fingerprint survives exactly when it is inside
      the window; and nothing older than the window remains. */
  lemma {:induction false} ToastStep(m: map<string, int>, fingerprint: string, now: int)
    ensures SkipDecision(m, fingerprint, now) <==> SeenRecently(m, fingerprint, now)
    ensures var after := AfterToast(m, fingerprint, now);
      && (SkipDecision(m, fingerprint, now) ==> after[fingerprint] == m[fingerprint])
      && (!SkipDecision(m, fingerprint, now) ==> after[fingerprint] == now)
      && (forall k :: k != fingerprint ==> (k in after <==> k in m && now - m[k] <= DedupWindowMs))
      && (forall k :: k in after ==> now - after[k] <= DedupWindowMs)
  {
  }

  /** Several toasts in a row. */
  function Replay(m: map<string, int>, fingerprints: seq<string>, times: seq<int>): map<string, int>
    requires |fingerprints| == |times|
    decreases |fingerprints|
  {
    if fingerprints == [] then m
    else Replay(AfterToast(m, fingerprints[0], times[0]), fingerprints[1..], times[1..])
  }

  /** An entry stamped at a non-zero time survives any toasts, of any
      fingerprint, requested no later than two seconds after it, with its
      timestamp unchanged: repeats of its own fingerprint are skipped and do not
      refresh it. */
  lemma {:induction false} EntrySurvives(m: map<string, int>, fingerprint: string, others: seq<string>,
                                         times: seq<int>, now: int)
    requires fingerprint in m && m[fingerprint] != 0 && now - m[fingerprint] <= DedupWindowMs
    requires |others| == |times|
    requires forall i :: 0 <= i < |times| ==> times[i] <= now
    ensures var m' := Replay(m, others, times);
      fingerprint in m' && m'[fingerprint] == m[fingerprint]
    decreases |others|
  {
    if others != [] {
      var a := AfterToast(m, others[0], times[0]);
      assert fingerprint in a && a[fingerprint] == m[fingerprint];
      EntrySurvives(a, fingerprint, others[1..], times[1..], now);
    }
  }

  /** A toast shown at a non-zero time `t` suppresses the same fingerprint at
      any time up to two seconds later, whatever toasts came in between. */
  lemma {:induction false} DedupWindow(m: map<string, int>, fingerprint: string, t: int, others: seq<string>, times: seq<int>, now: int)
    requires t != 0 && !SkipDecision(m, fingerprint, t)
    requires |others| == |times|
    requires t <= now && now - t <= DedupWindowMs
    requires forall i :: 0 <= i < |times| ==> times[i] <= now
    ensures SkipDecision(Replay(AfterToast(m, fingerprint, t), others, times), fingerprint, now)
  {
    EntrySurvives(AfterToast(m, fingerprint, t), fingerprint, others, times, now);
  }

  /** What `handleUiError` did. */
  datatype Outcome =
    | Suppressed
    | SignOut(ui: UiError, toastShown: bool)
    | Toast(ui: UiError, shown: bool)

  class ToastDeduper {
    /** `recentToastByFingerprint`: when each fingerprint was last shown. */
    var recent: map<string, int>

    constructor ()
      ensures recent == map[]
    {
      recent := map[];
    }

    /** `shouldSkipToast`: delete every entry older than the window, then skip
        a fingerprint seen inside it, or record it at `now`. */
    method ShouldSkipToast(fingerprint: string, now: int) returns (skip: bool)
      modifies this
      ensures skip == SkipDecision(old(recent), fingerprint, now)
      ensures recent == AfterToast(old(recent), fingerprint, now)
    {
      var pending := recent.Keys;
      while pending != {}
        invariant pending <= old(recent).Keys
        invariant forall k :: k in recent <==> k in old(recent) && (k in pending || now - old(recent)[k] <= DedupWindowMs)
        invariant forall k :: k in recent ==> recent[k] == old(recent)[k]
        decreases pending
      {
        var key :| key in pending;
        if now - recent[key] > DedupWindowMs {
          recent := recent - {key};
        }
        pending := pending - {key};
      }
      assert recent == Pruned(old(recent), now);
      if fingerprint in recent && recent[fingerprint] != 0 && now - recent[fingerprint] <= DedupWindowMs {
        return true;
      }
      recent := recent[fingerprint := now];
      skip := false;
    }

    /** `showErrorToast`: shown unless de-duplicated. */
    method ShowErrorToast(ui: UiError, now: int) returns (shown: bool)
      modifies this
      ensures shown == !SkipDecision(old(recent), ui.fingerprint, now)
      ensures recent == AfterToast(old(recent), ui.fingerprint, now)
    {
      var skip := ShouldSkipToast(ui.fingerprint, now);
      shown := !skip;
    }

    /** `handleUiError`: nothing when the caller suppresses toasts; an
        unauthorized error starts the sign-out flow, whose toast goes through
        the same de-duplication; any other error shows a toast. */
    method HandleUiError(err: Thrown, options: Options, cat: Catalog, now: int) returns (outcome: Outcome)
      modifies this
      ensures options.suppress ==> outcome == Suppressed && recent == old(recent)
      ensures !options.suppress ==>
        var ui := ToUiError(err, options, cat);
        var shown := !SkipDecision(old(recent), ui.fingerprint, now);
        && outcome == (if ui.isUnauthorized then SignOut(ui, shown) else Toast(ui, shown))
        && recent == AfterToast(old(recent), ui.fingerprint, now)
    {
      if options.suppress {
        return Suppressed;
      }
      var ui := ToUiError(err, options, cat);
      var shown := ShowErrorToast(ui, now);
      if ui.isUnauthorized {
        outcome := SignOut(ui, shown);
      } else {
        outcome := Toast(ui, shown);
      }
    }
  }
}
