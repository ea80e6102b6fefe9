/** The superseded authentication of `/api/todos`: the verifier that reads
    the process environment at every call (packages/api/src/auth.ts) and the
    plugin pair that derives `auth` and refuses requests without it
    (packages/api/src/plugins/auth.ts). Its `getBearerToken` is the same
    code as the new guard's `extractBearerToken`, so the model uses
    `AuthGuard.ExtractBearerToken` for both. */
module LegacyAuth {
  import opened Wrappers
  import opened Json
  import opened AuthPort
  import AuthGuard
  import SupabaseAuth
  import RequestContext

  /** `process.env`: every variable that is set, with its raw value. */
  type RuntimeEnv = map<string, string>

  const SecretKey := "SUPABASE_JWT_SECRET"
  const IssuerKey := "SUPABASE_JWT_ISS"
  const JwksUrlKey := "SUPABASE_JWKS_URL"

  /** `getRuntimeEnv().KEY`: the value, or undefined. */
  function Lookup(env: RuntimeEnv, key: string): (r: Option<string>)
    ensures r.Some? <==> key in env
    ensures r.Some? ==> r.value == env[key]
  {
    if key in env then Some(env[key]) else None
  }

  /** Why the legacy verifier throws: one of the new verifier's reasons, or
      the missing shared secret, which is only noticed on the HMAC route. */
  datatype LegacyAuthError = Rejected(reason: SupabaseAuth.VerifyError) | MissingSecret

  /** `getJwtSecret`: an unset or empty secret throws. */
  function GetJwtSecret(env: RuntimeEnv): (r: Result<string, LegacyAuthError>)
    ensures r.Err? <==> SecretKey !in env || env[SecretKey] == []
    ensures r.Err? ==> r.error == MissingSecret
    ensures r.Ok? ==> r.value == env[SecretKey]
  {
    if SecretKey !in env || env[SecretKey] == [] then Err(MissingSecret) else Ok(env[SecretKey])
  }

  /** `getJwtIssuer`: the issuer when it is set and non-empty. */
  function GetJwtIssuer(env: RuntimeEnv): (r: Option<string>)
    ensures r.Some? <==> IssuerKey in env && env[IssuerKey] != []
    ensures r.Some? ==> r.value == env[IssuerKey]
  {
    if IssuerKey in env && |env[IssuerKey]| > 0 then Some(env[IssuerKey]) else None
  }

  /** `getJwksUrl`: a non-empty explicit URL wins; with no issuer there is none;
      otherwise the issuer's key-set document. */
  function GetJwksUrl(env: RuntimeEnv): Option<string> {
    if JwksUrlKey in env && |env[JwksUrlKey]| > 0 then Some(env[JwksUrlKey])
    else
      var issuer := GetJwtIssuer(env);
      if issuer.None? then None
      else Some(SupabaseAuth.StripTrailingSlash(issuer.value) + SupabaseAuth.JwksPath)
  }

  /** The legacy URL rule is the new one, fed from the raw environment. */
  lemma {:induction false} JwksUrlAgrees(env: RuntimeEnv)
    ensures GetJwksUrl(env) == SupabaseAuth.ResolvedJwksUrl(Lookup(env, JwksUrlKey), GetJwtIssuer(env))
  {
  }

  /** What `verifySupabaseJwt` decides, given the environment and the
      memoised key-set client (which is used as it is once built). */
  function LegacyVerdict(env: RuntimeEnv, memo: Option<SupabaseAuth.KeySetClient>, token: string,
                         decodeAlg: SupabaseAuth.AlgDecoder, jwtVerify: SupabaseAuth.JwtVerifier)
    : Result<Principal, LegacyAuthError>
  {
    var alg := decodeAlg(token);
    if alg.None? || alg.value == [] then Err(Rejected(SupabaseAuth.MissingAlgorithm))
    else
      var key: Result<SupabaseAuth.VerifyKey, LegacyAuthError> :=
        if SupabaseAuth.IsHmacAlg(alg.value) then
          match GetJwtSecret(env)
          case Err(e) => Err(e)
          case Ok(secret) => Ok(SupabaseAuth.SharedSecret(secret))
        else if memo.Some? then Ok(SupabaseAuth.KeySet(memo.value))
        else
          match GetJwksUrl(env)
          case None => Err(Rejected(SupabaseAuth.NoJwksUrl))
          case Some(url) => Ok(SupabaseAuth.KeySet(SupabaseAuth.KeySetClient(url)));
      if key.Err? then Err(key.error)
      else
        match jwtVerify(token, key.value, GetJwtIssuer(env))
        case None => Err(Rejected(SupabaseAuth.SignatureRejected))
        case Some(payload) =>
          match SupabaseAuth.CheckClaims(payload, token)
          case Err(e) => Err(Rejected(e))
          case Ok(p) => Ok(p)
  }

  /** The new verifier's verdict in the legacy error type. */
  function Lifted(r: Result<Principal, SupabaseAuth.VerifyError>): Result<Principal, LegacyAuthError> {
    match r
    case Ok(p) => Ok(p)
    case Err(e) => Err(Rejected(e))
  }

  /** With a non-empty secret and no client built yet, the legacy verifier
      decides exactly as the new provider configured from the same
      environment; without a secret, an HMAC token is refused before any
      signature check. */
  lemma {:induction false} LegacyVerdictAgrees(env: RuntimeEnv, token: string,
                            decodeAlg: SupabaseAuth.AlgDecoder, jwtVerify: SupabaseAuth.JwtVerifier)
    ensures GetJwtSecret(env).Ok? ==>
      LegacyVerdict(env, None, token, decodeAlg, jwtVerify) ==
      Lifted(SupabaseAuth.Verdict(env[SecretKey], GetJwtIssuer(env), Lookup(env, JwksUrlKey), token, decodeAlg, jwtVerify))
    ensures GetJwtSecret(env).Err? && decodeAlg(token).Some? && decodeAlg(token).value != [] &&
            SupabaseAuth.IsHmacAlg(decodeAlg(token).value) ==>
      LegacyVerdict(env, None, token, decodeAlg, jwtVerify) == Err(MissingSecret)
  {
    JwksUrlAgrees(env);
    assert SupabaseAuth.IssuerOption(GetJwtIssuer(env)) == GetJwtIssuer(env);
  }

  /** The module-level state of auth.ts: the lazily built key-set client. */
  class LegacyAuthModule {
    var remoteJwks: Option<SupabaseAuth.KeySetClient>

    constructor ()
      ensures remoteJwks.None?
    {
      remoteJwks := None;
    }

    /** `getRemoteJwks`: the client built first is kept for good, even when the
        environment later names another URL; otherwise it is built from the
        current environment, or the call throws when there is no URL. */
    method GetRemoteJwks(env: RuntimeEnv) returns (r: Result<SupabaseAuth.KeySetClient, LegacyAuthError>)
      modifies this
      ensures old(remoteJwks).Some? ==> r == Ok(old(remoteJwks).value) && remoteJwks == old(remoteJwks)
      ensures old(remoteJwks).None? && GetJwksUrl(env).None? ==>
        r == Err(Rejected(SupabaseAuth.NoJwksUrl)) && remoteJwks.None?
      ensures old(remoteJwks).None? && GetJwksUrl(env).Some? ==>
        r == Ok(SupabaseAuth.KeySetClient(GetJwksUrl(env).value)) && remoteJwks == Some(r.value)
    {
      if remoteJwks.Some? {
        return Ok(remoteJwks.value);
      }
      var jwksUrl := GetJwksUrl(env);
      if jwksUrl.None? {
        return Err(Rejected(SupabaseAuth.NoJwksUrl));
      }
      remoteJwks := Some(SupabaseAuth.KeySetClient(jwksUrl.value));
      r := Ok(remoteJwks.value);
    }

    /** `verifySupabaseJwt`. Only the key-set route touches the memo. */
    method VerifySupabaseJwt(env: RuntimeEnv, token: string,
                             decodeAlg: SupabaseAuth.AlgDecoder, jwtVerify: SupabaseAuth.JwtVerifier)
      returns (r: Result<Principal, LegacyAuthError>)
      modifies this
      ensures r == LegacyVerdict(env, old(remoteJwks), token, decodeAlg, jwtVerify)
      ensures old(remoteJwks).Some? ==> remoteJwks == old(remoteJwks)
      ensures (decodeAlg(token).None? || decodeAlg(token).value == [] || SupabaseAuth.IsHmacAlg(decodeAlg(token).value)) ==>
        remoteJwks == old(remoteJwks)
    {
      var alg := decodeAlg(token);
      if alg.None? || alg.value == [] {
        return Err(Rejected(SupabaseAuth.MissingAlgorithm));
      }
      var key;
      if SupabaseAuth.IsHmacAlg(alg.value) {
        var secret := GetJwtSecret(env);
        if secret.Err? {
          return Err(secret.error);
        }
        key := SupabaseAuth.SharedSecret(secret.value);
      } else {
        var client := GetRemoteJwks(env);
        if client.Err? {
          return Err(client.error);
        }
        key := SupabaseAuth.KeySet(client.value);
      }
      var payload := jwtVerify(token, key, GetJwtIssuer(env));
      if payload.None? {
        return Err(Rejected(SupabaseAuth.SignatureRejected));
      }
      var claims := SupabaseAuth.CheckClaims(payload.value, token);
      if claims.Err? {
        return Err(Rejected(claims.error));
      }
      r := Ok(claims.value);
    }

    /** `authPlugin`'s derive: no token, or any failure of the verifier, gives
        `auth: null`. */
    method Derive(env: RuntimeEnv, authorization: Option<string>,
                  decodeAlg: SupabaseAuth.AlgDecoder, jwtVerify: SupabaseAuth.JwtVerifier)
      returns (auth: Option<Principal>)
      modifies this
      ensures AuthGuard.ExtractBearerToken(authorization).None? ==> auth.None? && remoteJwks == old(remoteJwks)
      ensures AuthGuard.ExtractBearerToken(authorization).Some? ==>
        auth == DeriveAuth(authorization,
                           LegacyVerdict(env, old(remoteJwks), AuthGuard.ExtractBearerToken(authorization).value, decodeAlg, jwtVerify))
    {
      var token := AuthGuard.ExtractBearerToken(authorization);
      if token.None? {
        return None;
      }
      var verdict := VerifySupabaseJwt(env, token.value, decodeAlg, jwtVerify);
      if verdict.Err? {
        return None;
      }
      auth := Some(verdict.value);
    }
  }

  /** The derived `auth`, given the header and the verifier's verdict on its
      token: a principal exactly when there is a token and it was accepted. */
  function DeriveAuth(authorization: Option<string>, verdict: Result<Principal, LegacyAuthError>): (r: Option<Principal>)
    ensures r.Some? <==> AuthGuard.ExtractBearerToken(authorization).Some? && verdict.Ok?
    ensures r.Some? ==> r.value == verdict.value
  {
    if AuthGuard.ExtractBearerToken(authorization).None? || verdict.Err? then None else Some(verdict.value)
  }

  /** `{ error: 'Unauthorized' }` */
  const UnauthorizedBody := Obj([Field("error", Str("Unauthorized"))])

  /** `authGuard`'s before-handle hook: without `auth` the status becomes 401
      and the body is `{ error: 'Unauthorized' }`; with it the request goes on
      untouched. */
  method Guard(res: RequestContext.ResponseSet, auth: Option<Principal>) returns (body: Option<Value>)
    modifies res
    ensures auth.None? ==> res.status == 401 && body == Some(UnauthorizedBody) && res.headers == old(res.headers)
    ensures auth.Some? ==> body.None? && res.status == old(res.status) && res.headers == old(res.headers)
  {
    if auth.None? {
      res.status := 401;
      return Some(UnauthorizedBody);
    }
    body := None;
  }

  /** A missing token and a refused one derive the same `auth: null`, so the
      legacy guard answers both with the same 401 body, whereas the new guard
      tells them apart by code. */
  lemma {:induction false} MissingAndInvalidLookAlike(missing: Option<string>, invalid: Option<string>,
                                   legacyVerdict: Result<Principal, LegacyAuthError>,
                                   verdict: Result<Principal, SupabaseAuth.VerifyError>)
    requires AuthGuard.ExtractBearerToken(missing).None?
    requires AuthGuard.ExtractBearerToken(invalid).Some? && legacyVerdict.Err? && verdict.Err?
    ensures DeriveAuth(missing, legacyVerdict) == DeriveAuth(invalid, legacyVerdict) == None
    ensures AuthGuard.GuardOutcome(missing, verdict).Err? && AuthGuard.GuardOutcome(invalid, verdict).Err?
    ensures AuthGuard.GuardOutcome(missing, verdict).error.code != AuthGuard.GuardOutcome(invalid, verdict).error.code
  {
  }
}
