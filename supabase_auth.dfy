/** The JWT verifier (packages/api/src/modules/auth/infrastructure/supabase-auth-provider.ts).
    The JWS `alg` header (section 4.1.1 of RFC 7515) picks the route: an `HS*`
    algorithm (HMAC, section 3.2 of RFC 7518) is checked with the shared secret,
    anything else with a JWK Set (RFC 7517) fetched from a URL that comes from an
    override or from the issuer. The key-set client is created lazily, once.
    `decodeProtectedHeader` and `jwtVerify` are parameters. */
module SupabaseAuth {
  import opened Wrappers
  import opened Json
  import Text
  import opened AuthPort

  const JwksPath := "/.well-known/jwks.json"

  /** `issuer.replace(/\/$/, '')`: at most one trailing slash is removed. */
  function StripTrailingSlash(s: string): (r: string)
    ensures s != [] && s[|s| - 1] == '/' ==> r + "/" == s
    ensures !(s != [] && s[|s| - 1] == '/') ==> r == s
  {
    if s != [] && s[|s| - 1] == '/' then s[..|s| - 1] else s
  }

  /** `getResolvedJwksUrl`: a non-empty override wins; with no issuer there is
      no URL; otherwise the issuer's key-set document. */
  function ResolvedJwksUrl(jwksUrl: Option<string>, issuer: Option<string>): (r: Option<string>)
    ensures jwksUrl.Some? && jwksUrl.value != [] ==> r == jwksUrl
    ensures (jwksUrl.None? || jwksUrl.value == []) && (issuer.None? || issuer.value == []) ==> r.None?
    ensures (jwksUrl.None? || jwksUrl.value == []) && issuer.Some? && issuer.value != [] ==>
      r == Some(StripTrailingSlash(issuer.value) + JwksPath)
  {
    if jwksUrl.Some? && |jwksUrl.value| > 0 then jwksUrl
    else if issuer.None? || issuer.value == [] then None
    else Some(StripTrailingSlash(issuer.value) + JwksPath)
  }

  /** An issuer written with or without its trailing slash gives the same URL. */
  lemma {:induction false} JwksUrlIgnoresTrailingSlash(issuer: string)
    requires issuer != [] && issuer[|issuer| - 1] != '/'
    ensures ResolvedJwksUrl(None, Some(issuer + "/")) == ResolvedJwksUrl(None, Some(issuer))
    ensures ResolvedJwksUrl(None, Some(issuer)) == Some(issuer + JwksPath)
  {
    assert (issuer + "/")[..|issuer|] == issuer;
  }

  /** A `createRemoteJWKSet` client, identified by the URL it fetches from. */
  datatype KeySetClient = KeySetClient(url: string)

  /** The key `jwtVerify` checks the signature with. */
  datatype VerifyKey = SharedSecret(secret: string) | KeySet(client: KeySetClient)

  /** Why a token was refused. */
  datatype VerifyError =
    | MissingAlgorithm
    | NoJwksUrl
    | SignatureRejected
    | MissingSubject
    | InvalidRole

  /** `alg.toUpperCase().startsWith('HS')` */
  predicate IsHmacAlg(alg: string) {
    Text.StartsWith(Text.ToUpper(alg), "HS")
  }

  /** The `issuer` option: passed only when an issuer is configured (non-empty). */
  function IssuerOption(issuer: Option<string>): Option<string> {
    if issuer.Some? && issuer.value != [] then issuer else None
  }

  /** Decoder of the protected header: the `alg` value, or `None` when the
      header cannot be decoded or has no `alg`. */
  type AlgDecoder = string -> Option<string>

  /** `jwtVerify(token, key, {issuer}?)`: the payload, or `None` when the
      signature, expiry or issuer check fails. */
  type JwtVerifier = (string, VerifyKey, Option<string>) -> Option<Value>

  /** The claim checks on a verified payload: `sub` must be a non-empty string
      and `role` must be exactly 'authenticated'. */
  function CheckClaims(payload: Value, token: string): (r: Result<Principal, VerifyError>)
    ensures r.Ok? <==> Get(payload, "sub").Str? && Get(payload, "sub").s != [] &&
                        Get(payload, "role") == Str(AuthenticatedRole)
    ensures r.Ok? ==> r.value == Principal(Get(payload, "sub").s, AuthenticatedRole, token)
  {
    var userId := AsStr(Get(payload, "sub"));
    var role := AsStr(Get(payload, "role"));
    if userId.None? || userId.value == [] then Err(MissingSubject)
    else if role != Some(AuthenticatedRole) then Err(InvalidRole)
    else Ok(Principal(userId.value, AuthenticatedRole, token))
  }

  /** What `verifyBearerToken` decides, given the configuration. */
  function Verdict(secret: string, issuer: Option<string>, jwksUrl: Option<string>, token: string,
                   decodeAlg: AlgDecoder, jwtVerify: JwtVerifier): Result<Principal, VerifyError>
  {
    var alg := decodeAlg(token);
    if alg.None? || alg.value == [] then Err(MissingAlgorithm)
    else if IsHmacAlg(alg.value) then
      match jwtVerify(token, SharedSecret(secret), IssuerOption(issuer))
      case None => Err(SignatureRejected)
      case Some(payload) => CheckClaims(payload, token)
    else
      match ResolvedJwksUrl(jwksUrl, issuer)
      case None => Err(NoJwksUrl)
      case Some(url) =>
        match jwtVerify(token, KeySet(KeySetClient(url)), IssuerOption(issuer))
        case None => Err(SignatureRejected)
        case Some(payload) => CheckClaims(payload, token)
  }

  /** The verdict's guarantees: no algorithm means rejection before any
      signature check; an accepted token was accepted by `jwtVerify` with the
      secret (HS algorithms) or the key set (others), under the configured
      issuer; and the principal is the token's subject with the fixed role. */
  lemma {:induction false} VerdictMeaning(secret: string, issuer: Option<string>, jwksUrl: Option<string>, token: string,
                       decodeAlg: AlgDecoder, jwtVerify: JwtVerifier)
    ensures var r := Verdict(secret, issuer, jwksUrl, token, decodeAlg, jwtVerify);
      var alg := decodeAlg(token);
      && ((alg.None? || alg.value == []) ==> r == Err(MissingAlgorithm))
      && (r.Ok? ==>
            && alg.Some? && alg.value != []
            && var key := if IsHmacAlg(alg.value) then SharedSecret(secret)
                          else KeySet(KeySetClient(ResolvedJwksUrl(jwksUrl, issuer).GetOr([])));
               var payload := jwtVerify(token, key, IssuerOption(issuer));
               && payload.Some?
               && (!IsHmacAlg(alg.value) ==> ResolvedJwksUrl(jwksUrl, issuer).Some?)
               && r.value == Principal(Get(payload.value, "sub").s, AuthenticatedRole, token)
               && r.value.userId != [])
  {
  }

  class SupabaseAuthProvider {
    const jwtSecret: string
    const jwtIssuer: Option<string>
    const jwksUrl: Option<string>
    var remoteJwks: Option<KeySetClient>

    /** The memoised client, once built, is the one for the resolved URL. */
    ghost predicate Valid()
      reads this
    {
      remoteJwks.Some? ==>
        ResolvedJwksUrl(jwksUrl, jwtIssuer).Some? &&
        remoteJwks.value == KeySetClient(ResolvedJwksUrl(jwksUrl, jwtIssuer).value)
    }

    constructor (jwtSecret: string, jwtIssuer: Option<string>, jwksUrl: Option<string>)
      ensures Valid() && remoteJwks.None?
      ensures this.jwtSecret == jwtSecret && this.jwtIssuer == jwtIssuer && this.jwksUrl == jwksUrl
    {
      this.jwtSecret := jwtSecret;
      this.jwtIssuer := jwtIssuer;
      this.jwksUrl := jwksUrl;
      remoteJwks := None;
    }

    /** `getRemoteJwks`: the memoised client if there is one; otherwise build
        and remember it, or fail when there is no URL. */
    method GetRemoteJwks() returns (r: Result<KeySetClient, VerifyError>)
      requires Valid()
      modifies this
      ensures Valid()
      ensures ResolvedJwksUrl(jwksUrl, jwtIssuer).None? ==> r == Err(NoJwksUrl) && remoteJwks == old(remoteJwks)
      ensures ResolvedJwksUrl(jwksUrl, jwtIssuer).Some? ==>
        r == Ok(KeySetClient(ResolvedJwksUrl(jwksUrl, jwtIssuer).value)) && remoteJwks == Some(r.value)
      ensures old(remoteJwks).Some? ==> remoteJwks == old(remoteJwks)
    {
      if remoteJwks.Some? {
        return Ok(remoteJwks.value);
      }
      var url := ResolvedJwksUrl(jwksUrl, jwtIssuer);
      if url.None? {
        return Err(NoJwksUrl);
      }
      remoteJwks := Some(KeySetClient(url.value));
      r := Ok(remoteJwks.value);
    }

    /** `verifyBearerToken`. The key-set client is built (once) only on the
        non-HMAC route. */
    method VerifyBearerToken(token: string, decodeAlg: AlgDecoder, jwtVerify: JwtVerifier)
      returns (r: Result<Principal, VerifyError>)
      requires Valid()
      modifies this
      ensures Valid()
      ensures r == Verdict(jwtSecret, jwtIssuer, jwksUrl, token, decodeAlg, jwtVerify)
      ensures old(remoteJwks).Some? ==> remoteJwks == old(remoteJwks)
      ensures (decodeAlg(token).None? || decodeAlg(token).value == [] || IsHmacAlg(decodeAlg(token).value)) ==>
        remoteJwks == old(remoteJwks)
    {
      var alg := decodeAlg(token);
      if alg.None? || alg.value == [] {
        return Err(MissingAlgorithm);
      }
      var key;
      if IsHmacAlg(alg.value) {
        key := SharedSecret(jwtSecret);
      } else {
        var client := GetRemoteJwks();
        if client.Err? {
          return Err(client.error);
        }
        key := KeySet(client.value);
      }
      var payload := jwtVerify(token, key, IssuerOption(jwtIssuer));
      if payload.None? {
        return Err(SignatureRejected);
      }
      r := CheckClaims(payload.value, token);
    }
  }
}
