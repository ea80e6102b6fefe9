/** The authentication guard (packages/api/src/core/plugins/auth-guard.ts):
    the `Authorization: Bearer <token>` header of section 2.1 of RFC 6750, with
    the scheme matched case-insensitively, and the resolve hook that tells a
    missing token from an invalid one. */
module AuthGuard {
  import opened Wrappers
  import opened Json
  import Text
  import opened AuthPort
  import opened HttpErrors
  import SupabaseAuth

  /** `extractBearerToken`: the header is split on single spaces; the first
      segment is the scheme and the second the token; later segments are
      ignored. */
  function ExtractBearerToken(authorization: Option<string>): Option<string> {
    if authorization.None? || authorization.value == [] then None
    else
      var parts := Text.Split(authorization.value, ' ');
      var scheme := parts[0];
      var token := if |parts| > 1 then parts[1] else [];
      if scheme == [] || token == [] then None
      else if Text.ToLower(scheme) != "bearer" then None
      else Some(token)
  }

  /** A header carries bearer token `t`: six letters spelling 'bearer' in any
      case, one space, the non-empty space-free token, and then either the end
      or another space. */
  predicate IsBearerHeader(h: string, t: string) {
    && |h| >= 7 + |t|
    && Text.ToLower(h[..6]) == "bearer"
    && h[6] == ' '
    && h[7..7 + |t|] == t
    && t != [] && ' ' !in t
    && (|h| == 7 + |t| || h[7 + |t|] == ' ')
  }

  /** A string that lower-cases to 'bearer' has no space in it. */
  lemma {:induction false} BearerSchemeHasNoSpace(s: string)
    requires Text.ToLower(s) == "bearer"
    ensures |s| == 6 && ' ' !in s
  {
    var l := Text.ToLower(s);
    forall i | 0 <= i < |s| ensures s[i] != ' ' {
      assert l[i] == Text.LowerChar(s[i]) && l[i] == "bearer"[i];
    }
  }

  /** `extractBearerToken` yields `t` exactly when the header is a bearer
      header for `t`. */
  lemma {:induction false} ExtractBearerTokenExactly(h: string, t: string)
    ensures ExtractBearerToken(Some(h)) == Some(t) <==> IsBearerHeader(h, t)
  {
    if IsBearerHeader(h, t) {
      BearerHeaderExtracts(h, t);
    }
    if ExtractBearerToken(Some(h)) == Some(t) {
      ExtractedFromBearerHeader(h, t);
    }
  }

  lemma {:induction false} BearerHeaderExtracts(h: string, t: string)
    requires IsBearerHeader(h, t)
    ensures ExtractBearerToken(Some(h)) == Some(t)
  {
    var scheme, rest := h[..6], h[7 + |t|..];
    BearerSchemeHasNoSpace(scheme);
    assert h == scheme + [' '] + (t + rest);
    Text.SplitAfterPrefix(scheme, ' ', t + rest);
    if rest == [] {
      assert t + rest == t;
      Text.SplitWithoutSeparator(t, ' ');
    } else {
      assert t + rest == t + [' '] + rest[1..];
      Text.SplitAfterPrefix(t, ' ', rest[1..]);
    }
  }

  lemma {:induction false} ExtractedFromBearerHeader(h: string, t: string)
    requires ExtractBearerToken(Some(h)) == Some(t)
    ensures IsBearerHeader(h, t)
  {
    var parts := Text.Split(h, ' ');
    var scheme := parts[0];
    assert |parts| > 1 && parts[1] == t;
    Text.SplitHead(h, ' ');
    var tail := Text.Join(parts[1..], ' ');
    assert h == scheme + [' '] + tail;
    Text.SplitHead(tail, ' ');
    assert Text.Split(tail, ' ') == parts[1..];
    var after := if |parts| == 2 then [] else [' '] + Text.Join(parts[2..], ' ');
    assert parts[1..][1..] == parts[2..];
    assert tail == t + after;
    BearerSchemeHasNoSpace(scheme);
    assert h == scheme + ([' '] + (t + after));
    assert h[..6] == scheme;
    assert h[7..7 + |t|] == t;
  }

  const MissingTokenError := AppError(AuthMissingToken, 401, "Missing bearer token", Undefined)
  const InvalidTokenError := AppError(AuthInvalidToken, 401, "Invalid bearer token", Undefined)

  /** The resolve hook: no token fails as missing without calling the verifier
      (the provider's state is untouched); any verifier failure fails as
      invalid, whatever its reason; otherwise the principal becomes `auth`. */
  method Resolve(provider: SupabaseAuth.SupabaseAuthProvider, authorization: Option<string>,
                 decodeAlg: SupabaseAuth.AlgDecoder, jwtVerify: SupabaseAuth.JwtVerifier)
    returns (r: Result<Principal, AppError>)
    requires provider.Valid()
    modifies provider
    ensures provider.Valid()
    ensures ExtractBearerToken(authorization).None? ==> r == Err(MissingTokenError) && unchanged(provider)
    ensures ExtractBearerToken(authorization).Some? ==>
      var token := ExtractBearerToken(authorization).value;
      r == GuardOutcome(authorization,
             SupabaseAuth.Verdict(provider.jwtSecret, provider.jwtIssuer, provider.jwksUrl, token, decodeAlg, jwtVerify))
  {
    var token := ExtractBearerToken(authorization);
    if token.None? {
      return Err(MissingTokenError);
    }
    var verdict := provider.VerifyBearerToken(token.value, decodeAlg, jwtVerify);
    if verdict.Err? {
      return Err(InvalidTokenError);
    }
    r := Ok(verdict.value);
  }

  /** The guard's outcome as a function of the header and the verifier's
      verdict: missing and invalid tokens are told apart by code, and both are
      401s. */
  function GuardOutcome(authorization: Option<string>, verdict: Result<Principal, SupabaseAuth.VerifyError>)
    : (r: Result<Principal, AppError>)
    ensures r.Err? ==> r.error.status == 401
    ensures r.Err? && r.error.code == AuthMissingToken <==> ExtractBearerToken(authorization).None?
    ensures r.Err? && r.error.code == AuthInvalidToken <==> ExtractBearerToken(authorization).Some? && verdict.Err?
    ensures r.Ok? ==> verdict == Ok(r.value)
  {
    if ExtractBearerToken(authorization).None? then Err(MissingTokenError)
    else if verdict.Err? then Err(InvalidTokenError)
    else Ok(verdict.value)
  }
}
