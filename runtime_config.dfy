/** Runtime configuration from an explicitly passed environment
    (packages/api/src/core/config/runtime-config.ts). `Number()` is the
    parameter `toInteger`: the integer a string denotes, or `None` when
    `Number(s)` is not an integer (including `NaN`). */
module RuntimeConfig {
  import opened Wrappers
  import Text

  type Env = map<string, string>

  datatype NodeEnv = Development | Test | Production

  datatype Config = Config(
    nodeEnv: NodeEnv,
    port: int,
    databaseUrl: string,
    supabaseJwtSecret: string,
    supabaseJwtIssuer: Option<string>,
    supabaseJwksUrl: Option<string>)

  const DefaultPort := 54545

  /** 'production' and 'test' are kept; every other value, and none, means development. */
  function ParseNodeEnv(value: Option<string>): (r: NodeEnv)
    ensures r == Production <==> value == Some("production")
    ensures r == Test <==> value == Some("test")
  {
    if value == Some("production") then Production
    else if value == Some("test") then Test
    else Development
  }

  function PortError(value: string): string {
    "PORT must be a positive integer. Received: " + value
  }

  /** An absent or empty PORT means the default; anything else must denote a
      positive integer. */
  function ParsePort(value: Option<string>, toInteger: string -> Option<int>): (r: Result<int, string>)
    ensures value.None? || value == Some("") ==> r == Ok(DefaultPort)
    ensures r.Ok? ==> r.value > 0
    ensures value.Some? && value.value != [] ==>
      && (r.Ok? <==> toInteger(value.value).Some? && toInteger(value.value).value > 0)
      && (r.Ok? ==> r.value == toInteger(value.value).value)
      && (r.Err? ==> r.error == PortError(value.value))
  {
    if value.None? || value.value == [] then Ok(DefaultPort)
    else
      var parsed := toInteger(value.value);
      if parsed.None? || parsed.value <= 0 then Err(PortError(value.value))
      else Ok(parsed.value)
  }

  /** `optionalEnv`: absent or blank values are `null`, others are trimmed. */
  function OptionalEnv(env: Env, key: string): (r: Option<string>)
    ensures r.Some? ==> key in env && r.value == Text.Trim(env[key]) && r.value != []
  {
    if key !in env || env[key] == [] then None
    else
      var trimmed := Text.Trim(env[key]);
      if |trimmed| > 0 then Some(trimmed) else None
  }

  /** A value is missing exactly when it is absent or all white space; a
      present value is already trimmed. */
  lemma {:induction false} OptionalEnvExactly(env: Env, key: string)
    ensures OptionalEnv(env, key).None? <==>
      key !in env || forall k :: 0 <= k < |env[key]| ==> Text.IsJsWhitespace(env[key][k])
    ensures OptionalEnv(env, key).Some? ==> Text.Trim(OptionalEnv(env, key).value) == OptionalEnv(env, key).value
  {
    if key in env {
      Text.TrimEmptyIffBlank(env[key]);
      Text.TrimIdempotent(env[key]);
    }
  }

  const RequiredKeys := ["DATABASE_URL", "SUPABASE_JWT_SECRET"]

  /** The required variables that are missing, in the order they are checked. */
  function MissingRequired(env: Env): (names: seq<string>)
    ensures forall n :: n in names <==> n in RequiredKeys && OptionalEnv(env, n).None?
  {
    (if OptionalEnv(env, "DATABASE_URL").None? then ["DATABASE_URL"] else [])
    + (if OptionalEnv(env, "SUPABASE_JWT_SECRET").None? then ["SUPABASE_JWT_SECRET"] else [])
  }

  function JoinWith(parts: seq<string>, sep: string): string {
    if parts == [] then []
    else if |parts| == 1 then parts[0]
    else parts[0] + sep + JoinWith(parts[1..], sep)
  }

  function MissingMessage(names: seq<string>): string {
    "Missing required environment variables: " + JoinWith(names, ", ") + "."
  }

  /** `loadRuntimeConfig({env})`: the missing required variables are collected
      one after the other and reported together; then PORT is parsed. */
  method LoadRuntimeConfig(env: Env, toInteger: string -> Option<int>) returns (r: Result<Config, string>)
    ensures MissingRequired(env) != [] ==> r == Err(MissingMessage(MissingRequired(env)))
    ensures MissingRequired(env) == [] && ParsePort(if "PORT" in env then Some(env["PORT"]) else None, toInteger).Err? ==>
      r == Err(PortError(env["PORT"]))
    ensures r.Ok? ==>
      && MissingRequired(env) == []
      && r.value.databaseUrl == OptionalEnv(env, "DATABASE_URL").value
      && r.value.supabaseJwtSecret == OptionalEnv(env, "SUPABASE_JWT_SECRET").value
      && r.value.supabaseJwtIssuer == OptionalEnv(env, "SUPABASE_JWT_ISS")
      && r.value.supabaseJwksUrl == OptionalEnv(env, "SUPABASE_JWKS_URL")
      && r.value.nodeEnv == ParseNodeEnv(if "NODE_ENV" in env then Some(env["NODE_ENV"]) else None)
      && r.value.port == ParsePort(if "PORT" in env then Some(env["PORT"]) else None, toInteger).value
    ensures MissingRequired(env) == [] && ParsePort(if "PORT" in env then Some(env["PORT"]) else None, toInteger).Ok? ==> r.Ok?
  {
    var missing: seq<string> := [];
    var databaseUrl := OptionalEnv(env, "DATABASE_URL");
    if databaseUrl.None? {
      missing := missing + ["DATABASE_URL"];
    }
    var supabaseJwtSecret := OptionalEnv(env, "SUPABASE_JWT_SECRET");
    if supabaseJwtSecret.None? {
      missing := missing + ["SUPABASE_JWT_SECRET"];
    }
    if |missing| > 0 {
      return Err(MissingMessage(missing));
    }
    var nodeEnv := ParseNodeEnv(if "NODE_ENV" in env then Some(env["NODE_ENV"]) else None);
    var port := ParsePort(if "PORT" in env then Some(env["PORT"]) else None, toInteger);
    if port.Err? {
      return Err(port.error);
    }
    r := Ok(Config(nodeEnv, port.value, databaseUrl.value, supabaseJwtSecret.value,
                   OptionalEnv(env, "SUPABASE_JWT_ISS"), OptionalEnv(env, "SUPABASE_JWKS_URL")));
  }

  /** With both required variables missing, one error names both, in order. */
  lemma {:induction false} BothMissingReportedTogether(env: Env)
    requires "DATABASE_URL" !in env && "SUPABASE_JWT_SECRET" !in env
    ensures MissingRequired(env) == ["DATABASE_URL", "SUPABASE_JWT_SECRET"]
    ensures MissingMessage(MissingRequired(env)) ==
      "Missing required environment variables: " + ("DATABASE_URL" + ", " + "SUPABASE_JWT_SECRET") + "."
  {
    JoinTwo("DATABASE_URL", "SUPABASE_JWT_SECRET", ", ");
  }

  lemma {:induction false} JoinTwo(a: string, b: string, sep: string)
    ensures JoinWith([a, b], sep) == a + sep + b
  {
    assert [a, b][1..] == [b];
  }
}
