/** The fixed configuration table built by `NewConfig`, and the small
    validators over it: the cache sizing of `getCache` and the log-format
    switch of `getLogger`. */
module Config {
  import opened Outcomes
  import opened Int64Text
  import opened Env

  const JwksUrlEnv := "JWKS_URL"
  const ForceJwksOnStartEnv := "FORCE_JWKS_ON_START"
  const ForceJwksOnStartDefault := "true"
  const ClaimMappingFileEnv := "CLAIM_MAPPING_FILE_PATH"
  const ClaimMappingFileDefault := "config.json"
  const AuthHeaderEnv := "AUTH_HEADER_KEY"
  const AuthHeaderDefault := "Authorization"
  const TokenValidatedHeaderEnv := "TOKEN_VALIDATED_HEADER_KEY"
  const TokenValidatedHeaderDefault := "jwt-token-validated"
  const MultiClusterPrefixEnv := "MULTI_CLUSTER_PREFIX"
  const MultiClusterPrefixDefault := "multicluster"
  const SecretCacheTtlEnv := "SECRET_CACHE_TTL"
  const SecretCacheTtlDefault := "300"
  const PortEnv := "PORT"
  const PortDefault := "8080"
  const LogLevelEnv := "LOG_LEVEL"
  const LogLevelDefault := "info"
  const LogTypeEnv := "LOG_TYPE"
  const LogTypeDefault := "json"
  const MaxCacheKeysEnv := "MAX_CACHE_KEYS"
  const MaxCacheKeysDefault := "10000"
  const CacheEnabledEnv := "CACHE_ENABLED"
  const CacheEnabledDefault := "true"
  const ClaimMappingsEnv := "CLAIM_MAPPINGS"
  const UsernameClaimEnv := "OIDC_USERNAME_CLAIM"
  const UsernameClaimDefault := "preferred_username"
  const ValidateApiPathsEnv := "VALIDATE_API_PATHS"
  const ValidateApiPathsDefault :=
    "/api/prometheus/,/api/prometheus-tenancy/,/api/alertmanager/,/api/hypercloud/,/api/multi-hypercloud/"

  /** Cost charged per cached entry. */
  const KeyCost: int := 100

  datatype Config = Config(
    jwksUrl: EnvVar,
    forceJwksOnStart: EnvVar,
    claimMappingFilePath: EnvVar,
    authHeader: EnvVar,
    tokenValidatedHeader: EnvVar,
    multiClusterPrefix: EnvVar,
    secretCacheTtl: EnvVar,
    port: EnvVar,
    logLevel: EnvVar,
    logType: EnvVar,
    maxCacheKeys: EnvVar,
    cacheEnabled: EnvVar,
    claimMappings: EnvVar,
    usernameClaim: EnvVar,
    validateApiPaths: EnvVar,
    keyCost: int)
  {
    /** The fifteen variables, in the order `NewConfig` declares them. */
    function Variables(): seq<EnvVar>
    {
      [jwksUrl, forceJwksOnStart, claimMappingFilePath, authHeader, tokenValidatedHeader,
       multiClusterPrefix, secretCacheTtl, port, logLevel, logType, maxCacheKeys,
       cacheEnabled, usernameClaim, validateApiPaths, claimMappings]
    }
  }

  /** `NewConfig`: JWKS_URL is required with no default, CLAIM_MAPPINGS is
      optional, every other variable has a non-empty default. */
  function NewConfig(): (c: Config)
    ensures forall env :: Get(c.jwksUrl, env).Failure? <==> Getenv(env, JwksUrlEnv) == ""
    ensures forall env :: Get(c.claimMappings, env) == Success(Getenv(env, ClaimMappingsEnv))
    ensures c.keyCost == KeyCost
  {
    Config(
      Required(JwksUrlEnv),
      WithDefault(ForceJwksOnStartEnv, ForceJwksOnStartDefault),
      WithDefault(ClaimMappingFileEnv, ClaimMappingFileDefault),
      WithDefault(AuthHeaderEnv, AuthHeaderDefault),
      WithDefault(TokenValidatedHeaderEnv, TokenValidatedHeaderDefault),
      WithDefault(MultiClusterPrefixEnv, MultiClusterPrefixDefault),
      WithDefault(SecretCacheTtlEnv, SecretCacheTtlDefault),
      WithDefault(PortEnv, PortDefault),
      WithDefault(LogLevelEnv, LogLevelDefault),
      WithDefault(LogTypeEnv, LogTypeDefault),
      WithDefault(MaxCacheKeysEnv, MaxCacheKeysDefault),
      WithDefault(CacheEnabledEnv, CacheEnabledDefault),
      Optional(ClaimMappingsEnv),
      WithDefault(UsernameClaimEnv, UsernameClaimDefault),
      WithDefault(ValidateApiPathsEnv, ValidateApiPathsDefault),
      KeyCost)
  }

  /** Of all configuration inputs only JWKS_URL can be missing: every
      other variable resolves in every environment, to its default when
      unset. */
  lemma OnlyJwksUrlCanFail(env: Environment)
    ensures forall i :: 1 <= i < |NewConfig().Variables()| ==> Get(NewConfig().Variables()[i], env).Success?
    ensures forall i :: 1 <= i < |NewConfig().Variables()| && Getenv(env, NewConfig().Variables()[i].name) == "" ==>
              Get(NewConfig().Variables()[i], env) == Success(NewConfig().Variables()[i].defaultValue)
  {
  }

  /** Startup defaults: with nothing set, the cache is on, JWKS is forced
      at start, the mapping file is config.json and the port is 8080. */
  lemma DefaultsInEmptyEnvironment()
    ensures GetBool(NewConfig().cacheEnabled, map[]) == Success(true)
    ensures GetBool(NewConfig().forceJwksOnStart, map[]) == Success(true)
    ensures Get(NewConfig().claimMappingFilePath, map[]) == Success("config.json")
    ensures Get(NewConfig().port, map[]) == Success("8080")
    ensures GetInt64(NewConfig().maxCacheKeys, map[]) == Success(10000)
  {
    assert ParseInt64("10000") == Some(10000) by {
      assert "10"[..1] == "1" && DigitsValue("10") == 10;
      assert "100"[..2] == "10" && DigitsValue("100") == 100;
      assert "1000"[..3] == "100" && DigitsValue("1000") == 1000;
      assert "10000"[..4] == "1000" && DigitsValue("10000") == 10000;
    }
  }

  // ---------------------------------------------------------------------
  // Cache sizing (getCache)

  /** The settings `getCache` hands to the cache library. */
  datatype CacheSettings = CacheSettings(numCounters: int, maxCost: int, bufferItems: int, metrics: bool)

  const NumCounters: int := 10_000_000
  const BufferItems: int := 64

  /** The budget as the source computes it: `keys * keyCost` in int64
      arithmetic, which wraps around for large key counts. */
  function MaxCostAsWritten(keys: int, keyCost: int): (cost: int)
    requires InInt64(keys) && InInt64(keyCost)
    ensures InInt64(cost)
    ensures InInt64(keys * keyCost) ==> cost == keys * keyCost
  {
    Wrap64(keys * keyCost)
  }

  /** With the per-key cost of 100, a key count just above int64-max / 100
      passes the positivity check, yet the wrapped budget is negative. */
  lemma MaxCostAsWrittenWraps()
    ensures 92233720368547759 >= 1 && InInt64(92233720368547759)
    ensures MaxCostAsWritten(92233720368547759, KeyCost) == -9223372036854775716
  {
  }

  /** Key check and budget of `getCache`, with the product checked for
      int64 overflow instead of wrapping. */
  function CacheSettingsFor(keys: int, keyCost: int): (r: Result<CacheSettings>)
    requires keyCost > 0
    ensures r.Failure? <==> keys < 1 || keys * keyCost > Int64Max
    ensures keys < 1 ==> r == Failure(NonPositiveMaxKeys(keys))
    ensures r.Success? ==> r.value.maxCost == keys * keyCost && keyCost <= r.value.maxCost <= Int64Max
    ensures r.Success? ==> r.value.numCounters == NumCounters && r.value.bufferItems == BufferItems && r.value.metrics
  {
    if keys < 1 then Failure(NonPositiveMaxKeys(keys))
    else if keys * keyCost > Int64Max then Failure(MaxCostOverflow(keys))
    else Success(CacheSettings(NumCounters, keys * keyCost, BufferItems, true))
  }

  /** `getCache` for the configuration of `NewConfig`: MAX_CACHE_KEYS must
      resolve to an int64 of at least 1, and the budget is
      MAX_CACHE_KEYS * 100. */
  function GetCache(env: Environment): (r: Result<CacheSettings>)
    ensures GetInt64(NewConfig().maxCacheKeys, env).Failure? ==> r == Failure(GetInt64(NewConfig().maxCacheKeys, env).error)
    ensures GetInt64(NewConfig().maxCacheKeys, env).Success? && GetInt64(NewConfig().maxCacheKeys, env).value < 1 ==>
              r == Failure(NonPositiveMaxKeys(GetInt64(NewConfig().maxCacheKeys, env).value))
    ensures r.Success? <==>
              GetInt64(NewConfig().maxCacheKeys, env).Success? &&
              1 <= GetInt64(NewConfig().maxCacheKeys, env).value &&
              GetInt64(NewConfig().maxCacheKeys, env).value * KeyCost <= Int64Max
    ensures r.Success? ==>
              GetInt64(NewConfig().maxCacheKeys, env).Success? &&
              r.value.maxCost == GetInt64(NewConfig().maxCacheKeys, env).value * KeyCost &&
              r.value.maxCost == MaxCostAsWritten(GetInt64(NewConfig().maxCacheKeys, env).value, KeyCost)
  {
    match GetInt64(NewConfig().maxCacheKeys, env)
    case Failure(err) => Failure(err)
    case Success(keys) => CacheSettingsFor(keys, NewConfig().keyCost)
  }

  /** Zero and negative key counts are rejected. */
  lemma NonPositiveKeysRejected(env: Environment)
    ensures GetCache(env[MaxCacheKeysEnv := "0"]) == Failure(NonPositiveMaxKeys(0))
    ensures GetCache(env[MaxCacheKeysEnv := "-5"]) == Failure(NonPositiveMaxKeys(-5))
  {
  }

  /** With MAX_CACHE_KEYS unset the budget is 10000 * 100. */
  lemma DefaultCacheBudget()
    ensures GetCache(map[]).Success? && GetCache(map[]).value.maxCost == 1_000_000
  {
    DefaultsInEmptyEnvironment();
  }

  // ---------------------------------------------------------------------
  // Log format (the switch at the head of getLogger)

  datatype LogFormat = JsonLog | PrettyLog

  /** LOG_TYPE selects JSON or console output; anything else aborts. */
  function GetLogFormat(env: Environment): (r: Result<LogFormat>)
    ensures r == Success(JsonLog) <==> Getenv(env, LogTypeEnv) in {"", "json"}
    ensures r == Success(PrettyLog) <==> Getenv(env, LogTypeEnv) == "pretty"
    ensures r.Failure? ==> r.error == UnknownLoggerType(Getenv(env, LogTypeEnv))
  {
    var logType := Get(NewConfig().logType, env).value;
    if logType == "json" then Success(JsonLog)
    else if logType == "pretty" then Success(PrettyLog)
    else Failure(UnknownLoggerType(logType))
  }
}
