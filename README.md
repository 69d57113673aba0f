# jwt-decode configuration layer, in Dafny

This project models the configuration and claim-mapping layer of the
jwt-decode sidecar (`config/config.go`): how configuration values are
resolved from environment variables, how the claim-to-header mapping is
built from a JSON file and the `CLAIM_MAPPINGS` string, and the small
validators for cache sizing, log format and constant metric labels. In
the modelled functions, each `panic` of the source becomes a
`Failure(ConfigError)` result. The panics of the listener bind, of the
log-level parse and of the cache library are not modelled (see "## Left out").

Modules:

- `Outcomes`: `Option`, `Result` and `ConfigError`. Each constructor stands for one modelled panic, except `MaxCostOverflow`, which is the corrected cache-sizing behaviour of "## Findings".
- `Strings`: `strings.Split` and `strings.LastIndex` over `seq<char>`, with `Split`/`Join` proved inverse.
- `Int64Text`: `strconv.ParseInt(s, 10, 64)`, `strconv.FormatInt` and int64 wrap-around.
- `Env`: the `envVar` record, `withDefault`/`required`/`optional`, and `get`, `getInt64`, `getBool` over an environment given as a `map<string, string>` (an unset name reads as "", like `os.Getenv`).
- `Config`: the `NewConfig` table of names, defaults and `keyCost = 100`; the key check and budget of `getCache`; the `LOG_TYPE` switch of `getLogger`.
- `Claims`: `fromString` as a loop that writes into the map field of the `ClaimMappings` class in place; `fromFile` as a given outcome; `getClaimMappings` as a method over the environment and a `readFile` function from path to outcome.
- `Metrics`: `promLabels` as a loop that fills a map two entries of the list at a time.

Two consequences of the code that are easy to miss:

- An unset `CLAIM_MAPPINGS` resolves to "", and "" parses cleanly. An unreadable file with no inline string therefore gives an empty table, not an abort (`Claims.UnreadableFileAndUnsetInline`).
- `fromString` writes into the map as it goes. A malformed fragment leaves the entries of the fragments before it in place (`Claims.MalformedKeepsEarlierWrites`), and the inline source is not discarded as a whole.

`Claims.ApplyFragments` and `Claims.ParseInline` are the functional specification of the `fromString` loop: `Claims.ClaimMappings.FromString` is proved equal to `ParseInline`, and the `Claims` lemmas below state its properties. `Strings.Split` is `strings.Split`, characterised by `Strings.SplitJoin` and `Strings.JoinSplit`.

## Model

| member | source | states |
|---|---|---|
| `Env.Get` | config/config.go:312-320 | a non-empty environment value wins; an empty or unset one falls back to the default; it fails, naming the variable, exactly when the variable is required, has no default and has no value; a required variable never resolves to "" |
| `Env.WithDefault` | config/config.go:300-302 | the variable resolves in every environment where its value or its default is non-empty, to the default when unset |
| `Env.Required` | config/config.go:304-306 | resolution fails exactly when the variable is unset or empty |
| `Env.Optional` | config/config.go:308-310 | resolution never fails and yields the environment value itself, "" when unset |
| `Env.EmptyCountsAsUnset` | config/config.go:313-315 | a variable set to "" resolves as if it were absent |
| `Env.OtherVariablesIrrelevant` | config/config.go:313 | resolution depends only on the variable's own name |
| `Env.GetBool` | config/config.go:331-341 | a missing variable propagates its failure; success exactly for "true" and "false", giving the boolean those words denote; any other text fails with that text |
| `Env.GetBoolRoundTrip` | config/config.go:331-341 | a variable set to the text of a boolean reads back that boolean |
| `Env.GetInt64` | config/config.go:322-329 | a missing variable propagates its failure; success exactly when the resolved text is an optional sign and decimal digits whose value fits in an int64, with that value as the result; any other text fails naming it |
| `Env.GetInt64RoundTrip` | config/config.go:322-329 | a variable set to the decimal text of any int64 reads back that number |
| `Int64Text.ParseInt64` | config/config.go:324 | a parsed value always lies in the int64 range |
| `Int64Text.ParseFormatRoundTrip` | config/config.go:324 | parsing the decimal text of any int64 gives the number back |
| `Int64Text.NoDigitsRejected` | config/config.go:324-327 | "", "+" and "-" are not integers |
| `Int64Text.Wrap64` | config/config.go:196 | int64 arithmetic keeps the result modulo 2^64 in the int64 range and leaves in-range values alone |
| `Strings.Split` | config/config.go:236 | there is always at least one fragment (`""` gives one empty fragment) |
| `Strings.SplitJoin` | config/config.go:236 | the comma-separated fragments contain no comma and join back to the input |
| `Strings.JoinSplit` | config/config.go:236 | splitting the join of comma-free fragments gives those fragments back, so the fragments are determined by the string |
| `Strings.LastIndex` | config/config.go:241-242 | -1 exactly when there is no ':'; otherwise a position holding ':' with no ':' after it |
| `Config.NewConfig` | config/config.go:60-79 | JWKS_URL fails exactly when unset; CLAIM_MAPPINGS resolves to its environment value or ""; the key cost is 100 |
| `Config.OnlyJwksUrlCanFail` | config/config.go:62-76 | every variable other than JWKS_URL resolves in every environment, to its default when unset |
| `Config.DefaultsInEmptyEnvironment` | config/config.go:63-73 | with nothing set: caching on, JWKS forced at start, mapping file config.json, port 8080, 10000 cache keys |
| `Config.MaxCostAsWritten` | config/config.go:196 | the budget the source computes is `keys * keyCost` wrapped to int64; it equals the true product when that fits |
| `Config.MaxCostAsWrittenWraps` | config/config.go:190-196 | the key count 92233720368547759 passes the key check, yet its wrapped budget is negative |
| `Config.CacheSettingsFor` | config/config.go:189-199 | fails when keys < 1 (and, corrected, when the budget overflows int64); otherwise the budget is keys * keyCost, at least one key's cost, with 10M counters, 64 buffer items and metrics on |
| `Config.GetCache` | config/config.go:189-196 | an unparsable MAX_CACHE_KEYS fails as getInt64 does; a key count below 1 fails as non-positive; success exactly for a parsed count of at least 1 whose budget fits in an int64, with budget MAX_CACHE_KEYS * 100, equal to the source's product |
| `Config.NonPositiveKeysRejected` | config/config.go:190-193 | MAX_CACHE_KEYS "0" and "-5" are rejected as non-positive |
| `Config.DefaultCacheBudget` | config/config.go:72 | with MAX_CACHE_KEYS unset the budget is 1,000,000 |
| `Config.GetLogFormat` | config/config.go:172-180 | JSON output for "json" or an unset LOG_TYPE, console output for "pretty", a failure naming the text otherwise |
| `Claims.FragmentSplit` | config/config.go:241-246 | a fragment is its key, ':' and a ':'-free value |
| `Claims.FragmentSplitUnique` | config/config.go:241-246 | that decomposition is unique: the value is everything after the last ':' |
| `Claims.FirstMalformed` | config/config.go:237-243 | every fragment before the returned index is empty or has a ':', and the one at the index has neither |
| `Claims.ApplyOverlay` | config/config.go:235-250 | parsing into a map overlays the entries the parse writes into an empty one; whether it stops early does not depend on the map |
| `Claims.ParseOverlay` | config/config.go:235-250 | the same, for a whole inline string |
| `Claims.StopsAtFirstMalformed` | config/config.go:237-243 | the parse reports the first fragment without ':' (none when there is none), keeps what the earlier fragments wrote and applies no later fragment |
| `Claims.UntouchedKeys` | config/config.go:245-247 | a key no applied fragment names keeps its old entry or stays absent |
| `Claims.LastFragmentWins` | config/config.go:245-247 | a key takes the value of the last applied fragment naming it |
| `Claims.ParseIdempotent` | config/config.go:235-250 | parsing the same inline string a second time changes nothing |
| `Claims.EmptyFragmentsSkipped` | config/config.go:236-240 | "" and ",," parse cleanly and leave the map unchanged |
| `Claims.SingleFragment` | config/config.go:241-247 | one fragment `key:value` stores value under key, whatever colons key holds |
| `Claims.SplitsOnLastColon` | config/config.go:241-247 | "a:b:c" stores "c" under "a:b"; "a:" stores "" under "a" |
| `Claims.MalformedAfterEntry` | config/config.go:237-247 | after a good fragment, a fragment without ':' is reported; the good entry stays and nothing after it is applied |
| `Claims.MalformedKeepsEarlierWrites` | config/config.go:237-247 | "nocolon" fails and writes nothing; "a:b,bad,c:d" keeps a:b, reports "bad" and never applies c:d |
| `Claims.ClaimMappings.FromFile` | config/config.go:226-233 | the decoder's writes land on top of the current entries; an error exactly when loading failed |
| `Claims.ClaimMappings.FromString` | config/config.go:235-250 | the new entries and the error are those of the fragment loop applied to the old entries |
| `Claims.ResolveClaimMappings` | config/config.go:207-222 | fatal exactly when the file failed and the inline string has a malformed fragment; otherwise file writes first, inline writes on top |
| `Claims.MappingFilePath` | config/config.go:209 | the file opened is CLAIM_MAPPING_FILE_PATH, or config.json when unset |
| `Claims.GetClaimMappings` | config/config.go:207-222 | the method's result is the merge and fatal policy applied to the outcome of reading the resolved path and to CLAIM_MAPPINGS |
| `Claims.UnreadableFileAndUnsetInline` | config/config.go:207-222 | an unreadable file with no inline string yields an empty table, not an abort |
| `Claims.InlineOverridesFile` | config/config.go:207-222 | file {sub: X-User} with inline "sub:X-Other" resolves to {sub: X-Other} |
| `Claims.OneFailingSourceDegrades` | config/config.go:210-221 | when only one source fails, startup continues with the file writes overlaid by the inline writes |
| `Metrics.PromLabels` | config/config.go:284-293 | fails exactly for an odd-length list; otherwise the map of the pairs stored left to right |
| `Metrics.LabelTableNames` | config/config.go:289-291 | the names in the map are exactly the pair names |
| `Metrics.LastPairWins` | config/config.go:289-291 | a name takes the value of its last pair |
| `Metrics.OutcomeLabels` | config/config.go:264-270 | the label lists of the hit and miss gauges give the single labels outcome=hit and outcome=miss; an empty list gives no labels |

## Findings

| source | as written | input that shows it | evidently intended | confidence | as-written member | corrected member |
|---|---|---|---|---|---|---|
| config/config.go:196 | `MaxCost: keys * c.keyCost` is an int64 product that wraps around | MAX_CACHE_KEYS=92233720368547759 passes `keys < 1`, and the budget becomes -9223372036854775716 | a positive budget of keys * 100, with startup aborting on key counts whose budget does not fit | not executed | `Config.MaxCostAsWrittenWraps` | `Config.CacheSettingsFor` |

`Config.GetCache` uses the corrected definition. It agrees with the source on every key count whose budget fits in an int64.

## Left out

- Config.GetCache: rejects MAX_CACHE_KEYS from 92233720368547759 up to the int64 maximum with `MaxCostOverflow`, where the source accepts them and hands the wrapped budget to the cache library; this is the correction of "## Findings", and `Config.MaxCostAsWritten` keeps the source's behaviour.
- The panics of `net.Listen` (config/config.go:114), of the log-level parse (config/config.go:184) and of `ristretto.NewCache` (config/config.go:201) are not modelled.

- `RunServer` (config/config.go:102-130): listener, goroutine, channel and HTTP routes are I/O and concurrency.
- `getServer` (config/config.go:132-170): it wires the external decoders and the Kubernetes client. A decoder-construction failure is only logged when FORCE_JWKS_ON_START is "true" or "false"; any other value makes `getBool` abort startup on that path. The flag is read only on that path. The SECRET_CACHE_TTL parse error there is only logged.
- `getLogger` level parsing (config/config.go:181-186): zerolog's level names are not part of this model; only the LOG_TYPE switch is.
- `histogramMiddleware`, `registerCacheMetrics`, `cacheOpts`, `histOpts` (config/config.go:252-282): Prometheus registration and floating-point buckets and ratios. Only the label pairing they call is modelled.
- The ristretto cache (config/config.go:194-203): the model stops at the settings handed to it; the library's own errors are not modelled.
- `fromFile`'s `os.Open` and JSON decoding (config/config.go:227-232): the model takes the outcome as given, the entries decoded, or a failure with whatever the decoder wrote before failing.
- Logging of warnings: not modelled, as it has no effect on the results.
- Byte strings: Go strings are UTF-8 bytes. The separators ',' and ':' are ASCII, so splitting `seq<char>` by character gives the same fragments.
