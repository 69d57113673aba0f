/** Result values for configuration resolution. Every `panic` of the
    configuration layer is a `Failure` carrying the reason it was raised. */
module Outcomes {

  datatype Option<+T> = None | Some(value: T)

  /** Why startup would abort (or, for a claim-mapping source, degrade). */
  datatype ConfigError =
    | MissingRequired(name: string)      // a required variable is unset and has no default
    | NotAnInteger(text: string)         // the resolved text is not a base-10 int64
    | UnknownBool(text: string)          // the resolved text is neither "true" nor "false"
    | UnknownLoggerType(text: string)    // LOG_TYPE is neither "json" nor "pretty"
    | NonPositiveMaxKeys(keys: int)      // MAX_CACHE_KEYS < 1
    | MaxCostOverflow(keys: int)         // MAX_CACHE_KEYS * key cost does not fit in an int64
    | NoUsableClaimMappingSource         // both the mapping file and CLAIM_MAPPINGS failed
    | UnpairedLabels                     // an odd number of constant label strings

  datatype Result<+T> = Success(value: T) | Failure(error: ConfigError)
}
