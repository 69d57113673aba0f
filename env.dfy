/** Environment-variable resolution: the `envVar` record, its three
    constructors and its string, int64 and bool readers. The process
    environment is a parameter; a name that is not set reads as "", as
    `os.Getenv` does. */
module Env {
  import opened Outcomes
  import opened Int64Text

  type Environment = map<string, string>

  /** `os.Getenv(name)`. */
  function Getenv(env: Environment, name: string): string
  {
    if name in env then env[name] else ""
  }

  /** One configuration input: its variable name, its default ("" for
      none) and whether resolution may fall back to "". */
  datatype EnvVar = EnvVar(name: string, defaultValue: string, required: bool)

  /** `envVar.get`: a non-empty environment value wins; an empty one counts
      as unset and the default is used; a required variable with no
      default and no value fails. */
  function Get(e: EnvVar, env: Environment): (r: Result<string>)
    ensures Getenv(env, e.name) != "" ==> r == Success(Getenv(env, e.name))
    ensures r.Failure? <==> Getenv(env, e.name) == "" && e.defaultValue == "" && e.required
    ensures r.Failure? ==> r.error == MissingRequired(e.name)
    ensures r.Success? && Getenv(env, e.name) == "" ==> r.value == e.defaultValue
    ensures r.Success? && e.required ==> r.value != ""
  {
    var val := Getenv(env, e.name);
    if val != "" then Success(val)
    else if e.defaultValue == "" && e.required then Failure(MissingRequired(e.name))
    else Success(e.defaultValue)
  }

  /** `withDefault(name, defaultValue)`: a required variable with a
      fallback; with a non-empty fallback it never fails. */
  function WithDefault(name: string, defaultValue: string): (e: EnvVar)
    ensures e.name == name
    ensures forall env :: Get(e, env).Success? <==> Getenv(env, name) != "" || defaultValue != ""
    ensures forall env :: Getenv(env, name) == "" && defaultValue != "" ==> Get(e, env) == Success(defaultValue)
  {
    EnvVar(name, defaultValue, true)
  }

  /** `required(name)`: fails exactly when the variable is unset or empty. */
  function Required(name: string): (e: EnvVar)
    ensures e.name == name
    ensures forall env :: Get(e, env).Failure? <==> Getenv(env, name) == ""
  {
    EnvVar(name, "", true)
  }

  /** `optional(name)`: never fails, and yields the environment value
      itself ("" when unset). */
  function Optional(name: string): (e: EnvVar)
    ensures e.name == name
    ensures forall env :: Get(e, env) == Success(Getenv(env, name))
  {
    EnvVar(name, "", false)
  }

  /** An environment entry set to "" behaves as if the name were absent. */
  lemma EmptyCountsAsUnset(e: EnvVar, env: Environment)
    ensures Get(e, env[e.name := ""]) == Get(e, env - {e.name})
  {
  }

  /** Resolution reads only the variable's own name. */
  lemma OtherVariablesIrrelevant(e: EnvVar, env: Environment, other: string, val: string)
    requires other != e.name
    ensures Get(e, env[other := val]) == Get(e, env)
  {
  }

  /** `strconv.FormatBool`. */
  function BoolText(b: bool): string
  {
    if b then "true" else "false"
  }

  /** `envVar.getBool`: exactly "true" and "false" are accepted. */
  function GetBool(e: EnvVar, env: Environment): (r: Result<bool>)
    ensures Get(e, env).Failure? ==> r == Failure(Get(e, env).error)
    ensures r.Success? ==> Get(e, env) == Success(BoolText(r.value))
    ensures Get(e, env).Success? ==>
              (r.Failure? <==> Get(e, env).value != "true" && Get(e, env).value != "false")
    ensures r.Failure? && Get(e, env).Success? ==> r.error == UnknownBool(Get(e, env).value)
  {
    match Get(e, env)
    case Failure(err) => Failure(err)
    case Success(str) =>
      if str == "true" then Success(true)
      else if str == "false" then Success(false)
      else Failure(UnknownBool(str))
  }

  /** Setting a variable to the text of a boolean reads that boolean back. */
  lemma GetBoolRoundTrip(e: EnvVar, env: Environment, b: bool)
    ensures GetBool(e, env[e.name := BoolText(b)]) == Success(b)
  {
  }

  /** `envVar.getInt64`: the resolved text must be a base-10 int64. */
  function GetInt64(e: EnvVar, env: Environment): (r: Result<int>)
    ensures Get(e, env).Failure? ==> r == Failure(Get(e, env).error)
    ensures r.Success? <==>
              Get(e, env).Success? && IsDecimal(Get(e, env).value) && InInt64(DecimalValue(Get(e, env).value))
    ensures r.Success? ==> r.value == DecimalValue(Get(e, env).value) && InInt64(r.value)
    ensures r.Failure? && Get(e, env).Success? ==> r.error == NotAnInteger(Get(e, env).value)
  {
    match Get(e, env)
    case Failure(err) => Failure(err)
    case Success(str) =>
      match ParseInt64(str)
      case Some(n) => Success(n)
      case None => Failure(NotAnInteger(str))
  }

  /** Setting a variable to the decimal text of an int64 reads it back. */
  lemma GetInt64RoundTrip(e: EnvVar, env: Environment, n: int)
    requires InInt64(n)
    ensures GetInt64(e, env[e.name := FormatInt(n)]) == Success(n)
  {
    ParseFormatRoundTrip(n);
    FormatNatDigits(if n < 0 then -n else n);
  }
}
