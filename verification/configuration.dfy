/**
 * The deployment environment named by `APP_ENVIRONMENT`: its parser, its
 * printer and the default used when the variable is absent.
 */
module Configuration {
  import opened Base

  datatype Environment = Local | Production

  /** Value assumed when `APP_ENVIRONMENT` cannot be read. */
  const DefaultEnvironmentName: string := "local"

  /** `Environment::as_str`: the name of the configuration file layered for `e`. */
  function AsStr(e: Environment): (s: string)
    ensures e.Local? ==> s == "local"
    ensures e.Production? ==> s == "production"
  {
    match e
    case Local => "local"
    case Production => "production"
  }

  /**
   * `TryFrom<String> for Environment`: accepts exactly the two printed
   * names, case-sensitively, and inverts `AsStr` on them.
   */
  function TryFrom(s: string): (r: Result<Environment, string>)
    ensures r.Ok? <==> s == AsStr(Local) || s == AsStr(Production)
    ensures r.Ok? ==> AsStr(r.value) == s
    ensures r.Err? ==> r.error == s + " is not a valid environment. Use local or production"
  {
    if s == "local" then Ok(Local)
    else if s == "production" then Ok(Production)
    else Err(s + " is not a valid environment. Use local or production")
  }

  /** Printing then parsing gives back every variant. */
  lemma ParsePrintRoundTrip(e: Environment)
    ensures TryFrom(AsStr(e)) == Ok(e)
  {
  }

  /** Parsing then printing gives back the parsed text, so `AsStr` is injective. */
  lemma PrintParseRoundTrip(s: string, e: Environment)
    requires TryFrom(s) == Ok(e)
    ensures AsStr(e) == s
  {
  }

  /** Casing matters: "Local" is not an environment. */
  lemma ParseIsCaseSensitive()
    ensures TryFrom("Local").Err?
    ensures TryFrom("PRODUCTION").Err?
  {
    assert "Local"[0] != "local"[0];
    assert |"PRODUCTION"| == |"production"| && "PRODUCTION"[0] != "production"[0];
  }

  /**
   * The environment chosen at start-up from the value of `APP_ENVIRONMENT`
   * (`None` when it is unset or not Unicode); a parse failure is the error the
   * start-up code panics with.
   */
  function ResolveEnvironment(variable: Option<string>): (r: Result<Environment, string>)
    ensures variable.None? ==> r == Ok(Local)
    ensures variable.Some? ==> r == TryFrom(variable.value)
  {
    TryFrom(variable.UnwrapOr(DefaultEnvironmentName))
  }
}
