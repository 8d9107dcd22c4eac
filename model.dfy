/**
 * The shapes passed between the analyzer's stages: the role of a function, source
 * locations, function descriptors, violations and the versioned result record.
 */
module Model {
  import opened Wrappers

  /** Version tag written into every result record. */
  const SCHEMA_VERSION: string := "1.0.0"

  /** The role of a function, derived from its name. */
  datatype Kind = ReactComponent | ReactHook | Utility

  /** The wire spelling of a role. */
  function KindName(k: Kind): string
  {
    match k
    case ReactComponent => "react-component"
    case ReactHook => "react-hook"
    case Utility => "utility"
  }

  /** Reads a role back from its wire spelling; only the three spellings are roles. */
  function ParseKind(s: string): (r: Option<Kind>)
    ensures r.Some? <==> s == "react-component" || s == "react-hook" || s == "utility"
    ensures r.Some? ==> KindName(r.value) == s
  {
    if s == "react-component" then Some(ReactComponent)
    else if s == "react-hook" then Some(ReactHook)
    else if s == "utility" then Some(Utility)
    else None
  }

  /** Every role survives a trip through its wire spelling, and distinct roles are spelled apart. */
  lemma KindNameRoundTrip(k: Kind, k': Kind)
    ensures ParseKind(KindName(k)) == Some(k)
    ensures KindName(k) == KindName(k') ==> k == k'
  {
  }

  datatype Severity = Error | Warning

  function SeverityName(s: Severity): string
  {
    match s
    case Error => "error"
    case Warning => "warning"
  }

  /** Reads a severity back from its wire spelling; only "error" and "warning" are severities. */
  function ParseSeverity(s: string): (r: Option<Severity>)
    ensures r.Some? <==> s == "error" || s == "warning"
    ensures r.Some? ==> SeverityName(r.value) == s
  {
    if s == "error" then Some(Error)
    else if s == "warning" then Some(Warning)
    else None
  }

  /** A 1-based line and a 0-based column. */
  datatype Location = Location(line: int, column: int)

  /** One function-like declaration found in a file. */
  datatype FunctionInfo = FunctionInfo(
    name: string,
    kind: Kind,
    location: Location,
    apiCalls: seq<Location>,
    jsxReturns: seq<Location>)

  /** A violation names its function by name and role only. */
  datatype FunctionRef = FunctionRef(name: string, kind: Kind)

  datatype Violation = Violation(
    ruleId: string,
    message: string,
    severity: Severity,
    fn: FunctionRef,
    location: Location)

  datatype AnalysisResult = AnalysisResult(
    schemaVersion: string,
    filePath: string,
    violations: seq<Violation>)

  /** The result record of one analysis run: always tagged with the current schema version. */
  function MakeResult(filePath: string, violations: seq<Violation>): (r: AnalysisResult)
    ensures r.schemaVersion == "1.0.0"
    ensures r.filePath == filePath && r.violations == violations
  {
    AnalysisResult(SCHEMA_VERSION, filePath, violations)
  }
}
