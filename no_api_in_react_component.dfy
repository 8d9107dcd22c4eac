/** The rule that a React component must not call an API directly. */
module NoApiRule {
  import opened Wrappers
  import opened Model

  const RULE_ID: string := "no-api-in-react-component"
  const MESSAGE: string := "React component should not call API directly"

  /**
   * A component with at least one direct API call violates the rule, reported at its
   * first call site; every other descriptor passes.
   */
  function NoApiInReactComponent(fn: FunctionInfo): (r: Option<Violation>)
    ensures r.Some? <==> fn.kind == ReactComponent && |fn.apiCalls| > 0
    ensures r.Some? ==> r.value.ruleId == "no-api-in-react-component"
    ensures r.Some? ==> r.value.message == "React component should not call API directly"
    ensures r.Some? ==> r.value.severity == Error
    ensures r.Some? ==> r.value.fn == FunctionRef(fn.name, fn.kind) && r.value.fn.kind == ReactComponent
    ensures r.Some? ==> r.value.location == fn.apiCalls[0] && r.value.location in fn.apiCalls
  {
    if fn.kind != ReactComponent then None
    else if |fn.apiCalls| == 0 then None
    else Some(Violation(RULE_ID, MESSAGE, Error, FunctionRef(fn.name, fn.kind), fn.apiCalls[0]))
  }
}
