/** The rule that a React hook must not return JSX. */
module NoJsxRule {
  import opened Wrappers
  import opened Model

  const RULE_ID: string := "no-jsx-in-hooks"
  const MESSAGE: string := "Hooks must not return JSX"

  /**
   * A hook with at least one JSX-returning site violates the rule, reported at its first
   * such site; every other descriptor passes.
   */
  function NoJsxInHooks(fn: FunctionInfo): (r: Option<Violation>)
    ensures r.Some? <==> fn.kind == ReactHook && |fn.jsxReturns| > 0
    ensures r.Some? ==> r.value.ruleId == "no-jsx-in-hooks"
    ensures r.Some? ==> r.value.message == "Hooks must not return JSX"
    ensures r.Some? ==> r.value.severity == Error
    ensures r.Some? ==> r.value.fn == FunctionRef(fn.name, fn.kind) && r.value.fn.kind == ReactHook
    ensures r.Some? ==> r.value.location == fn.jsxReturns[0] && r.value.location in fn.jsxReturns
  {
    if fn.kind != ReactHook then None
    else if |fn.jsxReturns| == 0 then None
    else Some(Violation(RULE_ID, MESSAGE, Error, FunctionRef(fn.name, fn.kind), fn.jsxReturns[0]))
  }
}
