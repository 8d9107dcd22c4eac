/**
 * The editor extension's own bookkeeping (vscode/src/extension.ts): which documents it
 * analyses, its copy of the function extraction (with source ranges instead of
 * descriptors), matching the analyzer's violations back to those functions, locating a
 * function's name for a diagnostic, and the text of the advice lens.
 *
 * Ranges and positions are 0-based (line, character) pairs, as the editor has them; the
 * analyzer's locations have 1-based lines.
 */
module Extension {
  import opened Wrappers
  import opened Model
  import opened Syntax
  import opened Text
  import Parser
  import NoApiRule
  import NoJsxRule
  import Engine
  import Pipeline

  // ---------------------------------------------------------------------------
  // Languages

  /** The editor languages whose documents are analysed. */
  predicate ShouldAnalyzeLanguage(languageId: string): (b: bool)
    ensures b ==> StartsWith(languageId, "typescript") || StartsWith(languageId, "javascript")
  {
    || languageId == "typescriptreact"
    || languageId == "typescript"
    || languageId == "javascriptreact"
    || languageId == "javascript"
  }

  /** The dialect a document is parsed in, from its language; anything else is TypeScript. */
  function GetScriptKind(languageId: string): (k: ScriptKind)
    ensures k != TS ==> ShouldAnalyzeLanguage(languageId)
    ensures !ShouldAnalyzeLanguage(languageId) ==> k == TS
  {
    match languageId
    case "typescriptreact" => TSX
    case "javascriptreact" => JSX
    case "javascript" => JS
    case _ => TS
  }

  /**
   * The four analysed languages are parsed in four different dialects, the same ones the
   * analyzer picks for the matching file extensions.
   */
  lemma LanguagesMatchExtensions(a: string, b: string)
    requires ShouldAnalyzeLanguage(a) && ShouldAnalyzeLanguage(b)
    ensures GetScriptKind(a) == GetScriptKind(b) ==> a == b
    ensures GetScriptKind("typescriptreact") == Parser.GetScriptKind(".tsx")
    ensures GetScriptKind("typescript") == Parser.GetScriptKind(".ts")
    ensures GetScriptKind("javascriptreact") == Parser.GetScriptKind(".jsx")
    ensures GetScriptKind("javascript") == Parser.GetScriptKind(".js")
  {
  }

  // ---------------------------------------------------------------------------
  // The extension's copy of role classification and initializer unwrapping

  /** A character code between 65 and 90. */
  predicate IsCapitalCode(c: char)
  {
    65 <= c as int <= 90
  }

  predicate IsHookName(name: string)
  {
    if !StartsWith(name, "use") then false
    else if |name| < 4 then false
    else IsCapitalCode(name[3])
  }

  predicate IsComponentName(name: string)
  {
    if |name| == 0 then false
    else IsCapitalCode(name[0])
  }

  /** The extension classifies every name exactly as the analyzer does. */
  function ClassifyFunction(name: string): (k: Kind)
    ensures k == Parser.ClassifyFunction(name)
  {
    if IsHookName(name) then ReactHook
    else if IsComponentName(name) then ReactComponent
    else Utility
  }

  /**
   * The extension's `getFunctionFromExpression`: the same unwrapping as the analyzer's,
   * with the call's arguments scanned by a loop that returns the first function found.
   */
  method GetFunctionFromExpression(expr: Node) returns (r: Option<Node>)
    ensures r == Parser.GetFunctionFromExpression(expr)
    decreases expr
  {
    if expr.Parenthesized? {
      r := GetFunctionFromExpression(expr.inner);
      return;
    }
    if expr.ArrowFunction? || expr.FunctionExpression? {
      return Some(expr);
    }
    if expr.CallExpression? {
      var args := expr.arguments;
      for i := 0 to |args|
        invariant forall j :: 0 <= j < i ==> Parser.GetFunctionFromExpression(args[j]).None?
      {
        assert args[i] in expr.arguments;
        var nested := GetFunctionFromExpression(args[i]);
        if nested.Some? {
          FirstArgumentIsFirst(expr, args, i);
          return nested;
        }
      }
    }
    return None;
  }

  /** The argument the analyzer's unwrapping picks is the first one that yields a function. */
  lemma FirstArgumentIsFirst(call: Node, args: seq<Node>, i: nat)
    requires call.CallExpression? && args == call.arguments && i < |args|
    requires Parser.GetFunctionFromExpression(args[i]).Some?
    requires forall j :: 0 <= j < i ==> Parser.GetFunctionFromExpression(args[j]).None?
    ensures Parser.GetFunctionFromExpression(call) == Parser.GetFunctionFromExpression(args[i])
  {
    var r := Parser.FirstFunctionArgument(call, args);
    assert r.Some?;
    var k :| 0 <= k < |args| && r == Parser.GetFunctionFromExpression(args[k])
             && forall j :: 0 <= j < k ==> Parser.GetFunctionFromExpression(args[j]).None?;
    assert k == i;
  }

  // ---------------------------------------------------------------------------
  // Ranges

  /** An editor range between two positions. */
  datatype Range = Range(start: Position, end: Position)

  /** `a` comes strictly before `b` in reading order. */
  predicate Before(a: Position, b: Position)
  {
    a.line < b.line || (a.line == b.line && a.character < b.character)
  }

  /** A range contains a position between its ends, both ends included. */
  predicate Contains(r: Range, p: Position)
  {
    !Before(p, r.start) && !Before(r.end, p)
  }

  /** A range that does not run backwards contains its own ends, and nothing before its start or after its end. */
  lemma ContainsEnds(r: Range, p: Position)
    requires !Before(r.end, r.start)
    ensures Contains(r, r.start) && Contains(r, r.end)
    ensures Before(p, r.start) || Before(r.end, p) ==> !Contains(r, p)
  {
  }

  /** The range of a node: from its first token to its end. */
  function RangeOf(s: Span): (r: Range)
    ensures !Before(s.end, s.start) ==> Contains(r, s.start) && Contains(r, s.end)
  {
    Range(s.start, s.end)
  }

  // ---------------------------------------------------------------------------
  // parseFunctions

  /** A function the extension found in the open document. */
  datatype ParsedFunction = ParsedFunction(name: string, kind: Kind, nameRange: Range, fullRange: Range)

  /**
   * The function a node declares, as the extension records it: the range of its name, and
   * the range of the whole declaration, or of the function value a variable is initialised with.
   */
  function ParsedOf(n: Node): (r: Option<ParsedFunction>)
    ensures r.Some? <==> Parser.DeclaredFunction(n).Some?
    ensures r.Some? ==> r.value.name == Parser.DeclaredFunction(n).value.0.text
    ensures r.Some? ==> r.value.kind == Parser.ClassifyFunction(r.value.name)
    ensures r.Some? ==> r.value.nameRange == RangeOf(Parser.DeclaredFunction(n).value.0.span)
    ensures n.FunctionDeclaration? && r.Some? ==> r.value.fullRange == RangeOf(n.span)
    ensures n.VariableDeclaration? && r.Some? ==>
              r.value.fullRange == RangeOf(Parser.GetFunctionFromExpression(n.initializer.value).value.span)
  {
    if n.FunctionDeclaration? && n.declName.Some? then
      var name := n.declName.value;
      Some(ParsedFunction(name.text, ClassifyFunction(name.text), RangeOf(name.span), RangeOf(n.span)))
    else if n.VariableDeclaration? && n.binding.BindingIdentifier? && n.initializer.Some? then
      match Parser.GetFunctionFromExpression(n.initializer.value)
      case Some(f) =>
        var name := n.binding.id;
        Some(ParsedFunction(name.text, ClassifyFunction(name.text), RangeOf(name.span), RangeOf(f.span)))
      case None => None
    else None
  }

  function ParseEmit(n: Node): seq<ParsedFunction>
  {
    OptionToSeq(ParsedOf(n))
  }

  /** The visitor of `parseFunctions`: it never prunes and records each declared function. */
  function ParseVisitor(): Node -> Visit<ParsedFunction>
  {
    n => Visit(ParseEmit(n), true)
  }

  /** The functions `parseFunctions` lists for a tree, in pre-order. */
  function ParsedFunctions(root: Node): seq<ParsedFunction>
  {
    Walked(root, ParseVisitor())
  }

  /** The function, if any, that `parseFunctions` pushes for the node itself. */
  method ParseNode(node: Node) returns (own: seq<ParsedFunction>)
    ensures own == ParseEmit(node)
  {
    own := [];
    if node.FunctionDeclaration? && node.declName.Some? {
      var name := node.declName.value;
      own := own + [ParsedFunction(name.text, ClassifyFunction(name.text), RangeOf(name.span), RangeOf(node.span))];
    }
    if node.VariableDeclaration? && node.binding.BindingIdentifier? && node.initializer.Some? {
      var functionNode := GetFunctionFromExpression(node.initializer.value);
      if functionNode.Some? {
        var name := node.binding.id;
        own := own + [ParsedFunction(name.text, ClassifyFunction(name.text), RangeOf(name.span), RangeOf(functionNode.value.span))];
      }
    }
  }

  lemma ParsedFunctionsUnfold(node: Node)
    ensures ParsedFunctions(node) == ParseEmit(node) + WalkedAll(node, Children(node), ParseVisitor())
  {
  }

  /** The `visit` closure of `parseFunctions`: appends the functions of `node`'s subtree to `functions`. */
  method VisitNode(node: Node, functions: seq<ParsedFunction>) returns (result: seq<ParsedFunction>)
    ensures result == functions + ParsedFunctions(node)
    decreases node
  {
    var own := ParseNode(node);
    result := functions + own;
    var cs := Children(node);
    for i := 0 to |cs|
      invariant Below(node, cs[..i])
      invariant result == functions + own + WalkedAll(node, cs[..i], ParseVisitor())
    {
      result := VisitNode(cs[i], result);
      WalkedAllPrefix(node, cs, i, ParseVisitor());
      AppendAssoc(functions + own, WalkedAll(node, cs[..i], ParseVisitor()), Walked(cs[i], ParseVisitor()));
    }
    WalkedAllWhole(node, cs, ParseVisitor());
    ParsedFunctionsUnfold(node);
    AppendAssoc(functions, own, WalkedAll(node, cs, ParseVisitor()));
  }

  /** `parseFunctions` once the document is parsed. */
  method ParseFunctions(root: Node) returns (functions: seq<ParsedFunction>)
    ensures functions == ParsedFunctions(root)
  {
    functions := VisitNode(root, []);
  }

  /** What the extension and the analyzer both know of a function: name, role and where its name starts. */
  datatype Identity = Identity(fn: FunctionRef, location: Location)

  function ParsedIdentity(p: ParsedFunction): Identity
  {
    Identity(FunctionRef(p.name, p.kind), Location(p.nameRange.start.line + 1, p.nameRange.start.character))
  }

  function InfoIdentity(fi: FunctionInfo): Identity
  {
    Identity(FunctionRef(fi.name, fi.kind), fi.location)
  }

  function IdentityVisitor(): Node -> Visit<Identity>
  {
    n => Visit(MapSeq(InfoIdentity, Parser.CollectEmit(n)), true)
  }

  lemma ParsedOfAgrees(n: Node)
    ensures MapSeq(ParsedIdentity, ParseEmit(n)) == MapSeq(InfoIdentity, Parser.CollectEmit(n))
  {
    var d := Parser.DescriptorOf(n);
    if d.Some? {
      assert ParsedIdentity(ParsedOf(n).value) == InfoIdentity(d.value);
    }
  }

  /**
   * The extension lists the same functions as the analyzer, in the same order, with the
   * same names and roles, and each name range starts where the analyzer locates the function.
   */
  lemma ParsedAgreesWithCollected(root: Node)
    ensures |ParsedFunctions(root)| == |Parser.CollectedFunctions(root)|
    ensures forall i :: 0 <= i < |ParsedFunctions(root)| ==>
              ParsedIdentity(ParsedFunctions(root)[i]) == InfoIdentity(Parser.CollectedFunctions(root)[i])
  {
    forall k
      ensures IdentityVisitor()(k) == Visit(MapSeq(ParsedIdentity, ParseVisitor()(k).emit), ParseVisitor()(k).descend)
    {
      ParsedOfAgrees(k);
    }
    WalkedMap(root, ParseVisitor(), ParsedIdentity, IdentityVisitor());
    WalkedMap(root, Parser.CollectVisitor(), InfoIdentity, IdentityVisitor());
  }

  // ---------------------------------------------------------------------------
  // Violations as the extension reads them back

  /**
   * A violation as decoded from the analyzer's JSON output, where any field may be
   * missing: `None` is a missing or null value. A missing `location` object is a
   * violation whose line and column are both `None`.
   */
  datatype ReportedViolation = ReportedViolation(
    ruleId: Option<string>,
    fnName: Option<string>,
    fnKind: Option<string>,
    line: Option<int>,
    column: Option<int>)

  /** The decoded form of a violation the analyzer wrote. */
  function Reported(v: Violation): ReportedViolation
  {
    ReportedViolation(Some(v.ruleId), Some(v.fn.name), Some(KindName(v.fn.kind)),
                      Some(v.location.line), Some(v.location.column))
  }

  /** A string field that is present and not empty. */
  predicate Truthy(s: Option<string>)
  {
    s.Some? && s.value != ""
  }

  /** The violation's name and role, where given, are the function's. */
  predicate Admits(fn: ParsedFunction, v: ReportedViolation)
  {
    && !(Truthy(v.fnName) && v.fnName.value != fn.name)
    && !(Truthy(v.fnKind) && v.fnKind.value != KindName(fn.kind))
  }

  predicate HasLocation(v: ReportedViolation)
  {
    v.line.Some? && v.column.Some?
  }

  /** The editor position of the location exists: editor positions reject a negative line or character. */
  predicate ValidPosition(v: ReportedViolation)
  {
    HasLocation(v) && v.line.value >= 1 && v.column.value >= 0
  }

  /** The editor position of a 1-based location. */
  function PositionOf(v: ReportedViolation): Position
    requires ValidPosition(v)
  {
    Position(v.line.value - 1, v.column.value)
  }

  /** The match test of `buildFunctionAnalysis`. */
  predicate Matches(fn: ParsedFunction, v: ReportedViolation)
  {
    Admits(fn, v) && ValidPosition(v) && Contains(fn.fullRange, PositionOf(v))
  }

  /** `Array.prototype.find`, as the index of the first element satisfying `p`. */
  function FirstIndex<T>(s: seq<T>, p: T -> bool): (r: Option<nat>)
    ensures r.Some? ==> r.value < |s| && p(s[r.value]) && forall j :: 0 <= j < r.value ==> !p(s[j])
    ensures r.None? <==> forall j :: 0 <= j < |s| ==> !p(s[j])
  {
    if s == [] then None
    else if p(s[0]) then Some(0)
    else
      var rest := FirstIndex(s[1..], p);
      assert forall j :: 1 <= j < |s| ==> s[1..][j - 1] == s[j];
      match rest
      case Some(i) => Some(i + 1)
      case None => None
  }

  /**
   * The function a violation marks: the first one it matches. Building the editor
   * position fails on a negative line or character, which happens as soon as the search
   * reaches a function the name and role admit.
   */
  function FirstMatch(fns: seq<ParsedFunction>, v: ReportedViolation): (r: Result<Option<nat>>)
    ensures r.Err? <==> HasLocation(v) && !ValidPosition(v) && exists j :: 0 <= j < |fns| && Admits(fns[j], v)
    ensures r.Ok? && r.value.Some? ==>
              r.value.value < |fns| && Matches(fns[r.value.value], v)
              && forall j :: 0 <= j < r.value.value ==> !Matches(fns[j], v)
    ensures r.Ok? ==> (r.value.None? <==> forall j :: 0 <= j < |fns| ==> !Matches(fns[j], v))
  {
    if HasLocation(v) && !ValidPosition(v) && FirstIndex(fns, fn => Admits(fn, v)).Some? then
      Err("position must be non-negative")
    else
      Ok(FirstIndex(fns, fn => Matches(fn, v)))
  }

  // ---------------------------------------------------------------------------
  // buildFunctionAnalysis

  /** A listed function with the violations that marked it. */
  datatype AnalyzedFunction = AnalyzedFunction(fn: ParsedFunction, hasViolations: bool, ruleIds: seq<string>)

  /** Some violation marks the `i`-th function. */
  ghost predicate Marked(fns: seq<ParsedFunction>, vs: seq<ReportedViolation>, i: nat)
  {
    exists k :: 0 <= k < |vs| && FirstMatch(fns, vs[k]) == Ok(Some(i))
  }

  /** The rule ids of the violations marking the `i`-th function, in violation order; empty ids are skipped. */
  function RuleIdsOf(fns: seq<ParsedFunction>, vs: seq<ReportedViolation>, i: nat): (r: seq<string>)
    ensures |r| <= |vs|
    ensures r != [] ==> Marked(fns, vs, i)
  {
    if vs == [] then []
    else
      var last := vs[|vs| - 1];
      var init := RuleIdsOf(fns, vs[..|vs| - 1], i);
      assert init != [] ==> Marked(fns, vs, i) by {
        if init != [] {
          var k :| 0 <= k < |vs| - 1 && FirstMatch(fns, vs[..|vs| - 1][k]) == Ok(Some(i));
          assert vs[..|vs| - 1][k] == vs[k];
        }
      }
      init + if FirstMatch(fns, last) == Ok(Some(i)) && Truthy(last.ruleId) then [last.ruleId.value] else []
  }

  lemma MarkedSnoc(fns: seq<ParsedFunction>, vs: seq<ReportedViolation>, v: ReportedViolation, i: nat)
    ensures Marked(fns, vs + [v], i) <==> Marked(fns, vs, i) || FirstMatch(fns, v) == Ok(Some(i))
  {
    var ws := vs + [v];
    assert forall k :: 0 <= k < |vs| ==> ws[k] == vs[k];
    assert ws[|vs|] == v;
  }

  lemma RuleIdsSnoc(fns: seq<ParsedFunction>, vs: seq<ReportedViolation>, v: ReportedViolation, i: nat)
    ensures RuleIdsOf(fns, vs + [v], i) ==
              RuleIdsOf(fns, vs, i) + if FirstMatch(fns, v) == Ok(Some(i)) && Truthy(v.ruleId) then [v.ruleId.value] else []
  {
    assert (vs + [v])[..|vs|] == vs;
  }

  /** What the analysis holds once the violations `vs` are processed. */
  ghost function Expected(fns: seq<ParsedFunction>, vs: seq<ReportedViolation>): (r: seq<AnalyzedFunction>)
    ensures |r| == |fns|
  {
    seq(|fns|, i requires 0 <= i < |fns| => AnalyzedFunction(fns[i], Marked(fns, vs, i), RuleIdsOf(fns, vs, i)))
  }

  function Unmarked(fn: ParsedFunction): AnalyzedFunction
  {
    AnalyzedFunction(fn, false, [])
  }

  /** Before any violation is processed, no function is marked. */
  lemma NothingMarkedYet(fns: seq<ParsedFunction>)
    ensures MapSeq(Unmarked, fns) == Expected(fns, [])
  {
  }

  /** Processing one more violation marks its first match, and only that function. */
  lemma MarkStep(fns: seq<ParsedFunction>, vs: seq<ReportedViolation>, v: ReportedViolation, after: seq<AnalyzedFunction>)
    requires FirstMatch(fns, v).Ok?
    requires FirstMatch(fns, v).value.None? ==> after == Expected(fns, vs)
    requires FirstMatch(fns, v).value.Some? ==>
               var before := Expected(fns, vs);
               var t := FirstMatch(fns, v).value.value;
               var ids := if Truthy(v.ruleId) then before[t].ruleIds + [v.ruleId.value] else before[t].ruleIds;
               after == before[t := before[t].(hasViolations := true, ruleIds := ids)]
    ensures after == Expected(fns, vs + [v])
  {
    forall i | 0 <= i < |fns|
      ensures after[i] == Expected(fns, vs + [v])[i]
    {
      MarkedSnoc(fns, vs, v, i);
      RuleIdsSnoc(fns, vs, v, i);
    }
  }

  /** Every element of `s` satisfies `p`, stated element by element from the back. */
  ghost predicate AllHold<T>(s: seq<T>, p: T -> bool)
    decreases |s|
  {
    s == [] || (AllHold(s[..|s| - 1], p) && p(s[|s| - 1]))
  }

  lemma {:induction false} AllHoldEach<T>(s: seq<T>, p: T -> bool)
    ensures AllHold(s, p) <==> forall k :: 0 <= k < |s| ==> p(s[k])
    decreases |s|
  {
    if s != [] {
      var init := s[..|s| - 1];
      AllHoldEach(init, p);
      assert forall k :: 0 <= k < |init| ==> init[k] == s[k];
    }
  }

  /** The violation's first match among `fns` is found without failing. */
  ghost function Builds(fns: seq<ParsedFunction>): ReportedViolation -> bool
  {
    v => FirstMatch(fns, v).Ok?
  }

  /** The loop body of `buildFunctionAnalysis`: the `k`-th violation marks its first match, if any. */
  method MarkFirstMatch(functions: seq<ParsedFunction>, violations: seq<ReportedViolation>, k: nat,
                        analysis: seq<AnalyzedFunction>)
    returns (r: Result<seq<AnalyzedFunction>>)
    requires k < |violations| && analysis == Expected(functions, violations[..k])
    ensures r.Err? <==> FirstMatch(functions, violations[k]).Err?
    ensures r.Ok? ==> r.value == Expected(functions, violations[..k + 1])
    ensures r.Ok? && AllHold(violations[..k], Builds(functions)) ==> AllHold(violations[..k + 1], Builds(functions))
  {
    ghost var vs := violations[..k];
    var v := violations[k];
    assert violations[..k + 1] == vs + [v];
    assert violations[..k + 1][..k] == vs;
    // The match test reads only the name, role and range, which marking never changes.
    var target := FirstMatch(functions, v);
    if target.Err? {
      return Err(target.error);
    }
    var updated := analysis;
    if target.value.Some? {
      var t := target.value.value;
      var ids := if Truthy(v.ruleId) then analysis[t].ruleIds + [v.ruleId.value] else analysis[t].ruleIds;
      updated := analysis[t := analysis[t].(hasViolations := true, ruleIds := ids)];
    }
    MarkStep(functions, vs, v, updated);
    r := Ok(updated);
  }

  /**
   * `buildFunctionAnalysis`: every listed function, in order, marked by the violations
   * whose first match it is, with their rule ids in violation order. It fails when some
   * violation's position cannot be built.
   */
  method BuildFunctionAnalysis(functions: seq<ParsedFunction>, violations: seq<ReportedViolation>)
    returns (r: Result<seq<AnalyzedFunction>>)
    ensures r.Err? <==> exists k :: 0 <= k < |violations| && FirstMatch(functions, violations[k]).Err?
    ensures r.Ok? ==> r.value == Expected(functions, violations)
  {
    var analysis := MapSeq(Unmarked, functions);
    NothingMarkedYet(functions);
    assert violations[..0] == [];
    for k := 0 to |violations|
      invariant AllHold(violations[..k], Builds(functions))
      invariant analysis == Expected(functions, violations[..k])
    {
      var next := MarkFirstMatch(functions, violations, k, analysis);
      if next.Err? {
        return Err(next.error);
      }
      analysis := next.value;
    }
    assert violations[..|violations|] == violations;
    AllHoldEach(violations, Builds(functions));
    r := Ok(analysis);
  }

  /**
   * A function is marked exactly when some violation matches it and no earlier function:
   * a violation never marks two functions, and never one after its first match.
   */
  lemma MarkedIffFirstMatch(fns: seq<ParsedFunction>, vs: seq<ReportedViolation>, i: nat)
    requires i < |fns|
    requires forall k :: 0 <= k < |vs| ==> FirstMatch(fns, vs[k]).Ok?
    ensures Marked(fns, vs, i) <==>
              exists k :: 0 <= k < |vs| && Matches(fns[i], vs[k]) && forall j :: 0 <= j < i ==> !Matches(fns[j], vs[k])
  {
    if k :| 0 <= k < |vs| && Matches(fns[i], vs[k]) && forall j :: 0 <= j < i ==> !Matches(fns[j], vs[k]) {
      var r := FirstMatch(fns, vs[k]);
      assert r.value.Some?;
      var t := r.value.value;
      assert !(t < i) && !(i < t);
    }
  }

  /** Every rule id recorded for a function comes from a violation marking it. */
  lemma {:induction false} RuleIdsSound(fns: seq<ParsedFunction>, vs: seq<ReportedViolation>, i: nat, id: string)
    requires id in RuleIdsOf(fns, vs, i)
    ensures exists k :: 0 <= k < |vs| && FirstMatch(fns, vs[k]) == Ok(Some(i)) && vs[k].ruleId == Some(id)
    decreases |vs|
  {
    var init := vs[..|vs| - 1];
    if id in RuleIdsOf(fns, init, i) {
      RuleIdsSound(fns, init, i, id);
      var k :| 0 <= k < |init| && FirstMatch(fns, init[k]) == Ok(Some(i)) && init[k].ruleId == Some(id);
      assert vs[k] == init[k];
    }
  }

  /** Every violation marking a function with a non-empty rule id has that id recorded. */
  lemma {:induction false} RuleIdsComplete(fns: seq<ParsedFunction>, vs: seq<ReportedViolation>, i: nat, k: nat)
    requires k < |vs| && FirstMatch(fns, vs[k]) == Ok(Some(i)) && Truthy(vs[k].ruleId)
    ensures vs[k].ruleId.value in RuleIdsOf(fns, vs, i)
    decreases |vs|
  {
    if k < |vs| - 1 {
      var init := vs[..|vs| - 1];
      assert init[k] == vs[k];
      RuleIdsComplete(fns, init, i, k);
    }
  }

  // ---------------------------------------------------------------------------
  // findFunctionForViolation

  /** The function named by the violation, whatever its location. */
  predicate NamedBy(a: AnalyzedFunction, v: ReportedViolation)
  {
    v.fnName == Some(a.fn.name)
  }

  function ContainsPosition(a: AnalyzedFunction, v: ReportedViolation): bool
    requires ValidPosition(v)
  {
    Contains(a.fn.fullRange, PositionOf(v))
  }

  /**
   * `findFunctionForViolation`: the first function with the violation's name; failing
   * that, the first whose range contains the violation's position, or none when the
   * violation has no location.
   */
  function FindFunctionForViolation(analysis: seq<AnalyzedFunction>, v: ReportedViolation): (r: Result<Option<nat>>)
    ensures r.Ok? && r.value.Some? ==> r.value.value < |analysis|
    ensures (exists i :: 0 <= i < |analysis| && NamedBy(analysis[i], v)) ==>
              r.Ok? && r.value.Some? && NamedBy(analysis[r.value.value], v)
              && forall j :: 0 <= j < r.value.value ==> !NamedBy(analysis[j], v)
    ensures (forall i :: 0 <= i < |analysis| ==> !NamedBy(analysis[i], v)) ==>
              && (!HasLocation(v) ==> r == Ok(None))
              && (HasLocation(v) && !ValidPosition(v) ==> r.Err?)
              && (ValidPosition(v) ==> r.Ok?)
              && (ValidPosition(v) && r.Ok? && r.value.Some? ==>
                    ContainsPosition(analysis[r.value.value], v)
                    && forall j :: 0 <= j < r.value.value ==> !ContainsPosition(analysis[j], v))
              && (ValidPosition(v) && r.Ok? && r.value.None? ==>
                    forall j :: 0 <= j < |analysis| ==> !ContainsPosition(analysis[j], v))
  {
    var byName := FirstIndex(analysis, a => NamedBy(a, v));
    if byName.Some? then Ok(byName)
    else if !HasLocation(v) then Ok(None)
    else if !ValidPosition(v) then Err("position must be non-negative")
    else Ok(FirstIndex(analysis, a requires ValidPosition(v) => ContainsPosition(a, v)))
  }

  /** Every violation the analyzer reports names one of the descriptors it collected. */
  lemma ReportedViolationNamesDescriptor(root: Node, v: Violation) returns (i: nat)
    requires v in Pipeline.ReportOf(root)
    ensures i < |Parser.CollectedFunctions(root)| && Parser.CollectedFunctions(root)[i].name == v.fn.name
  {
    var fns := Parser.CollectedFunctions(root);
    assert v in multiset(Engine.SortByLocation(Engine.RuleResults(fns)));
    Engine.RuleResultsSound(fns, v);
    i :| 0 <= i < |fns| && v in Engine.RuleOutputs(fns[i]);
  }

  /**
   * Every violation the analyzer reports for a file, read back by the extension, is
   * attached by name to one of the functions the extension lists for the same tree.
   */
  lemma ReportedViolationFindsItsFunction(root: Node, analysis: seq<AnalyzedFunction>, v: Violation)
    requires v in Pipeline.ReportOf(root)
    requires |analysis| == |ParsedFunctions(root)|
    requires forall i :: 0 <= i < |analysis| ==> analysis[i].fn == ParsedFunctions(root)[i]
    ensures var r := FindFunctionForViolation(analysis, Reported(v));
            r.Ok? && r.value.Some? && analysis[r.value.value].fn.name == v.fn.name
  {
    var i := ReportedViolationNamesDescriptor(root, v);
    ParsedAgreesWithCollected(root);
    assert ParsedIdentity(ParsedFunctions(root)[i]).fn.name == InfoIdentity(Parser.CollectedFunctions(root)[i]).fn.name;
    assert NamedBy(analysis[i], Reported(v));
  }

  // ---------------------------------------------------------------------------
  // findFunctionNameRange

  /** The 0-based line the upward scan starts from: the violation's line, or the first line without one. */
  function StartLine(v: ReportedViolation): nat
  {
    var line := (if v.line.Some? then v.line.value else 1) - 1;
    if line < 0 then 0 else line
  }

  /** The last line the scan reaches: at most 50 lines above the start. */
  function MinLine(v: ReportedViolation): (m: nat)
    ensures m <= StartLine(v) <= m + 50
    ensures m == if StartLine(v) >= 50 then StartLine(v) - 50 else 0
  {
    if StartLine(v) - 50 < 0 then 0 else StartLine(v) - 50
  }

  /**
   * `findFunctionNameRange`: scanning a document's lines upward from the violation's line,
   * the first line containing the function's name, as the range of its first occurrence
   * there. Reading a line past the end of the document fails.
   */
  method FindFunctionNameRange(lines: seq<string>, v: ReportedViolation) returns (r: Result<Option<Range>>)
    ensures !Truthy(v.fnName) ==> r == Ok(None)
    ensures Truthy(v.fnName) ==> (r.Err? <==> StartLine(v) >= |lines|)
    ensures r.Ok? && r.value.Some? ==>
              var name := v.fnName.value;
              var range := r.value.value;
              && Truthy(v.fnName)
              && MinLine(v) <= range.start.line <= StartLine(v) < |lines|
              && range.end.line == range.start.line
              && range.start.character == IndexOf(lines[range.start.line], name)
              && range.end.character == range.start.character + |name| <= |lines[range.start.line]|
              && lines[range.start.line][range.start.character..range.end.character] == name
              && forall l :: range.start.line < l <= StartLine(v) ==> IndexOf(lines[l], name) < 0
    ensures r.Ok? && r.value.None? && Truthy(v.fnName) ==>
              forall l :: MinLine(v) <= l <= StartLine(v) ==> IndexOf(lines[l], v.fnName.value) < 0
  {
    if !Truthy(v.fnName) {
      return Ok(None);
    }
    var name := v.fnName.value;
    var startLine := StartLine(v);
    var minLine := MinLine(v);
    if startLine >= |lines| {
      return Err("line out of range");
    }
    var line: int := startLine;
    while line >= minLine
      invariant minLine - 1 <= line <= startLine
      invariant forall l :: line < l <= startLine ==> IndexOf(lines[l], name) < 0
      decreases line
    {
      var index := IndexOf(lines[line], name);
      if index >= 0 {
        return Ok(Some(Range(Position(line, index), Position(line, index + |name|))));
      }
      line := line - 1;
    }
    return Ok(None);
  }

  // ---------------------------------------------------------------------------
  // The advice lens

  const UNAVAILABLE: string := "AI advice unavailable."

  /** The longest title a lens shows. */
  const MAX_TITLE: nat := 160

  function StatusSymbol(hasViolations: bool): string
  {
    if hasViolations then "\U{2717}" else "\U{2713}"
  }

  function StatusLabel(hasViolations: bool): string
  {
    if hasViolations then "Bad" else "Good"
  }

  /** The status part of a lens title: a cross and "Bad", or a tick and "Good". */
  function LensPrefix(hasViolations: bool): (p: string)
    ensures |p| <= 8
    ensures hasViolations ==> p == "\U{2717} Bad: "
    ensures !hasViolations ==> p == "\U{2713} Good: "
  {
    StatusSymbol(hasViolations) + " " + StatusLabel(hasViolations) + ": "
  }

  /** The advice as shown: trimmed, or a fixed notice when nothing is left. */
  function ShownAdvice(advice: string): (r: string)
    ensures r != [] && !IsWhitespace(r[0]) && !IsWhitespace(r[|r| - 1])
    ensures (forall k :: 0 <= k < |advice| ==> IsWhitespace(advice[k])) ==> r == UNAVAILABLE
    ensures (exists k :: 0 <= k < |advice| && !IsWhitespace(advice[k])) ==> r == Trim(advice)
  {
    var normalized := Trim(advice);
    if normalized == "" then UNAVAILABLE else normalized
  }

  /**
   * `formatCodeLensTitle`: the status and the advice, cut to 157 characters plus an
   * ellipsis when longer than 160.
   */
  function FormatCodeLensTitle(fn: AnalyzedFunction, advice: string): (r: string)
    ensures |r| <= MAX_TITLE
    ensures StartsWith(r, LensPrefix(fn.hasViolations))
    ensures var title := LensPrefix(fn.hasViolations) + ShownAdvice(advice);
            && (|title| <= MAX_TITLE ==> r == title)
            && (|title| > MAX_TITLE ==> |r| == MAX_TITLE && r[..157] == title[..157] && r[157..] == "...")
  {
    var prefix := LensPrefix(fn.hasViolations);
    var title := prefix + ShownAdvice(advice);
    assert title[..|prefix|] == prefix;
    FitKeepsPrefix(title, prefix);
    FitTitle(title)
  }

  /** A title of at most 160 characters as it is; a longer one cut to 157 and an ellipsis. */
  function FitTitle(title: string): (r: string)
    ensures |r| <= MAX_TITLE
    ensures |title| <= MAX_TITLE ==> r == title
    ensures |title| > MAX_TITLE ==> |r| == MAX_TITLE && r[..157] == title[..157] && r[157..] == "..."
  {
    if |title| > MAX_TITLE then title[..157] + "..." else title
  }

  /** Cutting a title keeps any prefix of at most 157 characters. */
  lemma FitKeepsPrefix(title: string, p: string)
    requires StartsWith(title, p) && |p| <= 157
    ensures StartsWith(FitTitle(title), p)
  {
    if |title| > MAX_TITLE {
      assert FitTitle(title)[..|p|] == FitTitle(title)[..157][..|p|] == title[..157][..|p|];
    }
  }

  const GOOD_ADVICE: string := "Composition pattern: keep responsibilities separated and compose UI from small components."
  const API_ADVICE: string := "Strategy pattern: move API calls into a hook/service and select strategies outside the component."
  const HOOK_ADVICE: string := "Composition pattern: keep hooks pure and compose UI in components instead of returning JSX."
  const OTHER_ADVICE: string := "Facade pattern: encapsulate complex dependencies behind a small, stable interface."

  /**
   * `getFallbackAdvice`: praise for an unmarked function; for a marked one, advice for an
   * API call before advice for a JSX-returning hook, and generic advice otherwise.
   */
  function GetFallbackAdvice(fn: AnalyzedFunction): (r: string)
    ensures !fn.hasViolations ==> r == GOOD_ADVICE
    ensures r == API_ADVICE <==> fn.hasViolations && "no-api-in-react-component" in fn.ruleIds
    ensures r == HOOK_ADVICE <==>
              fn.hasViolations && "no-api-in-react-component" !in fn.ruleIds && "no-jsx-in-hooks" in fn.ruleIds
    ensures r == OTHER_ADVICE <==>
              fn.hasViolations && "no-api-in-react-component" !in fn.ruleIds && "no-jsx-in-hooks" !in fn.ruleIds
  {
    if !fn.hasViolations then GOOD_ADVICE
    else if "no-api-in-react-component" in fn.ruleIds then API_ADVICE
    else if "no-jsx-in-hooks" in fn.ruleIds then HOOK_ADVICE
    else OTHER_ADVICE
  }

  /** The rule ids the advice looks for are the analyzer's own. */
  lemma FallbackAdviceKnowsCoreRules(p: ParsedFunction)
    ensures GetFallbackAdvice(AnalyzedFunction(p, true, [NoApiRule.RULE_ID])) == API_ADVICE
    ensures GetFallbackAdvice(AnalyzedFunction(p, true, [NoJsxRule.RULE_ID])) == HOOK_ADVICE
    ensures GetFallbackAdvice(AnalyzedFunction(p, true, [NoJsxRule.RULE_ID, NoApiRule.RULE_ID])) == API_ADVICE
  {
  }
}
