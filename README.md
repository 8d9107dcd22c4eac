# react-architecture-guardian, modelled in Dafny

react-architecture-guardian checks two architectural rules on React source files:

- a React component must not call an API (`fetch`, `axios`) directly;
- a React hook must not return JSX.

The analyzer (`core/src`) parses a file and lists its function-like declarations. Each one becomes a
descriptor carrying:

- its name;
- its role, derived from the name (`react-hook`, `react-component` or `utility`);
- the location of the name;
- its own API call sites and JSX-returning sites.

The analyzer then applies both rules to every descriptor and sorts the violations by line, then
column, then rule id. The editor extension (`vscode/src/extension.ts`) runs the analyzer on the open
document. It lists the functions of the document again, attaches each violation to the function it
belongs to, locates function names for diagnostics, and writes the title of a per-function
"advice" lens.

This project models:

- all of that pure logic as Dafny functions over a syntax-tree datatype;
- the loops and accumulating walks of the source as methods proved against those functions;
- the properties the code promises, as lemmas.

Files:

- `wrappers.dfy`: `Option` and `Result`. `Option` stands for `null`/`undefined`; `Result` stands
  for a thrown error.
- `model.dfy`: the shapes of `core/src/model.ts`.
- `syntax.dfy`: the subset of the TypeScript syntax tree the analyzer looks at, with the span of every
  node. It also holds the pre-order `walk` with pruning, as a function `Walked` and a method `Walk`,
  and the reachability facts about it.
- `text.dfy`: the string operations the source uses: `startsWith`, `indexOf`, `trim`, and an ordinal
  comparison.
- `parser.dfy`: `core/src/parser.ts`.
- `no_api_in_react_component.dfy` and `no_jsx_in_hooks.dfy`: the two rules.
- `engine.dfy`: `core/src/engine.ts`, rule application and the three-key stable sort.
- `pipeline.dfy`: one analysis run of `core/src/rag.ts` once the tree is built.
- `examples.dfy`: three small files written out as trees, with the exact violations reported for
  each:
  - a component calling `fetch`: `function Widget() { fetch('/x'); return <div/>; }`;
  - a hook returning markup: `const useData = () => { return <span/>; }`;
  - a component whose nested arrow calls `fetch`.
- `extension.dfy`: the pure and bookkeeping helpers of `vscode/src/extension.ts`.

The rule ids are `no-api-in-react-component` and `no-jsx-in-hooks`, and the roles are
`react-component`, `react-hook` and `utility`.

## Model

| member | source | states |
|---|---|---|
| Model.ParseKind | core/src/model.ts:3 | exactly the three spellings `react-component`, `react-hook`, `utility` are roles, and each reads back to a role spelled that way |
| Model.KindNameRoundTrip | core/src/model.ts:3 | every role survives the trip through its spelling, and distinct roles are spelled differently |
| Model.ParseSeverity | core/src/model.ts:26 | exactly `error` and `warning` are severities |
| Model.MakeResult | core/src/model.ts:31-35 | a result record always carries schema version `1.0.0` and the given path and violations |
| Text.IndexOf | vscode/src/extension.ts:277 | `indexOf`: -1 when the pattern does not occur, otherwise an index where it occurs with no earlier occurrence |
| Text.Trim | vscode/src/extension.ts:559 | `trim` leaves a slice `s[i..j]` of the input with only white space outside it; it is empty iff the input is all white space, and otherwise starts and ends with non-white space |
| Text.TrimPart | vscode/src/extension.ts:559 | trimming keeps one contiguous slice of the input and removes only white space before and after it |
| Text.TrimEmpty | vscode/src/extension.ts:559 | trimming leaves nothing iff every character is white space |
| Text.TrimEnds | vscode/src/extension.ts:559 | what trimming leaves is no longer than the input and neither starts nor ends with white space |
| Text.CompareOrdinalZero | core/src/engine.ts:27 | the rule-id comparison ties only equal strings |
| Text.CompareOrdinalFlip | core/src/engine.ts:27 | swapping the rule ids flips the comparison's sign |
| Text.CompareOrdinalTransitive | core/src/engine.ts:27 | the rule-id comparison is transitive |
| Syntax.Walk | core/src/parser.ts:241-246 | `walk` visits a node, then walks each child in order only when the visitor returns true; it records exactly the pre-order walk with that pruning |
| Syntax.WalkedSound | core/src/parser.ts:241-246 | anything a walk records was recorded at a node reached without passing below a pruned node |
| Syntax.WalkedComplete | core/src/parser.ts:241-246 | whatever the visitor records at a node the walk reaches appears in the walk |
| Syntax.WalkedMap | core/src/parser.ts:241-246 | two walks that prune alike and record related values at each node record related sequences |
| Syntax.WalkedLength | core/src/parser.ts:241-246 | a walk records no more values than one that prunes alike and records at least as many at each node |
| Parser.GetScriptKind | core/src/parser.ts:44-60 | `.tsx` gives TSX, `.jsx` JSX, `.js`/`.mjs`/`.cjs` JS, and every other extension TS |
| Parser.ClassifyFunction | core/src/parser.ts:105-132 | hook iff the name starts with `use` and has a character A-Z at index 3; component iff it starts with A-Z; utility iff neither |
| Parser.ClassificationExamples | core/src/parser.ts:105-132 | `use`, `user`, `useeffect` are utilities, `UseFoo` is a component, `useFoo` and `useX` are hooks |
| Parser.IsJsxNode | core/src/parser.ts:224-230 | a node is markup iff it is a JSX element, a self-closing JSX element or a JSX fragment; no such node is a function |
| Parser.IsNestedFunction | core/src/parser.ts:232-239 | the searches stop at function declarations, function expressions, arrows and methods; every function value an initializer unwraps to is among them |
| Parser.NodeLocation | core/src/parser.ts:248-255 | the location of a node or a declared name is its first token's line plus one and its character unchanged |
| Parser.CalleeIsApi | core/src/parser.ts:159-173 | a callee is an API callee iff it is the identifier `fetch` or `axios`, or a member (plain or optional) of the bare identifier `axios`; so only identifiers and member accesses qualify, and a qualifying member access hangs off a qualifying identifier |
| Parser.CalleeIsApiIgnoresOptional | core/src/parser.ts:164-170 | a member access `a.b` and the optional chain `a?.b` are API callees alike |
| Parser.CalleeIsApiExamples | core/src/parser.ts:159-173 | bare `fetch`/`axios` and any member of bare `axios`, optional or not, are API callees; `window.fetch`, a member of the call `axios.create()` and a parenthesized `fetch` are not |
| Parser.GetFunctionFromExpression | core/src/parser.ts:62-83 | an arrow or function expression is its own result; otherwise the result, when there is one, is a function value inside the expression |
| Parser.GetFunctionFromExpressionCases | core/src/parser.ts:62-83 | parentheses are looked through; a call yields its first function-valued argument; any other expression that is no function value yields nothing |
| Parser.GetFunctionFromExpressionExamples | core/src/parser.ts:62-83 | a doubly parenthesized arrow unwraps to the arrow; `f(x, arrow)` yields the arrow; an identifier initializer yields nothing |
| Parser.FirstFunctionArgument | core/src/parser.ts:71-80 | a call yields nothing iff no argument yields a function, and otherwise the result of the first argument that yields one |
| Parser.ApiCallSites | core/src/parser.ts:134-141 | no body gives no call sites |
| Parser.ApiCallSitesSound | core/src/parser.ts:142-157 | every reported site is the location of an API call reachable from the body without entering a nested function |
| Parser.ApiCallSitesComplete | core/src/parser.ts:142-157 | every API call reachable from the body without entering a nested function is reported |
| Parser.JsxMatchesSound | core/src/parser.ts:209-222 | every match of the JSX search is a JSX node reached without entering JSX or a nested function |
| Parser.FoundJsx | core/src/parser.ts:209-222 | `findFirstJSX` finds nothing exactly when the walk meets no JSX node |
| Parser.FoundJsxSound | core/src/parser.ts:209-222 | what the search keeps is a JSX node reached without entering JSX or a nested function other than the root |
| Parser.FoundJsxComplete | core/src/parser.ts:209-222 | when such a JSX node exists, the search finds something |
| Parser.ArrowRootSearched | core/src/parser.ts:211-214 | an arrow searched from itself is entered, so `() => <div/>` yields its JSX body |
| Parser.ParenthesizedArrowNotSearched | core/src/parser.ts:211-214 | the same arrow one level below the root is a nested function and is not entered |
| Parser.LastMatchWins | core/src/parser.ts:215-218 | of two sibling JSX matches the later one is kept, because each match overwrites `found` |
| Parser.JsxReturnSites | core/src/parser.ts:175-191 | no body gives no sites; an expression body gives at most one |
| Parser.JsxReturnSitesSound | core/src/parser.ts:193-204 | every site of a block body comes from a `return` in the body's own scope whose argument holds JSX |
| Parser.JsxReturnSitesComplete | core/src/parser.ts:193-204 | every such `return` contributes its site |
| Parser.JsxReturnSitesBound | core/src/parser.ts:193-204 | a block body yields no more sites than it has in-scope `return`s with an argument |
| Parser.ReturnedArrowCounts | core/src/parser.ts:197-201 | `return () => <div/>` in a block body counts as a JSX return |
| Parser.CurriedConciseBodyCounts | core/src/parser.ts:185-190 | a concise body that is itself an arrow returning JSX counts |
| Parser.DeclaredFunction | core/src/parser.ts:29-39 | a node declares a function iff it is a named function declaration, or a variable with an identifier name whose initializer unwraps to a function; for a variable, the name is the binding's identifier and the body is that of the unwrapped function |
| Parser.DescriptorOf | core/src/parser.ts:29-39 | a node has a descriptor iff it declares a function; it carries the declared name, the role the name classifies to, the name's 1-based location, and the API call sites and JSX return sites of the body |
| Parser.CollectedFunctionsSound | core/src/parser.ts:24-42 | every emitted descriptor is that of a declaration in the tree |
| Parser.CollectedFunctionsComplete | core/src/parser.ts:24-42 | every declaration anywhere in the tree, nested ones included, has its descriptor emitted |
| Parser.NoDeduplication | core/src/parser.ts:24-42 | a declaration met twice is described twice |
| Parser.FindApiCalls | core/src/parser.ts:134-157 | `findAPICalls` returns the body's API call sites, and nothing without a body |
| Parser.FindFirstJsx | core/src/parser.ts:209-222 | `findFirstJSX` ends holding the last match of the walk, which is a JSX node |
| Parser.FindJsxReturns | core/src/parser.ts:175-207 | `findJSXReturns` returns the JSX-returning sites, at most one for an expression body |
| Parser.BuildFunctionInfo | core/src/parser.ts:85-103 | a descriptor has the name, its classification, the 1-based name location and the two site lists |
| Parser.DescribeNode | core/src/parser.ts:29-39 | the node itself pushes its descriptor when it declares a function, and nothing otherwise |
| Parser.CollectFunctions | core/src/parser.ts:24-42 | `collectFunctions` appends the descriptors of the subtree to `out`, in pre-order |
| Parser.ParseTree | core/src/parser.ts:19-21 | `parseFile` returns the descriptors of the whole tree |
| NoApiRule.NoApiInReactComponent | core/src/rules/noApiInReactComponent.ts:3-21 | a violation iff the role is component and there is an API call; it has the rule id, the message, severity error, the function's name and role, and the first call site |
| NoJsxRule.NoJsxInHooks | core/src/rules/noJsxInHooks.ts:3-21 | a violation iff the role is hook and there is a JSX return; it has the rule id, the message, severity error, the function's name and role, and the first JSX site |
| Engine.RuleOutputs | core/src/engine.ts:9-17 | one descriptor yields at most one violation, naming it, exactly when it offends one of the rules |
| Engine.RuleResultsCount | core/src/engine.ts:8-18 | there are as many violations as components with API calls plus hooks with JSX returns, and no more than descriptors |
| Engine.RuleResultsSound | core/src/engine.ts:8-18 | each collected violation is a rule verdict on some descriptor, with one of the two rule ids |
| Engine.RuleResultsComplete | core/src/engine.ts:8-18 | every descriptor's verdict is collected |
| Engine.CompareViolations | core/src/engine.ts:20-28 | the comparator orders by line first, then by column, then by rule id by character code: an earlier line, or the same line and an earlier column, sorts first |
| Engine.CompareViolationsProperties | core/src/engine.ts:20-28 | the comparator ties exactly the violations with equal line, column and rule id, and is antisymmetric and total |
| Engine.LeqTransitive | core/src/engine.ts:20-28 | the comparator's order is transitive |
| Engine.RuleIdOrder | core/src/engine.ts:27 | at one place an API violation sorts before a JSX violation |
| Engine.Insert | core/src/engine.ts:20-28 | insertion adds exactly one element |
| Engine.InsertSorted | core/src/engine.ts:20-28 | inserting into a sorted list keeps it sorted |
| Engine.InsertStable | core/src/engine.ts:20-28 | inserting keeps the order of the violations the comparator ties |
| Engine.SortByLocation | core/src/engine.ts:20-28 | the sort is a permutation |
| Engine.SortByLocationSorted | core/src/engine.ts:20-28 | the sort's output is ordered by line, column and rule id |
| Engine.SortByLocationStable | core/src/engine.ts:20-28 | violations the comparator ties keep their pushed order |
| Engine.SameLocationByRuleId | core/src/engine.ts:20-28 | two violations at one place come out ordered by rule id whichever was pushed first |
| Engine.Analyze | core/src/engine.ts:5-31 | `analyze` returns a sorted, stable permutation of the rule verdicts, of length components-with-calls plus hooks-with-JSX, and nothing for no descriptors |
| Pipeline.AnalyzeTree | core/src/rag.ts:13-19 | a run's record has the schema version, the path and the sorted violations, no more of them than descriptors |
| Examples.JsxRootMatch | core/src/parser.ts:215-218 | a JSX node searched from itself is its own only match |
| Examples.ReportOfOne | core/src/engine.ts:5-31 | a file with one descriptor reports that descriptor's verdicts |
| Examples.ReportOfNone | core/src/engine.ts:5-31 | a file with no descriptor reports nothing |
| Examples.EmptyFileExample | core/src/engine.ts:5-31 | an empty file reports nothing |
| Examples.WidgetDescriptors | core/src/parser.ts:24-42 | the Widget file yields one component descriptor with one API call and one JSX return |
| Examples.WidgetExample | core/src/engine.ts:5-31 | the Widget file reports one `no-api-in-react-component` violation, at the `fetch` call |
| Examples.UseDataDescriptors | core/src/parser.ts:24-42 | the useData file yields one hook descriptor with one JSX return |
| Examples.UseDataExample | core/src/engine.ts:5-31 | the useData file reports one `no-jsx-in-hooks` violation, at the JSX |
| Examples.AppDescriptors | core/src/parser.ts:24-42 | a component with a nested arrow yields two descriptors; the call belongs to the arrow, not to the component |
| Examples.NestedCallExample | core/src/parser.ts:143-146 | a call inside a function nested in a component is not charged to it, so nothing is reported |
| Extension.ShouldAnalyzeLanguage | vscode/src/extension.ts:424-431 | exactly the languages `typescriptreact`, `typescript`, `javascriptreact` and `javascript` are analysed, all of the TypeScript or JavaScript family |
| Extension.GetScriptKind | vscode/src/extension.ts:433-445 | only an analysed language gets a dialect other than TS; any other language id gets TS |
| Extension.LanguagesMatchExtensions | vscode/src/extension.ts:424-445 | the four analysed languages get four different dialects, the ones the analyzer picks for `.tsx`, `.ts`, `.jsx`, `.js` |
| Extension.ClassifyFunction | vscode/src/extension.ts:479-506 | the extension classifies every name exactly as the analyzer does |
| Extension.GetFunctionFromExpression | vscode/src/extension.ts:447-468 | the extension unwraps every initializer exactly as the analyzer does |
| Extension.FirstArgumentIsFirst | vscode/src/extension.ts:456-465 | returning the first argument that yields a function agrees with the analyzer's unwrapping |
| Extension.RangeOf | vscode/src/extension.ts:470-477 | a node's range runs from its first token's position to its end position, and contains both when the span does not run backwards |
| Extension.ContainsEnds | vscode/src/extension.ts:530 | a range contains its own ends and nothing before its start or after its end |
| Extension.ParsedOf | vscode/src/extension.ts:392-416 | a node lists a function iff the analyzer describes it, under the same name and role; the name range is the declared name's span, and the full range is the declaration's span for a function declaration and the unwrapped function value's span for a variable |
| Extension.ParseNode | vscode/src/extension.ts:392-416 | the node itself pushes its function when it declares one |
| Extension.VisitNode | vscode/src/extension.ts:391-419 | `visit` appends the functions of the subtree, in pre-order |
| Extension.ParseFunctions | vscode/src/extension.ts:379-422 | `parseFunctions` lists the functions of the whole tree |
| Extension.ParsedOfAgrees | vscode/src/extension.ts:392-416 | for each node, the extension and the analyzer agree on name, role and where the name starts |
| Extension.ParsedAgreesWithCollected | vscode/src/extension.ts:379-422 | the extension lists as many functions as the analyzer describes, in the same order, with the same names, roles and name positions |
| Extension.FirstIndex | vscode/src/extension.ts:519 | `find`: the first element satisfying the test, or none when no element does |
| Extension.FirstMatch | vscode/src/extension.ts:519-531 | a violation's target is the first function it matches by name, role and containment; the search fails iff the location is present with a line below 1 or a negative column, and some function is admitted by name and role |
| Extension.RuleIdsOf | vscode/src/extension.ts:533-538 | a function has rule ids only when some violation marks it, and no more than there are violations |
| Extension.Expected | vscode/src/extension.ts:512-516 | the analysis has one entry per listed function |
| Extension.NothingMarkedYet | vscode/src/extension.ts:512-516 | before any violation every function is unmarked with no rule ids |
| Extension.MarkedSnoc | vscode/src/extension.ts:533-534 | one more violation marks exactly its first match in addition |
| Extension.RuleIdsSnoc | vscode/src/extension.ts:535-537 | one more violation appends its non-empty rule id to its first match only |
| Extension.MarkStep | vscode/src/extension.ts:518-539 | processing one violation marks its first match, appends its rule id there, and changes nothing else |
| Extension.MarkFirstMatch | vscode/src/extension.ts:518-539 | one loop step fails iff the match search fails, and otherwise yields the analysis of one more violation |
| Extension.BuildFunctionAnalysis | vscode/src/extension.ts:508-542 | fails iff some violation's search fails; otherwise every function, in order, marked by the violations whose first match it is, with their rule ids in violation order |
| Extension.MarkedIffFirstMatch | vscode/src/extension.ts:518-534 | a function is marked iff some violation matches it and no earlier function |
| Extension.RuleIdsSound | vscode/src/extension.ts:535-537 | every rule id recorded for a function comes from a violation whose first match it is |
| Extension.RuleIdsComplete | vscode/src/extension.ts:535-537 | every non-empty rule id of a violation marking a function is recorded there |
| Extension.FindFunctionForViolation | vscode/src/extension.ts:544-554 | the first function with the violation's name wins regardless of location; otherwise none without a location, a failure on one with a line below 1 or a negative column, and else the first function containing the position |
| Extension.ReportedViolationNamesDescriptor | core/src/engine.ts:8-18 | every reported violation names a descriptor of the same file |
| Extension.ReportedViolationFindsItsFunction | vscode/src/extension.ts:544-548 | every violation the analyzer reports, read back, is attached by name to a function the extension lists for the same tree |
| Extension.MinLine | vscode/src/extension.ts:272-273 | the lowest line the upward scan reaches: the violation's start line minus 50, or line 0 when the start line is less than 50 |
| Extension.FindFunctionNameRange | vscode/src/extension.ts:263-287 | none for an empty name; failure iff the start line is past the document; otherwise the first line found scanning upward at most 50 lines that contains the name, as the range of its first occurrence, or none when no scanned line contains it |
| Extension.LensPrefix | vscode/src/extension.ts:557-560 | the status part of a title is `✗ Bad: ` when the function has violations and `✓ Good: ` otherwise |
| Extension.ShownAdvice | vscode/src/extension.ts:559 | the advice is shown trimmed, and as `AI advice unavailable.` when nothing is left |
| Extension.FormatCodeLensTitle | vscode/src/extension.ts:556-562 | a title never exceeds 160 characters, always starts with the status, and is the whole text when it fits or its first 157 characters and `...` otherwise |
| Extension.FitTitle | vscode/src/extension.ts:561 | a text of at most 160 characters is kept; a longer one becomes its first 157 characters and `...` |
| Extension.FitKeepsPrefix | vscode/src/extension.ts:561 | cutting a title keeps any prefix of at most 157 characters |
| Extension.GetFallbackAdvice | vscode/src/extension.ts:564-575 | praise for an unmarked function; for a marked one the API advice when `no-api-in-react-component` is among its ids, else the hook advice when `no-jsx-in-hooks` is, else the facade advice |
| Extension.FallbackAdviceKnowsCoreRules | vscode/src/extension.ts:564-575 | the ids the advice looks for are the analyzer's own, and the API rule wins when both are present |

## Left out

- Reading files and the command line: `fs.readFileSync`, `path.extname`, `process.argv`, the output
  streams and the exit codes of `core/src/rag.ts`. The run is modelled from the parsed tree onwards.
- The TypeScript parser: `ts.createSourceFile`, `ts.forEachChild`, `getStart` and
  `getLineAndCharacterOfPosition`. A tree is a value of the `Syntax.Node` datatype. Each node carries
  its precomputed start and end (0-based line and character), and its children are listed in the
  parser's enumeration order. Node kinds the analyzer never tests are collapsed into `Other`.
- `localeCompare` in the sort: modelled as ordinal comparison by character code. It agrees with any
  locale on the two rule ids, which differ at their fourth character.
- The `isPropertyAccessChain` branch of `calleeIsAPI`: an optional-chained member access is already a
  property access, so that branch adds nothing. Optional chaining is a flag that does not change the
  result.
- In-place sorting: `violations.sort` is modelled as a stable insertion sort on a sequence. The array
  is local to `analyze`, so no one else can observe the update.
- Extension host integration: `activate`, the commands, `analyzeCurrentFile`/`analyzeDocument`, the
  `execFile` call of the analyzer and the `JSON.parse` of its output, the diagnostics collection and
  `showDiagnostics`, `updateCodeLens` and `AdviceCodeLensProvider` with its event emitter. These
  concern editor and process I/O. A violation read from JSON is `Extension.ReportedViolation`, whose
  every field may be missing.
- `AnalyzeScheduler`: timer-based debouncing, with a floating-point delay.
- AI advice: `getAIAdvice`, `createOpenAIClient` and the warning flags. These involve network calls,
  environment variables and dynamic loading.
- `document.lineAt` is a sequence of line texts given to `Extension.FindFunctionNameRange`.
- `vscode.Position` rejects negative coordinates by throwing (so a violation at line 0 fails); the model returns `Err` instead.
- `vscode.Range` swaps its ends when they are given backwards. The model's ranges are taken as given:
  every range comes from a node's span or a name found on one line, so none runs backwards.
- Extension.FormatCodeLensTitle: lengths are counted in characters, whereas JavaScript counts UTF-16
  code units. The two differ only for advice text outside the Basic Multilingual Plane.
- Extension.FindFunctionNameRange: the start and end characters of the name range (`index` and
  `index + |name|`) are counted in characters, not UTF-16 code units.
- Text.Trim: the white-space set is that of `String.prototype.trim` (the Unicode space separators,
  tab, vertical tab, form feed, no-break space, byte order mark and the line terminators), written
  out as a character predicate.
