/**
 * Function extraction (core/src/parser.ts): finds the function-like declarations of a
 * syntax tree and describes each by name, role, name location, direct API call sites
 * and JSX-returning sites.
 */
module Parser {
  import opened Wrappers
  import opened Model
  import opened Syntax
  import opened Text

  /** The dialect chosen from a lower-cased file extension; anything unrecognised is TypeScript. */
  function GetScriptKind(ext: string): (k: ScriptKind)
    ensures k == TSX <==> ext == ".tsx"
    ensures k == JSX <==> ext == ".jsx"
    ensures k == JS <==> ext == ".js" || ext == ".mjs" || ext == ".cjs"
    ensures k == TS <==> ext !in {".tsx", ".jsx", ".js", ".mjs", ".cjs"}
  {
    match ext
    case ".tsx" => TSX
    case ".jsx" => JSX
    case ".js" => JS
    case ".mjs" => JS
    case ".cjs" => JS
    case _ => TS
  }

  // ---------------------------------------------------------------------------
  // Role classification

  predicate IsHookName(name: string)
  {
    if !StartsWith(name, "use") then false
    else if |name| < 4 then false
    else IsUpperAscii(name[3])
  }

  predicate IsComponentName(name: string)
  {
    if |name| == 0 then false
    else IsUpperAscii(name[0])
  }

  /**
   * The role of a function from its name alone. The hook test comes first, but the two
   * name shapes never overlap (a hook name starts with a lower-case 'u'), so a name is a
   * component exactly when it starts with an upper-case ASCII letter.
   */
  function ClassifyFunction(name: string): (k: Kind)
    ensures k == ReactHook <==> |name| >= 4 && name[..3] == "use" && IsUpperAscii(name[3])
    ensures k == ReactComponent <==> |name| > 0 && IsUpperAscii(name[0])
    ensures k == Utility <==> !IsHookName(name) && !IsComponentName(name)
  {
    if IsHookName(name) then ReactHook
    else if IsComponentName(name) then ReactComponent
    else Utility
  }

  /** Names such as `useFoo`, `user` and `use`: only a capital after "use" makes a hook. */
  lemma ClassificationExamples()
    ensures ClassifyFunction("useFoo") == ReactHook && ClassifyFunction("useX") == ReactHook
    ensures ClassifyFunction("use") == Utility && ClassifyFunction("user") == Utility
    ensures ClassifyFunction("useeffect") == Utility && ClassifyFunction("usefoo") == Utility
    ensures ClassifyFunction("UseFoo") == ReactComponent && ClassifyFunction("Foo") == ReactComponent
    ensures ClassifyFunction("Button1") == ReactComponent
    ensures ClassifyFunction("foo") == Utility && ClassifyFunction("_bar") == Utility
    ensures ClassifyFunction("42x") == Utility && ClassifyFunction("") == Utility
  {
    assert "useFoo"[..3] == "use";
    assert "useX"[..3] == "use";
    assert "user"[..3] == "use";
    assert "useeffect"[..3] == "use";
    assert "usefoo"[..3] == "use";
  }

  // ---------------------------------------------------------------------------
  // Node tests

  /** The three JSX forms that count as markup: an element, a self-closing element, a fragment; none of them is a function. */
  predicate IsJsxNode(n: Node): (b: bool)
    ensures b ==> !IsNestedFunction(n)
  {
    n.JsxElement? || n.JsxSelfClosingElement? || n.JsxFragment?
  }

  /** Function-like nodes whose bodies the searches do not enter (getters, setters and constructors are not among them). */
  predicate IsNestedFunction(n: Node): (b: bool)
    ensures IsFunctionValue(n) ==> b
  {
    n.FunctionDeclaration? || n.FunctionExpression? || n.ArrowFunction? || n.MethodDeclaration?
  }

  /** A function value an initializer can unwrap to. */
  predicate IsFunctionValue(n: Node)
  {
    n.ArrowFunction? || n.FunctionExpression?
  }

  /** The location reported for a node or a name, from its span: the first token's line made 1-based, and its character. */
  function NodeLocation(span: Span): (loc: Location)
    ensures loc.line >= 1 && loc.line - 1 == span.start.line
    ensures loc.column >= 0 && loc.column == span.start.character
  {
    Location(span.start.line + 1, span.start.character)
  }

  /**
   * A call target counts as an API call when it is the bare identifier `fetch` or
   * `axios`, or any member of the bare identifier `axios`, optional-chained or not.
   */
  predicate CalleeIsApi(callee: Node): (b: bool)
    ensures b ==> callee.Identifier? || callee.PropertyAccess?
    ensures b && callee.PropertyAccess? ==> CalleeIsApi(callee.target)
  {
    if callee.Identifier? then callee.text == "fetch" || callee.text == "axios"
    else if callee.PropertyAccess? then callee.target.Identifier? && callee.target.text == "axios"
    else false
  }

  /** Optional chaining never changes whether a member access is an API callee. */
  lemma CalleeIsApiIgnoresOptional(s: Span, target: Node, m: Name)
    ensures CalleeIsApi(PropertyAccess(s, target, m, true)) == CalleeIsApi(PropertyAccess(s, target, m, false))
  {
  }

  lemma CalleeIsApiExamples(s: Span, m: Name, opt: bool)
    ensures CalleeIsApi(Identifier(s, "fetch")) && CalleeIsApi(Identifier(s, "axios"))
    ensures CalleeIsApi(PropertyAccess(s, Identifier(s, "axios"), m, opt))
    ensures !CalleeIsApi(PropertyAccess(s, Identifier(s, "window"), Name(s, "fetch"), opt))
    ensures !CalleeIsApi(PropertyAccess(s, CallExpression(s, PropertyAccess(s, Identifier(s, "axios"), Name(s, "create"), false), []), m, opt))
    ensures !CalleeIsApi(Parenthesized(s, Identifier(s, "fetch")))
  {
  }

  // ---------------------------------------------------------------------------
  // Unwrapping a variable's initializer

  /**
   * The function value an initializer stands for: itself when it is an arrow or a
   * function expression, looking through parentheses, and for a call the first
   * argument, in order, that yields one. The result is always part of the expression.
   */
  function GetFunctionFromExpression(expr: Node): (r: Option<Node>)
    ensures r.Some? ==> IsFunctionValue(r.value) && (r.value == expr || r.value < expr)
    ensures IsFunctionValue(expr) ==> r == Some(expr)
    decreases expr, 1
  {
    match expr
    case Parenthesized(_, inner) => GetFunctionFromExpression(inner)
    case ArrowFunction(_, _, _) => Some(expr)
    case FunctionExpression(_, _, _) => Some(expr)
    case CallExpression(_, _, args) => FirstFunctionArgument(expr, args)
    case _ => None
  }

  /**
   * How each kind of initializer unwraps: parentheses are looked through, a call defers
   * to its first argument that yields a function, and anything else yields nothing.
   */
  lemma GetFunctionFromExpressionCases(expr: Node)
    ensures expr.Parenthesized? ==> GetFunctionFromExpression(expr) == GetFunctionFromExpression(expr.inner)
    ensures expr.CallExpression? ==> GetFunctionFromExpression(expr) == FirstFunctionArgument(expr, expr.arguments)
    ensures !(expr.Parenthesized? || IsFunctionValue(expr) || expr.CallExpression?) ==> GetFunctionFromExpression(expr).None?
  {
  }

  /** A parenthesized arrow unwraps to the arrow; an identifier initializer is no function. */
  lemma GetFunctionFromExpressionExamples(s: Span, arrow: Node, callee: Node)
    requires arrow.ArrowFunction?
    ensures GetFunctionFromExpression(Parenthesized(s, Parenthesized(s, arrow))) == Some(arrow)
    ensures GetFunctionFromExpression(CallExpression(s, callee, [Identifier(s, "x"), arrow])) == Some(arrow)
    ensures GetFunctionFromExpression(Identifier(s, "handler")) == None
  {
    var call := CallExpression(s, callee, [Identifier(s, "x"), arrow]);
    assert call.arguments[1..] == [arrow];
    assert FirstFunctionArgument(call, [arrow]) == Some(arrow);
  }

  function FirstFunctionArgument(ghost call: Node, args: seq<Node>): (r: Option<Node>)
    requires Below(call, args)
    ensures r.Some? ==> IsFunctionValue(r.value) && r.value < call
    ensures r.None? <==> forall i :: 0 <= i < |args| ==> GetFunctionFromExpression(args[i]).None?
    ensures r.Some? ==> exists i :: 0 <= i < |args| && r == GetFunctionFromExpression(args[i])
                                   && forall j :: 0 <= j < i ==> GetFunctionFromExpression(args[j]).None?
    decreases call, 0, |args|
  {
    if args == [] then None
    else
      var first := GetFunctionFromExpression(args[0]);
      if first.Some? then first
      else
        var rest := FirstFunctionArgument(call, args[1..]);
        assert forall i :: 1 <= i < |args| ==> args[1..][i - 1] == args[i];
        rest
  }

  // ---------------------------------------------------------------------------
  // The scope of a function body

  /** Whether a search started at `root` goes below `n`: everywhere except into nested functions other than `root`. */
  predicate Descends(root: Node, n: Node)
  {
    !(IsNestedFunction(n) && n != root)
  }

  function ScopeDescend(root: Node): Node -> bool
  {
    n => Descends(root, n)
  }

  /** `m` belongs to the body `root` itself rather than to a function nested in it. */
  ghost predicate InScope(root: Node, m: Node)
  {
    Reaches(root, m, ScopeDescend(root))
  }

  predicate IsApiCall(n: Node)
  {
    n.CallExpression? && CalleeIsApi(n.callee)
  }

  /** The visitor of `findAPICalls`: skip nested functions, record each API call. */
  function ApiVisitor(root: Node): Node -> Visit<Location>
  {
    n => if !Descends(root, n) then Visit([], false)
         else Visit(if IsApiCall(n) then [NodeLocation(n.span)] else [], true)
  }

  /** The call sites `findAPICalls` reports for a body, in pre-order; none without a body. */
  function ApiCallSites(body: Option<Node>): (r: seq<Location>)
    ensures body.None? ==> r == []
  {
    if body.None? then [] else Walked(body.value, ApiVisitor(body.value))
  }

  /** Every reported call site is an API call in the body's own scope. */
  lemma ApiCallSitesSound(body: Node, loc: Location)
    requires loc in ApiCallSites(Some(body))
    ensures exists c :: InScope(body, c) && IsApiCall(c) && loc == NodeLocation(c.span)
  {
    WalkedSound(body, ApiVisitor(body), ScopeDescend(body), loc);
    var c :| Reaches(body, c, ScopeDescend(body)) && loc in ApiVisitor(body)(c).emit;
  }

  /** Every API call in the body's own scope is reported. */
  lemma ApiCallSitesComplete(body: Node, c: Node)
    requires InScope(body, c) && IsApiCall(c)
    ensures NodeLocation(c.span) in ApiCallSites(Some(body))
  {
    WalkedComplete(body, c, ApiVisitor(body), ScopeDescend(body), NodeLocation(c.span));
  }

  // ---------------------------------------------------------------------------
  // JSX search

  function JsxSearchDescend(root: Node): Node -> bool
  {
    n => Descends(root, n) && !IsJsxNode(n)
  }

  /** The visitor of `findFirstJSX`: skip nested functions, record a JSX node and do not enter it. */
  function JsxVisitor(root: Node): Node -> Visit<Node>
  {
    n => if !Descends(root, n) then Visit([], false)
         else if IsJsxNode(n) then Visit([n], false)
         else Visit([], true)
  }

  /** Every JSX match, in the order the walk meets them. */
  function JsxMatches(root: Node): seq<Node>
  {
    Walked(root, JsxVisitor(root))
  }

  lemma JsxMatchesSound(root: Node)
    ensures forall x :: x in JsxMatches(root) ==> IsJsxNode(x) && Reaches(root, x, JsxSearchDescend(root))
  {
    forall x | x in JsxMatches(root)
      ensures IsJsxNode(x) && Reaches(root, x, JsxSearchDescend(root))
    {
      WalkedSound(root, JsxVisitor(root), JsxSearchDescend(root), x);
    }
  }

  /**
   * What `findFirstJSX` returns: each match overwrites the previous one, so the result is
   * the LAST match of the walk, and none when there is no match.
   */
  function FoundJsx(root: Node): (r: Option<Node>)
    ensures r.None? <==> JsxMatches(root) == []
  {
    var matches := JsxMatches(root);
    if matches == [] then None else Some(matches[|matches| - 1])
  }

  /** What the search keeps is a JSX node reachable without entering JSX or nested functions. */
  lemma FoundJsxSound(root: Node)
    ensures FoundJsx(root).Some? ==> IsJsxNode(FoundJsx(root).value) && Reaches(root, FoundJsx(root).value, JsxSearchDescend(root))
  {
    JsxMatchesSound(root);
  }

  /** The search finds something exactly when a JSX node is reachable without entering JSX or nested functions. */
  lemma FoundJsxComplete(root: Node, m: Node)
    requires Reaches(root, m, JsxSearchDescend(root)) && IsJsxNode(m)
    ensures FoundJsx(root).Some?
  {
    WalkedComplete(root, m, JsxVisitor(root), JsxSearchDescend(root), m);
  }

  /**
   * The search may start at a function: an arrow searched from itself is entered, so
   * `() => <div/>` yields its JSX body.
   */
  lemma ArrowRootSearched(arrow: Node)
    requires arrow.ArrowFunction? && arrow.params == [] && IsJsxNode(arrow.body)
    ensures FoundJsx(arrow) == Some(arrow.body)
  {
    var v := JsxVisitor(arrow);
    assert v(arrow) == Visit([], true);
    assert v(arrow.body) == Visit([arrow.body], false);
    WalkedSmall(arrow, v);
  }

  /** The same arrow one level down, inside parentheses, is a nested function and is not entered. */
  lemma ParenthesizedArrowNotSearched(s: Span, arrow: Node)
    requires arrow.ArrowFunction?
    ensures FoundJsx(Parenthesized(s, arrow)) == None
  {
    var root := Parenthesized(s, arrow);
    var v := JsxVisitor(root);
    assert v(arrow) == Visit([], false);
    assert Walked(arrow, v) == [];
    WalkedSmall(root, v);
  }

  /** Later matches overwrite earlier ones: of two JSX operands, the second is kept. */
  lemma LastMatchWins(s: Span, c: Node, a: Node, b: Node)
    requires c.Identifier? && IsJsxNode(a) && IsJsxNode(b)
    ensures FoundJsx(Other(s, [c, a, b])) == Some(b)
  {
    var root := Other(s, [c, a, b]);
    var v := JsxVisitor(root);
    assert v(root) == Visit([], true) && v(c) == Visit([], true);
    assert v(a) == Visit([a], false) && v(b) == Visit([b], false);
    WalkedSmall(c, v);
    assert Walked(a, v) == [a] && Walked(b, v) == [b];
    var cs := Children(root);
    assert cs[1..] == [a, b] && cs[1..][1..] == [b] && cs[1..][1..][1..] == [];
    assert WalkedAll(root, [b], v) == [b];
    assert WalkedAll(root, [a, b], v) == [a, b];
    assert WalkedAll(root, cs, v) == [a, b];
  }

  // ---------------------------------------------------------------------------
  // JSX-returning sites

  /** The location a `return` statement contributes: the JSX found in its argument, if any. */
  function JsxReturnLocation(n: Node): Option<Location>
  {
    if n.Return? && n.argument.Some? then
      match FoundJsx(n.argument.value)
      case Some(j) => Some(NodeLocation(j.span))
      case None => None
    else None
  }

  /** The visitor of the block case of `findJSXReturns`. */
  function ReturnVisitor(root: Node): Node -> Visit<Location>
  {
    n => if !Descends(root, n) then Visit([], false)
         else Visit(OptionToSeq(JsxReturnLocation(n)), true)
  }

  /**
   * The sites `findJSXReturns` reports: for an expression body, the JSX found in it;
   * for a block body, one per in-scope `return` whose argument contains JSX.
   */
  function JsxReturnSites(body: Option<Node>): (r: seq<Location>)
    ensures body.None? ==> r == []
    ensures body.Some? && !body.value.Block? ==> |r| <= 1
  {
    if body.None? then []
    else if !body.value.Block? then
      match FoundJsx(body.value)
      case Some(j) => [NodeLocation(j.span)]
      case None => []
    else Walked(body.value, ReturnVisitor(body.value))
  }

  lemma JsxReturnSitesSound(block: Node, loc: Location)
    requires block.Block? && loc in JsxReturnSites(Some(block))
    ensures exists ret :: InScope(block, ret) && JsxReturnLocation(ret) == Some(loc)
  {
    WalkedSound(block, ReturnVisitor(block), ScopeDescend(block), loc);
    var ret :| Reaches(block, ret, ScopeDescend(block)) && loc in ReturnVisitor(block)(ret).emit;
    assert Descends(block, ret);
    assert loc in OptionToSeq(JsxReturnLocation(ret));
    assert InScope(block, ret);
  }

  lemma JsxReturnSitesComplete(block: Node, ret: Node)
    requires block.Block? && InScope(block, ret) && JsxReturnLocation(ret).Some?
    ensures JsxReturnLocation(ret).value in JsxReturnSites(Some(block))
  {
    assert !IsNestedFunction(ret);
    WalkedComplete(block, ret, ReturnVisitor(block), ScopeDescend(block), JsxReturnLocation(ret).value);
  }

  /** The in-scope `return` statements that have an argument, in pre-order. */
  function ReturnsWithArgument(root: Node): seq<Node>
  {
    Walked(root, n => if !Descends(root, n) then Visit([], false)
                      else Visit(if n.Return? && n.argument.Some? then [n] else [], true))
  }

  /** A block body yields at most one site per in-scope `return` with an argument. */
  lemma JsxReturnSitesBound(block: Node)
    requires block.Block?
    ensures |JsxReturnSites(Some(block))| <= |ReturnsWithArgument(block)|
  {
    WalkedLength(block,
      n => if !Descends(block, n) then Visit([], false)
           else Visit(if n.Return? && n.argument.Some? then [n] else [], true),
      ReturnVisitor(block));
  }

  /** `return () => <div/>` in a block body counts: the returned arrow is where the search starts. */
  lemma ReturnedArrowCounts(ret: Node)
    requires ret.Return? && ret.argument.Some? && ret.argument.value.ArrowFunction?
    requires ret.argument.value.params == [] && IsJsxNode(ret.argument.value.body)
    ensures JsxReturnLocation(ret) == Some(NodeLocation(ret.argument.value.body.span))
  {
    ArrowRootSearched(ret.argument.value);
  }

  /** A curried concise arrow, `() => () => <div/>`, counts: its body is an arrow searched from itself. */
  lemma CurriedConciseBodyCounts(body: Node)
    requires body.ArrowFunction? && body.params == [] && IsJsxNode(body.body)
    ensures JsxReturnSites(Some(body)) == [NodeLocation(body.body.span)]
  {
    ArrowRootSearched(body);
  }

  // ---------------------------------------------------------------------------
  // Descriptors

  /** The descriptor `buildFunctionInfo` makes for a declaration. */
  function Describe(name: Name, body: Option<Node>): FunctionInfo
  {
    FunctionInfo(name.text, ClassifyFunction(name.text), NodeLocation(name.span),
                 ApiCallSites(body), JsxReturnSites(body))
  }

  /**
   * The declaration a node introduces, as its name and body: a named function
   * declaration, or a variable with an identifier name whose initializer unwraps to a
   * function value.
   */
  function DeclaredFunction(n: Node): (r: Option<(Name, Option<Node>)>)
    ensures r.Some? <==>
              || (n.FunctionDeclaration? && n.declName.Some?)
              || (n.VariableDeclaration? && n.binding.BindingIdentifier? && n.initializer.Some?
                  && GetFunctionFromExpression(n.initializer.value).Some?)
    ensures n.FunctionDeclaration? && r.Some? ==> r.value == (n.declName.value, n.declBody)
    ensures n.VariableDeclaration? && r.Some? ==>
              r.value == (n.binding.id, Some(GetFunctionFromExpression(n.initializer.value).value.body))
  {
    if n.FunctionDeclaration? && n.declName.Some? then Some((n.declName.value, n.declBody))
    else if n.VariableDeclaration? && n.binding.BindingIdentifier? && n.initializer.Some? then
      match GetFunctionFromExpression(n.initializer.value)
      case Some(f) => Some((n.binding.id, Some(f.body)))
      case None => None
    else None
  }

  function DescriptorOf(n: Node): (r: Option<FunctionInfo>)
    ensures r.Some? <==> DeclaredFunction(n).Some?
    ensures r.Some? ==> r.value.kind == ClassifyFunction(r.value.name) && r.value.location.line >= 1
    ensures r.Some? ==> r.value.name == DeclaredFunction(n).value.0.text
    ensures r.Some? ==> r.value.location == NodeLocation(DeclaredFunction(n).value.0.span)
    ensures r.Some? ==> r.value.apiCalls == ApiCallSites(DeclaredFunction(n).value.1)
    ensures r.Some? ==> r.value.jsxReturns == JsxReturnSites(DeclaredFunction(n).value.1)
  {
    match DeclaredFunction(n)
    case Some((name, body)) => Some(Describe(name, body))
    case None => None
  }

  /** The visitor of `collectFunctions`: it never prunes and records each declaration's descriptor. */
  function CollectVisitor(): Node -> Visit<FunctionInfo>
  {
    n => Visit(CollectEmit(n), true)
  }

  function CollectEmit(n: Node): seq<FunctionInfo>
  {
    OptionToSeq(DescriptorOf(n))
  }

  function Everywhere(): Node -> bool
  {
    n => true
  }

  /** The descriptors `collectFunctions` emits for a tree, in pre-order, duplicates included. */
  function CollectedFunctions(root: Node): seq<FunctionInfo>
  {
    Walked(root, CollectVisitor())
  }

  /** Every emitted descriptor is that of a declaration in the tree. */
  lemma CollectedFunctionsSound(root: Node, fi: FunctionInfo)
    requires fi in CollectedFunctions(root)
    ensures exists d :: Reaches(root, d, Everywhere()) && DescriptorOf(d) == Some(fi)
  {
    WalkedSound(root, CollectVisitor(), Everywhere(), fi);
    var d :| Reaches(root, d, Everywhere()) && fi in CollectVisitor()(d).emit;
  }

  /** Every declaration anywhere in the tree, nested ones included, has its descriptor emitted. */
  lemma CollectedFunctionsComplete(root: Node, d: Node)
    requires Reaches(root, d, Everywhere()) && DeclaredFunction(d).Some?
    ensures DescriptorOf(d).value in CollectedFunctions(root)
  {
    WalkedComplete(root, d, CollectVisitor(), Everywhere(), DescriptorOf(d).value);
  }

  /** Descriptors are not deduplicated: a declaration met twice is described twice. */
  lemma NoDeduplication(s: Span, d: Node)
    ensures CollectedFunctions(Other(s, [d, d])) == CollectedFunctions(d) + CollectedFunctions(d)
  {
    var n := Other(s, [d, d]);
    assert CollectVisitor()(n) == Visit([], true);
    WalkedSmall(n, CollectVisitor());
  }

  // ---------------------------------------------------------------------------
  // The imperative searches

  /** `findAPICalls`. */
  method FindApiCalls(body: Option<Node>) returns (calls: seq<Location>)
    ensures calls == ApiCallSites(body)
    ensures body.None? ==> calls == []
  {
    if body.None? {
      return [];
    }
    calls := Walk(body.value, ApiVisitor(body.value));
  }

  /** `findFirstJSX`: `found` is overwritten at every match, so it ends as the last match. */
  method FindFirstJsx(node: Node) returns (found: Option<Node>)
    ensures found == FoundJsx(node)
    ensures found.Some? ==> IsJsxNode(found.value)
  {
    var matches := Walk(node, JsxVisitor(node));
    found := None;
    for i := 0 to |matches|
      invariant found == if i == 0 then None else Some(matches[i - 1])
    {
      found := Some(matches[i]);
    }
    FoundJsxSound(node);
  }

  /** `findJSXReturns`. */
  method FindJsxReturns(body: Option<Node>) returns (locations: seq<Location>)
    ensures locations == JsxReturnSites(body)
    ensures body.Some? && !body.value.Block? ==> |locations| <= 1
  {
    if body.None? {
      return [];
    }
    if !body.value.Block? {
      var jsxNode := FindFirstJsx(body.value);
      locations := if jsxNode.Some? then [NodeLocation(jsxNode.value.span)] else [];
      return;
    }
    locations := Walk(body.value, ReturnVisitor(body.value));
  }

  /** `buildFunctionInfo`. */
  method BuildFunctionInfo(name: Name, body: Option<Node>) returns (info: FunctionInfo)
    ensures info == Describe(name, body)
    ensures info.kind == ClassifyFunction(name.text) && info.location == NodeLocation(name.span)
  {
    var kind := ClassifyFunction(name.text);
    var location := NodeLocation(name.span);
    var apiCalls := FindApiCalls(body);
    var jsxReturns := FindJsxReturns(body);
    info := FunctionInfo(name.text, kind, location, apiCalls, jsxReturns);
  }

  lemma CollectedFunctionsUnfold(node: Node)
    ensures CollectedFunctions(node) == OptionToSeq(DescriptorOf(node)) + WalkedAll(node, Children(node), CollectVisitor())
  {
  }

  /** The descriptor, if any, that `collectFunctions` pushes for the node itself. */
  method DescribeNode(node: Node) returns (own: seq<FunctionInfo>)
    ensures own == OptionToSeq(DescriptorOf(node))
  {
    own := [];
    if node.FunctionDeclaration? && node.declName.Some? {
      var info := BuildFunctionInfo(node.declName.value, node.declBody);
      own := own + [info];
    }
    if node.VariableDeclaration? && node.binding.BindingIdentifier? && node.initializer.Some? {
      var functionNode := GetFunctionFromExpression(node.initializer.value);
      if functionNode.Some? {
        var info := BuildFunctionInfo(node.binding.id, Some(functionNode.value.body));
        own := own + [info];
      }
    }
  }

  /** `collectFunctions`: appends to `out` the descriptor of `node`, then those of its descendants in pre-order. */
  method CollectFunctions(node: Node, out: seq<FunctionInfo>) returns (result: seq<FunctionInfo>)
    ensures result == out + CollectedFunctions(node)
    decreases node
  {
    var own := DescribeNode(node);
    result := out + own;
    var cs := Children(node);
    for i := 0 to |cs|
      invariant Below(node, cs[..i])
      invariant result == out + own + WalkedAll(node, cs[..i], CollectVisitor())
    {
      result := CollectFunctions(cs[i], result);
      WalkedAllPrefix(node, cs, i, CollectVisitor());
      AppendAssoc(out + own, WalkedAll(node, cs[..i], CollectVisitor()), Walked(cs[i], CollectVisitor()));
    }
    WalkedAllWhole(node, cs, CollectVisitor());
    CollectedFunctionsUnfold(node);
    AppendAssoc(out, own, WalkedAll(node, cs, CollectVisitor()));
  }

  /** `parseFile` once the tree is built: the descriptors of the whole tree. */
  method ParseTree(root: Node) returns (functions: seq<FunctionInfo>)
    ensures functions == CollectedFunctions(root)
  {
    functions := CollectFunctions(root, []);
  }
}
