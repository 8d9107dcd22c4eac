/**
 * Worked examples: small source files written out as the trees the parser builds for
 * them (punctuation tokens left out), and the violations reported for each. Each tree
 * is built bottom-up from named parts, and each walk is stated one part at a time.
 */
module Examples {
  import opened Wrappers
  import opened Model
  import opened Syntax
  import Parser
  import Engine
  import opened Pipeline

  /** A span that starts and ends at one 0-based line and character. */
  function At(line: nat, character: nat): Span
  {
    Span(Position(line, character), Position(line, character))
  }

  /** A JSX node searched from itself is its own only match. */
  lemma JsxRootMatch(j: Node)
    requires Parser.IsJsxNode(j)
    ensures Parser.JsxMatches(j) == [j] && Parser.FoundJsx(j) == Some(j)
  {
    assert Parser.JsxVisitor(j)(j) == Visit([j], false);
  }

  /** A file with one descriptor reports that descriptor's violations. */
  lemma ReportOfOne(root: Node, fi: FunctionInfo)
    requires Parser.CollectedFunctions(root) == [fi]
    ensures ReportOf(root) == Engine.RuleOutputs(fi)
  {
    assert [fi][..0] == [];
    var r := Engine.RuleOutputs(fi);
    assert Engine.RuleResults([fi]) == r;
    if r != [] {
      assert r == [r[0]] && r[1..] == [];
    }
  }

  /** A node that records nothing and has one child walks as that child. */
  lemma PassOne<T>(n: Node, c: Node, v: Node -> Visit<T>)
    requires Children(n) == [c] && v(n) == Visit([], true)
    ensures Walked(n, v) == Walked(c, v)
  {
    WalkedSmall(n, v);
  }

  /** Three nested nodes that record nothing walk as the innermost one's only child. */
  lemma PassThree<T>(a: Node, b: Node, c: Node, d: Node, v: Node -> Visit<T>)
    requires Children(a) == [b] && Children(b) == [c] && Children(c) == [d]
    requires v(a) == Visit([], true) && v(b) == Visit([], true) && v(c) == Visit([], true)
    ensures Walked(a, v) == Walked(d, v)
  {
    PassOne(c, d, v);
    PassOne(b, c, v);
    PassOne(a, b, v);
  }

  /** A declaration's record is its descriptor, built from its name, its role and the sites of its body. */
  lemma Emits(n: Node, name: Name, body: Node, kind: Kind, api: seq<Location>, jsx: seq<Location>)
    requires Parser.DeclaredFunction(n) == Some((name, Some(body)))
    requires Parser.ClassifyFunction(name.text) == kind
    requires Parser.ApiCallSites(Some(body)) == api && Parser.JsxReturnSites(Some(body)) == jsx
    ensures Parser.CollectEmit(n) == [FunctionInfo(name.text, kind, Parser.NodeLocation(name.span), api, jsx)]
  {
  }

  /** A node that records nothing and has two children walks as the first, then the second. */
  lemma PassTwo<T>(n: Node, c: Node, d: Node, v: Node -> Visit<T>)
    requires Children(n) == [c, d] && v(n) == Visit([], true)
    ensures Walked(n, v) == Walked(c, v) + Walked(d, v)
  {
    WalkedSmall(n, v);
  }

  /** A node that records something and has one child walks as its record, then the child. */
  lemma EmitOne<T>(n: Node, c: Node, v: Node -> Visit<T>)
    requires Children(n) == [c] && v(n).descend
    ensures Walked(n, v) == v(n).emit + Walked(c, v)
  {
    WalkedSmall(n, v);
  }

  /** A node that records something and has two children walks as its record, then the children. */
  lemma EmitTwo<T>(n: Node, c: Node, d: Node, v: Node -> Visit<T>)
    requires Children(n) == [c, d] && v(n).descend
    ensures Walked(n, v) == v(n).emit + Walked(c, v) + Walked(d, v)
  {
    WalkedSmall(n, v);
  }

  /** A leaf walks as its own record. */
  lemma Leaf<T>(n: Node, v: Node -> Visit<T>)
    requires Children(n) == []
    ensures Walked(n, v) == v(n).emit
  {
    WalkedSmall(n, v);
  }

  /** A node the walk does not enter walks as its own record. */
  lemma Stop<T>(n: Node, v: Node -> Visit<T>)
    requires !v(n).descend
    ensures Walked(n, v) == v(n).emit
  {
  }

  /** Nodes that declare nothing pass the collection visitor through. */
  lemma CollectSkips(n: Node)
    requires !n.FunctionDeclaration? && !n.VariableDeclaration?
    ensures Parser.CollectVisitor()(n) == Visit([], true)
  {
  }

  lemma CollectVisits(n: Node)
    ensures Parser.CollectVisitor()(n) == Visit(Parser.CollectEmit(n), true)
  {
  }

  /** In-scope nodes that are not calls pass the API search through. */
  lemma ApiSkips(root: Node, n: Node)
    requires !Parser.IsNestedFunction(n) && !n.CallExpression?
    ensures Parser.ApiVisitor(root)(n) == Visit([], true)
  {
  }

  /** In-scope nodes that are not `return` statements pass the return search through. */
  lemma ReturnSkips(root: Node, n: Node)
    requires !Parser.IsNestedFunction(n) && !n.Return?
    ensures Parser.ReturnVisitor(root)(n) == Visit([], true)
  {
  }

  /** In-scope nodes that are not JSX pass the JSX search through. */
  lemma JsxSkips(root: Node, n: Node)
    requires !Parser.IsNestedFunction(n) && !Parser.IsJsxNode(n)
    ensures Parser.JsxVisitor(root)(n) == Visit([], true)
  {
  }

  // ---------------------------------------------------------------------------
  // An empty file

  /** A file with no descriptors reports nothing. */
  lemma ReportOfNone(root: Node)
    requires Parser.CollectedFunctions(root) == []
    ensures ReportOf(root) == []
  {
    assert Engine.RuleResults([]) == [];
  }

  lemma EmptyFileCollects(s: Span)
    ensures Parser.CollectedFunctions(Other(s, [])) == []
  {
    var v := Parser.CollectVisitor();
    CollectSkips(Other(s, []));
    WalkedSmall(Other(s, []), v);
  }

  /** An empty file is a clean result, not an error. */
  lemma EmptyFileExample(s: Span)
    ensures ReportOf(Other(s, [])) == []
  {
    EmptyFileCollects(s);
    ReportOfNone(Other(s, []));
  }

  // ---------------------------------------------------------------------------
  // `function Widget() { fetch('/x'); return <div/>; }`

  function WidgetCall(l: nat): Node
  {
    CallExpression(At(l, 20), Identifier(At(l, 20), "fetch"), [Other(At(l, 26), [])])
  }

  function WidgetStatement(l: nat): Node
  {
    Other(At(l, 20), [WidgetCall(l)])
  }

  function WidgetJsx(l: nat): Node
  {
    JsxSelfClosingElement(At(l, 40), [])
  }

  function WidgetReturn(l: nat): Node
  {
    Return(At(l, 33), Some(WidgetJsx(l)))
  }

  function WidgetBody(l: nat): Node
  {
    Block(At(l, 18), [WidgetStatement(l), WidgetReturn(l)])
  }

  function WidgetDeclaration(l: nat): Node
  {
    FunctionDeclaration(At(l, 0), Some(Name(At(l, 9), "Widget")), [], Some(WidgetBody(l)))
  }

  function WidgetFile(l: nat): Node
  {
    Other(At(l, 0), [WidgetDeclaration(l)])
  }

  lemma WidgetCallApi(l: nat)
    ensures Walked(WidgetStatement(l), Parser.ApiVisitor(WidgetBody(l))) == [Location(l + 1, 20)]
  {
    var v := Parser.ApiVisitor(WidgetBody(l));
    ApiSkips(WidgetBody(l), Identifier(At(l, 20), "fetch"));
    Leaf(Identifier(At(l, 20), "fetch"), v);
    ApiSkips(WidgetBody(l), Other(At(l, 26), []));
    Leaf(Other(At(l, 26), []), v);
    assert v(WidgetCall(l)) == Visit([Location(l + 1, 20)], true);
    EmitTwo(WidgetCall(l), Identifier(At(l, 20), "fetch"), Other(At(l, 26), []), v);
    ApiSkips(WidgetBody(l), WidgetStatement(l));
    PassOne(WidgetStatement(l), WidgetCall(l), v);
  }

  lemma WidgetReturnApi(l: nat)
    ensures Walked(WidgetReturn(l), Parser.ApiVisitor(WidgetBody(l))) == []
  {
    var v := Parser.ApiVisitor(WidgetBody(l));
    ApiSkips(WidgetBody(l), WidgetJsx(l));
    Leaf(WidgetJsx(l), v);
    ApiSkips(WidgetBody(l), WidgetReturn(l));
    PassOne(WidgetReturn(l), WidgetJsx(l), v);
  }

  lemma WidgetApiCalls(l: nat)
    ensures Parser.ApiCallSites(Some(WidgetBody(l))) == [Location(l + 1, 20)]
  {
    var v := Parser.ApiVisitor(WidgetBody(l));
    WidgetCallApi(l);
    WidgetReturnApi(l);
    ApiSkips(WidgetBody(l), WidgetBody(l));
    PassTwo(WidgetBody(l), WidgetStatement(l), WidgetReturn(l), v);
  }

  lemma WidgetCallReturns(l: nat)
    ensures Walked(WidgetStatement(l), Parser.ReturnVisitor(WidgetBody(l))) == []
  {
    var v := Parser.ReturnVisitor(WidgetBody(l));
    ReturnSkips(WidgetBody(l), Identifier(At(l, 20), "fetch"));
    Leaf(Identifier(At(l, 20), "fetch"), v);
    ReturnSkips(WidgetBody(l), Other(At(l, 26), []));
    Leaf(Other(At(l, 26), []), v);
    ReturnSkips(WidgetBody(l), WidgetCall(l));
    PassTwo(WidgetCall(l), Identifier(At(l, 20), "fetch"), Other(At(l, 26), []), v);
    ReturnSkips(WidgetBody(l), WidgetStatement(l));
    PassOne(WidgetStatement(l), WidgetCall(l), v);
  }

  lemma WidgetReturnReturns(l: nat)
    ensures Walked(WidgetReturn(l), Parser.ReturnVisitor(WidgetBody(l))) == [Location(l + 1, 40)]
  {
    var v := Parser.ReturnVisitor(WidgetBody(l));
    JsxRootMatch(WidgetJsx(l));
    ReturnSkips(WidgetBody(l), WidgetJsx(l));
    Leaf(WidgetJsx(l), v);
    assert v(WidgetReturn(l)) == Visit([Location(l + 1, 40)], true);
    EmitOne(WidgetReturn(l), WidgetJsx(l), v);
  }

  lemma WidgetJsxReturns(l: nat)
    ensures Parser.JsxReturnSites(Some(WidgetBody(l))) == [Location(l + 1, 40)]
  {
    var v := Parser.ReturnVisitor(WidgetBody(l));
    WidgetCallReturns(l);
    WidgetReturnReturns(l);
    ReturnSkips(WidgetBody(l), WidgetBody(l));
    PassTwo(WidgetBody(l), WidgetStatement(l), WidgetReturn(l), v);
  }

  lemma WidgetCallCollect(l: nat)
    ensures Walked(WidgetStatement(l), Parser.CollectVisitor()) == []
  {
    var v := Parser.CollectVisitor();
    CollectSkips(Identifier(At(l, 20), "fetch"));
    Leaf(Identifier(At(l, 20), "fetch"), v);
    CollectSkips(Other(At(l, 26), []));
    Leaf(Other(At(l, 26), []), v);
    CollectSkips(WidgetCall(l));
    PassTwo(WidgetCall(l), Identifier(At(l, 20), "fetch"), Other(At(l, 26), []), v);
    CollectSkips(WidgetStatement(l));
    PassOne(WidgetStatement(l), WidgetCall(l), v);
  }

  lemma WidgetReturnCollect(l: nat)
    ensures Walked(WidgetReturn(l), Parser.CollectVisitor()) == []
  {
    var v := Parser.CollectVisitor();
    CollectSkips(WidgetJsx(l));
    Leaf(WidgetJsx(l), v);
    CollectSkips(WidgetReturn(l));
    PassOne(WidgetReturn(l), WidgetJsx(l), v);
  }

  /** Nothing inside `Widget` declares a function. */
  lemma WidgetBodyCollect(l: nat)
    ensures Walked(WidgetBody(l), Parser.CollectVisitor()) == []
  {
    var v := Parser.CollectVisitor();
    WidgetCallCollect(l);
    WidgetReturnCollect(l);
    CollectSkips(WidgetBody(l));
    PassTwo(WidgetBody(l), WidgetStatement(l), WidgetReturn(l), v);
  }

  lemma WidgetDeclared(l: nat)
    ensures Parser.DeclaredFunction(WidgetDeclaration(l)) == Some((Name(At(l, 9), "Widget"), Some(WidgetBody(l))))
    ensures Parser.ClassifyFunction("Widget") == ReactComponent
  {
  }

  lemma WidgetDescribed(l: nat)
    ensures Parser.CollectEmit(WidgetDeclaration(l))
         == [FunctionInfo("Widget", ReactComponent, Location(l + 1, 9), [Location(l + 1, 20)], [Location(l + 1, 40)])]
  {
    WidgetApiCalls(l);
    WidgetJsxReturns(l);
    WidgetDeclared(l);
    Emits(WidgetDeclaration(l), Name(At(l, 9), "Widget"), WidgetBody(l), ReactComponent, [Location(l + 1, 20)], [Location(l + 1, 40)]);
  }

  lemma WidgetCollect(l: nat)
    ensures Walked(WidgetDeclaration(l), Parser.CollectVisitor()) == Parser.CollectEmit(WidgetDeclaration(l))
  {
    var v := Parser.CollectVisitor();
    WidgetBodyCollect(l);
    CollectVisits(WidgetDeclaration(l));
    EmitOne(WidgetDeclaration(l), WidgetBody(l), v);
  }

  /** The file's only descriptor is the one `Widget`'s declaration emits. */
  lemma WidgetFileCollect(l: nat)
    ensures Parser.CollectedFunctions(WidgetFile(l)) == Parser.CollectEmit(WidgetDeclaration(l))
  {
    WidgetCollect(l);
    CollectSkips(WidgetFile(l));
    PassOne(WidgetFile(l), WidgetDeclaration(l), Parser.CollectVisitor());
  }

  lemma WidgetDescriptors(l: nat)
    ensures Parser.CollectedFunctions(WidgetFile(l))
         == [FunctionInfo("Widget", ReactComponent, Location(l + 1, 9), [Location(l + 1, 20)], [Location(l + 1, 40)])]
  {
    WidgetFileCollect(l);
    WidgetDescribed(l);
  }

  /** A component calling `fetch` gets one violation, at the call; that it also returns JSX does not matter. */
  lemma WidgetExample(l: nat)
    ensures ReportOf(WidgetFile(l)) == [Violation("no-api-in-react-component", "React component should not call API directly",
                                                 Error, FunctionRef("Widget", ReactComponent), Location(l + 1, 20))]
  {
    WidgetDescriptors(l);
    ReportOfOne(WidgetFile(l), FunctionInfo("Widget", ReactComponent, Location(l + 1, 9), [Location(l + 1, 20)], [Location(l + 1, 40)]));
  }

  // ---------------------------------------------------------------------------
  // `const useData = () => { return <span/>; }`

  function UseDataJsx(l: nat): Node
  {
    JsxSelfClosingElement(At(l, 31), [])
  }

  function UseDataReturn(l: nat): Node
  {
    Return(At(l, 24), Some(UseDataJsx(l)))
  }

  function UseDataBody(l: nat): Node
  {
    Block(At(l, 22), [UseDataReturn(l)])
  }

  function UseDataArrow(l: nat): Node
  {
    ArrowFunction(At(l, 16), [], UseDataBody(l))
  }

  function UseDataDeclaration(l: nat): Node
  {
    VariableDeclaration(At(l, 6), BindingIdentifier(Name(At(l, 6), "useData")), Some(UseDataArrow(l)))
  }

  /** The declaration list around the declaration. */
  function UseDataList(l: nat): Node
  {
    Other(At(l, 0), [UseDataDeclaration(l)])
  }

  /** The statement around the declaration list. */
  function UseDataStatement(l: nat): Node
  {
    Other(At(l, 0), [UseDataList(l)])
  }

  function UseDataFile(l: nat): Node
  {
    Other(At(l, 0), [UseDataStatement(l)])
  }

  lemma UseDataApiCalls(l: nat)
    ensures Parser.ApiCallSites(Some(UseDataBody(l))) == []
  {
    var v := Parser.ApiVisitor(UseDataBody(l));
    ApiSkips(UseDataBody(l), UseDataJsx(l));
    Leaf(UseDataJsx(l), v);
    ApiSkips(UseDataBody(l), UseDataReturn(l));
    PassOne(UseDataReturn(l), UseDataJsx(l), v);
    ApiSkips(UseDataBody(l), UseDataBody(l));
    PassOne(UseDataBody(l), UseDataReturn(l), v);
  }

  lemma UseDataJsxReturns(l: nat)
    ensures Parser.JsxReturnSites(Some(UseDataBody(l))) == [Location(l + 1, 31)]
  {
    var v := Parser.ReturnVisitor(UseDataBody(l));
    JsxRootMatch(UseDataJsx(l));
    ReturnSkips(UseDataBody(l), UseDataJsx(l));
    Leaf(UseDataJsx(l), v);
    assert v(UseDataReturn(l)) == Visit([Location(l + 1, 31)], true);
    EmitOne(UseDataReturn(l), UseDataJsx(l), v);
    ReturnSkips(UseDataBody(l), UseDataBody(l));
    PassOne(UseDataBody(l), UseDataReturn(l), v);
  }

  lemma UseDataArrowCollect(l: nat)
    ensures Walked(UseDataArrow(l), Parser.CollectVisitor()) == []
  {
    var v := Parser.CollectVisitor();
    CollectSkips(UseDataJsx(l));
    Leaf(UseDataJsx(l), v);
    CollectSkips(UseDataReturn(l));
    PassOne(UseDataReturn(l), UseDataJsx(l), v);
    CollectSkips(UseDataBody(l));
    PassOne(UseDataBody(l), UseDataReturn(l), v);
    CollectSkips(UseDataArrow(l));
    PassOne(UseDataArrow(l), UseDataBody(l), v);
  }

  lemma UseDataDeclared(l: nat)
    ensures Parser.DeclaredFunction(UseDataDeclaration(l)) == Some((Name(At(l, 6), "useData"), Some(UseDataBody(l))))
    ensures Parser.ClassifyFunction("useData") == ReactHook
  {
    assert "useData"[..3] == "use";
  }

  lemma UseDataDescribed(l: nat)
    ensures Parser.CollectEmit(UseDataDeclaration(l))
         == [FunctionInfo("useData", ReactHook, Location(l + 1, 6), [], [Location(l + 1, 31)])]
  {
    UseDataApiCalls(l);
    UseDataJsxReturns(l);
    UseDataDeclared(l);
    Emits(UseDataDeclaration(l), Name(At(l, 6), "useData"), UseDataBody(l), ReactHook, [], [Location(l + 1, 31)]);
  }

  lemma UseDataCollect(l: nat)
    ensures Walked(UseDataDeclaration(l), Parser.CollectVisitor()) == Parser.CollectEmit(UseDataDeclaration(l))
  {
    var v := Parser.CollectVisitor();
    UseDataArrowCollect(l);
    CollectVisits(UseDataDeclaration(l));
    EmitOne(UseDataDeclaration(l), UseDataArrow(l), v);
  }

  lemma UseDataWrappers(l: nat)
    ensures Parser.CollectedFunctions(UseDataFile(l)) == Walked(UseDataDeclaration(l), Parser.CollectVisitor())
  {
    var v := Parser.CollectVisitor();
    CollectSkips(UseDataList(l));
    CollectSkips(UseDataStatement(l));
    CollectSkips(UseDataFile(l));
    PassThree(UseDataFile(l), UseDataStatement(l), UseDataList(l), UseDataDeclaration(l), v);
  }

  /** The file's only descriptor is the one the declaration of `useData` emits. */
  lemma UseDataFileCollect(l: nat)
    ensures Parser.CollectedFunctions(UseDataFile(l)) == Parser.CollectEmit(UseDataDeclaration(l))
  {
    UseDataWrappers(l);
    UseDataCollect(l);
  }

  lemma UseDataDescriptors(l: nat)
    ensures Parser.CollectedFunctions(UseDataFile(l))
         == [FunctionInfo("useData", ReactHook, Location(l + 1, 6), [], [Location(l + 1, 31)])]
  {
    UseDataFileCollect(l);
    UseDataDescribed(l);
  }

  /** A hook whose arrow body returns JSX gets one violation, at the JSX. */
  lemma UseDataExample(l: nat)
    ensures ReportOf(UseDataFile(l)) == [Violation("no-jsx-in-hooks", "Hooks must not return JSX",
                                                  Error, FunctionRef("useData", ReactHook), Location(l + 1, 31))]
  {
    UseDataDescriptors(l);
    ReportOfOne(UseDataFile(l), FunctionInfo("useData", ReactHook, Location(l + 1, 6), [], [Location(l + 1, 31)]));
  }

  // ---------------------------------------------------------------------------
  // `function App() { const load = () => fetch('/x'); }`

  function AppCall(l: nat): Node
  {
    CallExpression(At(l, 36), Identifier(At(l, 36), "fetch"), [Other(At(l, 42), [])])
  }

  function AppArrow(l: nat): Node
  {
    ArrowFunction(At(l, 30), [], AppCall(l))
  }

  function AppDeclaration(l: nat): Node
  {
    VariableDeclaration(At(l, 23), BindingIdentifier(Name(At(l, 23), "load")), Some(AppArrow(l)))
  }

  /** The declaration list around the declaration of `load`. */
  function AppList(l: nat): Node
  {
    Other(At(l, 17), [AppDeclaration(l)])
  }

  /** The statement around the declaration list. */
  function AppStatement(l: nat): Node
  {
    Other(At(l, 17), [AppList(l)])
  }

  function AppBody(l: nat): Node
  {
    Block(At(l, 15), [AppStatement(l)])
  }

  function AppFunction(l: nat): Node
  {
    FunctionDeclaration(At(l, 0), Some(Name(At(l, 9), "App")), [], Some(AppBody(l)))
  }

  function AppFile(l: nat): Node
  {
    Other(At(l, 0), [AppFunction(l)])
  }

  /** Walks from `App`'s body that stop at the nested arrow record nothing. */
  lemma AppBodyScoped<T>(l: nat, v: Node -> Visit<T>)
    requires v(AppArrow(l)) == Visit([], false)
    requires v(AppDeclaration(l)) == Visit([], true) && v(AppList(l)) == Visit([], true)
    requires v(AppStatement(l)) == Visit([], true) && v(AppBody(l)) == Visit([], true)
    ensures Walked(AppBody(l), v) == []
  {
    Stop(AppArrow(l), v);
    PassOne(AppDeclaration(l), AppArrow(l), v);
    PassOne(AppList(l), AppDeclaration(l), v);
    PassOne(AppStatement(l), AppList(l), v);
    PassOne(AppBody(l), AppStatement(l), v);
  }

  lemma AppOwnApiSites(l: nat)
    ensures Parser.ApiCallSites(Some(AppBody(l))) == []
  {
    var a := Parser.ApiVisitor(AppBody(l));
    assert a(AppArrow(l)) == Visit([], false);
    ApiSkips(AppBody(l), AppDeclaration(l));
    ApiSkips(AppBody(l), AppList(l));
    ApiSkips(AppBody(l), AppStatement(l));
    ApiSkips(AppBody(l), AppBody(l));
    AppBodyScoped(l, a);
  }

  lemma AppOwnReturnSites(l: nat)
    ensures Parser.JsxReturnSites(Some(AppBody(l))) == []
  {
    var r := Parser.ReturnVisitor(AppBody(l));
    assert r(AppArrow(l)) == Visit([], false);
    ReturnSkips(AppBody(l), AppDeclaration(l));
    ReturnSkips(AppBody(l), AppList(l));
    ReturnSkips(AppBody(l), AppStatement(l));
    ReturnSkips(AppBody(l), AppBody(l));
    AppBodyScoped(l, r);
  }

  lemma LoadApiSites(l: nat)
    ensures Parser.ApiCallSites(Some(AppCall(l))) == [Location(l + 1, 36)]
  {
    var v := Parser.ApiVisitor(AppCall(l));
    ApiSkips(AppCall(l), Identifier(At(l, 36), "fetch"));
    Leaf(Identifier(At(l, 36), "fetch"), v);
    ApiSkips(AppCall(l), Other(At(l, 42), []));
    Leaf(Other(At(l, 42), []), v);
    assert v(AppCall(l)) == Visit([Location(l + 1, 36)], true);
    EmitTwo(AppCall(l), Identifier(At(l, 36), "fetch"), Other(At(l, 42), []), v);
  }

  lemma LoadReturnSites(l: nat)
    ensures Parser.JsxReturnSites(Some(AppCall(l))) == []
  {
    var j := Parser.JsxVisitor(AppCall(l));
    JsxSkips(AppCall(l), Identifier(At(l, 36), "fetch"));
    Leaf(Identifier(At(l, 36), "fetch"), j);
    JsxSkips(AppCall(l), Other(At(l, 42), []));
    Leaf(Other(At(l, 42), []), j);
    JsxSkips(AppCall(l), AppCall(l));
    PassTwo(AppCall(l), Identifier(At(l, 36), "fetch"), Other(At(l, 42), []), j);
  }

  lemma LoadDeclared(l: nat)
    ensures Parser.DeclaredFunction(AppDeclaration(l)) == Some((Name(At(l, 23), "load"), Some(AppCall(l))))
    ensures Parser.ClassifyFunction("load") == Utility
  {
  }

  lemma LoadDescribed(l: nat)
    ensures Parser.CollectEmit(AppDeclaration(l))
         == [FunctionInfo("load", Utility, Location(l + 1, 23), [Location(l + 1, 36)], [])]
  {
    LoadApiSites(l);
    LoadReturnSites(l);
    LoadDeclared(l);
    Emits(AppDeclaration(l), Name(At(l, 23), "load"), AppCall(l), Utility, [Location(l + 1, 36)], []);
  }

  lemma AppDeclared(l: nat)
    ensures Parser.DeclaredFunction(AppFunction(l)) == Some((Name(At(l, 9), "App"), Some(AppBody(l))))
    ensures Parser.ClassifyFunction("App") == ReactComponent
  {
  }

  lemma AppDescribed(l: nat)
    ensures Parser.CollectEmit(AppFunction(l)) == [FunctionInfo("App", ReactComponent, Location(l + 1, 9), [], [])]
  {
    AppOwnApiSites(l);
    AppOwnReturnSites(l);
    AppDeclared(l);
    Emits(AppFunction(l), Name(At(l, 9), "App"), AppBody(l), ReactComponent, [], []);
  }

  lemma LoadArrowCollect(l: nat)
    ensures Walked(AppArrow(l), Parser.CollectVisitor()) == []
  {
    var v := Parser.CollectVisitor();
    CollectSkips(Identifier(At(l, 36), "fetch"));
    Leaf(Identifier(At(l, 36), "fetch"), v);
    CollectSkips(Other(At(l, 42), []));
    Leaf(Other(At(l, 42), []), v);
    CollectSkips(AppCall(l));
    PassTwo(AppCall(l), Identifier(At(l, 36), "fetch"), Other(At(l, 42), []), v);
    CollectSkips(AppArrow(l));
    PassOne(AppArrow(l), AppCall(l), v);
  }

  lemma LoadCollect(l: nat)
    ensures Walked(AppDeclaration(l), Parser.CollectVisitor()) == Parser.CollectEmit(AppDeclaration(l))
  {
    var v := Parser.CollectVisitor();
    LoadArrowCollect(l);
    CollectVisits(AppDeclaration(l));
    EmitOne(AppDeclaration(l), AppArrow(l), v);
  }

  /** Inside `App`'s body, only the declaration of `load` emits a descriptor. */
  lemma AppBodyCollect(l: nat)
    ensures Walked(AppBody(l), Parser.CollectVisitor()) == Walked(AppDeclaration(l), Parser.CollectVisitor())
  {
    var v := Parser.CollectVisitor();
    CollectSkips(AppList(l));
    CollectSkips(AppStatement(l));
    CollectSkips(AppBody(l));
    PassThree(AppBody(l), AppStatement(l), AppList(l), AppDeclaration(l), v);
  }

  lemma AppCollect(l: nat)
    ensures Walked(AppFunction(l), Parser.CollectVisitor())
         == Parser.CollectEmit(AppFunction(l)) + Walked(AppBody(l), Parser.CollectVisitor())
  {
    CollectVisits(AppFunction(l));
    EmitOne(AppFunction(l), AppBody(l), Parser.CollectVisitor());
  }

  lemma AppFileWrapper(l: nat)
    ensures Parser.CollectedFunctions(AppFile(l)) == Walked(AppFunction(l), Parser.CollectVisitor())
  {
    CollectSkips(AppFile(l));
    PassOne(AppFile(l), AppFunction(l), Parser.CollectVisitor());
  }

  /** The outer function is described before the function nested in it. */
  lemma AppFileCollect(l: nat)
    ensures Parser.CollectedFunctions(AppFile(l)) == Parser.CollectEmit(AppFunction(l)) + Parser.CollectEmit(AppDeclaration(l))
  {
    AppFileWrapper(l);
    AppCollect(l);
    AppBodyCollect(l);
    LoadCollect(l);
  }

  lemma AppDescriptors(l: nat)
    ensures Parser.CollectedFunctions(AppFile(l))
         == [FunctionInfo("App", ReactComponent, Location(l + 1, 9), [], []),
             FunctionInfo("load", Utility, Location(l + 1, 23), [Location(l + 1, 36)], [])]
  {
    AppFileCollect(l);
    AppDescribed(l);
    LoadDescribed(l);
  }

  /**
   * A call inside a function nested in a component is not the component's own: both
   * functions are described, the call is charged to the nested utility, and nothing is
   * reported.
   */
  lemma NestedCallExample(l: nat)
    ensures ReportOf(AppFile(l)) == []
  {
    AppDescriptors(l);
    var fns := Parser.CollectedFunctions(AppFile(l));
    assert Engine.RuleOutputs(fns[0]) == [] && Engine.RuleOutputs(fns[1]) == [];
    assert fns[..1] == [fns[0]] && [fns[0]][..0] == [];
    assert Engine.RuleResults(fns[..1]) == [];
  }
}
