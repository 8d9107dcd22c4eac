/**
 * The part of a TypeScript syntax tree that the analyzer inspects, and the pre-order
 * walk with pruning that every search over it uses.
 *
 * Each node carries the span the parser computed for it (0-based line and character
 * of its first token and of its end), so no offset-to-line conversion is modelled.
 * Node kinds the analyzer never tests are `Other`, keeping their children in order.
 */
module Syntax {
  import opened Wrappers

  /** A 0-based line and character, as the TypeScript parser reports a position. */
  datatype Position = Position(line: nat, character: nat)

  datatype Span = Span(start: Position, end: Position)

  /** An identifier used as a declared name. */
  datatype Name = Name(span: Span, text: string)

  /** The left-hand side of a variable declaration. */
  datatype Binding =
    | BindingIdentifier(id: Name)
    | BindingPattern(elements: seq<Node>)

  datatype Node =
    | FunctionDeclaration(span: Span, declName: Option<Name>, params: seq<Node>, declBody: Option<Node>)
    | FunctionExpression(span: Span, params: seq<Node>, body: Node)
    | ArrowFunction(span: Span, params: seq<Node>, body: Node)
    | MethodDeclaration(span: Span, params: seq<Node>, methodBody: Option<Node>)
    | VariableDeclaration(span: Span, binding: Binding, initializer: Option<Node>)
    | CallExpression(span: Span, callee: Node, arguments: seq<Node>)
    | PropertyAccess(span: Span, target: Node, member: Name, optional: bool)
    | Identifier(span: Span, text: string)
    | Parenthesized(span: Span, inner: Node)
    | Block(span: Span, statements: seq<Node>)
    | Return(span: Span, argument: Option<Node>)
    | JsxElement(span: Span, children: seq<Node>)
    | JsxSelfClosingElement(span: Span, children: seq<Node>)
    | JsxFragment(span: Span, children: seq<Node>)
    | Other(span: Span, children: seq<Node>)

  /** The dialect a file is parsed under. */
  datatype ScriptKind = TS | TSX | JS | JSX

  function OptionalChild(o: Option<Node>): (cs: seq<Node>)
    ensures forall c :: c in cs ==> c < o
  {
    if o.Some? then [o.value] else []
  }

  /**
   * The children of a node in the order the parser's child enumeration visits them.
   * Parameters, modifiers and type annotations of a function-like node are its `params`
   * and come before its body.
   */
  function Children(n: Node): (cs: seq<Node>)
    ensures forall c :: c in cs ==> c < n
    ensures Below(n, cs)
  {
    match n
    case FunctionDeclaration(_, _, params, body) => params + OptionalChild(body)
    case FunctionExpression(_, params, body) => params + [body]
    case ArrowFunction(_, params, body) => params + [body]
    case MethodDeclaration(_, params, body) => params + OptionalChild(body)
    case VariableDeclaration(_, binding, init) =>
      (if binding.BindingPattern? then binding.elements else []) + OptionalChild(init)
    case CallExpression(_, callee, args) => [callee] + args
    case PropertyAccess(_, target, _, _) => [target]
    case Identifier(_, _) => []
    case Parenthesized(_, inner) => [inner]
    case Block(_, statements) => statements
    case Return(_, argument) => OptionalChild(argument)
    case JsxElement(_, children) => children
    case JsxSelfClosingElement(_, children) => children
    case JsxFragment(_, children) => children
    case Other(_, children) => children
  }

  /** What a visitor does at one node: the values it records there, and whether the walk goes below it. */
  datatype Visit<T> = Visit(emit: seq<T>, descend: bool)

  /** The values a pre-order walk from `n` records, in the order the walk records them. */
  function Walked<T>(n: Node, visit: Node -> Visit<T>): seq<T>
    decreases n, 1
  {
    var v := visit(n);
    v.emit + if v.descend then WalkedAll(n, Children(n), visit) else []
  }

  /** Every node of `ns` lies strictly below `parent`. */
  ghost predicate Below(parent: Node, ns: seq<Node>)
  {
    forall i :: 0 <= i < |ns| ==> ns[i] < parent
  }

  /** The concatenated walks from the nodes `ns`, all of them below `parent`. */
  function WalkedAll<T>(ghost parent: Node, ns: seq<Node>, visit: Node -> Visit<T>): seq<T>
    requires Below(parent, ns)
    decreases parent, 0, |ns|
  {
    if ns == [] then []
    else
      Walked(ns[0], visit) + WalkedAll(parent, ns[1..], visit)
  }

  lemma {:induction false} WalkedAllSnoc<T>(parent: Node, ns: seq<Node>, c: Node, visit: Node -> Visit<T>)
    requires Below(parent, ns) && Below(parent, ns + [c])
    ensures WalkedAll(parent, ns + [c], visit) == WalkedAll(parent, ns, visit) + Walked(c, visit)
    decreases |ns|
  {
    if ns == [] {
      assert ([] + [c])[1..] == [];
    } else {
      assert (ns + [c])[1..] == ns[1..] + [c];
      WalkedAllSnoc(parent, ns[1..], c, visit);
    }
  }

  /** Extending a prefix of `ns` by its next node extends the walk by that node's walk. */
  lemma WalkedAllPrefix<T>(parent: Node, ns: seq<Node>, i: nat, visit: Node -> Visit<T>)
    requires Below(parent, ns) && i < |ns|
    ensures Below(parent, ns[..i]) && Below(parent, ns[..i + 1])
    ensures WalkedAll(parent, ns[..i + 1], visit) == WalkedAll(parent, ns[..i], visit) + Walked(ns[i], visit)
  {
    assert ns[..i + 1] == ns[..i] + [ns[i]];
    WalkedAllSnoc(parent, ns[..i], ns[i], visit);
  }

  /** The walk from a node with at most two children, spelled out. */
  lemma WalkedSmall<T>(n: Node, visit: Node -> Visit<T>)
    requires |Children(n)| <= 2
    ensures Children(n) == [] ==> Walked(n, visit) == visit(n).emit
    ensures |Children(n)| == 1 ==>
      Walked(n, visit) == visit(n).emit + if visit(n).descend then Walked(Children(n)[0], visit) else []
    ensures |Children(n)| == 2 ==>
      Walked(n, visit) == visit(n).emit + if visit(n).descend then Walked(Children(n)[0], visit) + Walked(Children(n)[1], visit) else []
  {
    var cs := Children(n);
    if cs != [] {
      assert WalkedAll(n, cs[1..], visit) == if |cs| == 1 then [] else Walked(cs[1], visit) + WalkedAll(n, cs[2..], visit);
    }
  }

  lemma WalkedAllWhole<T>(parent: Node, ns: seq<Node>, visit: Node -> Visit<T>)
    requires Below(parent, ns)
    ensures Below(parent, ns[..|ns|])
    ensures WalkedAll(parent, ns[..|ns|], visit) == WalkedAll(parent, ns, visit)
  {
    assert ns[..|ns|] == ns;
  }

  lemma AppendAssoc<T>(a: seq<T>, b: seq<T>, c: seq<T>)
    ensures a + b + c == a + (b + c)
  {
  }

  /**
   * `walk` (core/src/parser.ts): visit the node; when the visitor says so, walk each
   * child in order. The values recorded are exactly the pre-order walk's.
   */
  method Walk<T>(node: Node, visit: Node -> Visit<T>) returns (out: seq<T>)
    ensures out == Walked(node, visit)
    decreases node
  {
    var v := visit(node);
    out := v.emit;
    if !v.descend {
      return;
    }
    var cs := Children(node);
    for i := 0 to |cs|
      invariant Below(node, cs[..i])
      invariant out == v.emit + WalkedAll(node, cs[..i], visit)
    {
      var sub := Walk(cs[i], visit);
      assert cs[..i + 1] == cs[..i] + [cs[i]];
      WalkedAllSnoc(node, cs[..i], cs[i], visit);
      out := out + sub;
    }
    assert cs[..|cs|] == cs;
  }

  /**
   * `m` is visited by a walk from `n` that descends below exactly the nodes satisfying
   * `descend`: the path from `n` to `m` passes only through such nodes.
   */
  ghost predicate Reaches(n: Node, m: Node, descend: Node -> bool)
    decreases n
  {
    n == m || (descend(n) && exists c :: c in Children(n) && Reaches(c, m, descend))
  }

  lemma {:induction false} WalkedAllSound<T>(parent: Node, ns: seq<Node>, visit: Node -> Visit<T>, x: T)
    requires Below(parent, ns)
    requires x in WalkedAll(parent, ns, visit)
    ensures exists c :: c in ns && x in Walked(c, visit)
    decreases |ns|
  {
    if x !in Walked(ns[0], visit) {
      WalkedAllSound(parent, ns[1..], visit, x);
      var c :| c in ns[1..] && x in Walked(c, visit);
      assert c in ns;
    }
  }

  lemma {:induction false} WalkedAllComplete<T>(parent: Node, ns: seq<Node>, c: Node, visit: Node -> Visit<T>, x: T)
    requires Below(parent, ns)
    requires c in ns && x in Walked(c, visit)
    ensures x in WalkedAll(parent, ns, visit)
    decreases |ns|
  {
    if ns[0] != c {
      assert c in ns[1..];
      WalkedAllComplete(parent, ns[1..], c, visit, x);
    }
  }

  /** Whatever a walk records was recorded at a node the walk reaches. */
  lemma {:induction false} WalkedSound<T>(n: Node, visit: Node -> Visit<T>, descend: Node -> bool, x: T)
    requires forall k :: visit(k).descend == descend(k)
    requires x in Walked(n, visit)
    ensures exists m :: Reaches(n, m, descend) && x in visit(m).emit
    decreases n
  {
    if x !in visit(n).emit {
      var cs := Children(n);
      WalkedAllSound(n, cs, visit, x);
      var c :| c in cs && x in Walked(c, visit);
      WalkedSound(c, visit, descend, x);
      var m :| Reaches(c, m, descend) && x in visit(m).emit;
      assert Reaches(n, m, descend);
    }
  }

  /** Whatever a visitor records at a node the walk reaches appears in the walk. */
  lemma {:induction false} WalkedComplete<T>(n: Node, m: Node, visit: Node -> Visit<T>, descend: Node -> bool, x: T)
    requires forall k :: visit(k).descend == descend(k)
    requires Reaches(n, m, descend) && x in visit(m).emit
    ensures x in Walked(n, visit)
    decreases n
  {
    if n != m {
      var c :| c in Children(n) && Reaches(c, m, descend);
      WalkedComplete(c, m, visit, descend, x);
      WalkedAllComplete(n, Children(n), c, visit, x);
    }
  }

  /** Two walks that prune alike and record related values record related sequences. */
  lemma {:induction false} WalkedMap<T, U>(n: Node, visit: Node -> Visit<T>, f: T -> U, visit': Node -> Visit<U>)
    requires forall k :: visit'(k) == Visit(MapSeq(f, visit(k).emit), visit(k).descend)
    ensures Walked(n, visit') == MapSeq(f, Walked(n, visit))
    decreases n
  {
    var cs := Children(n);
    WalkedAllMap(n, cs, visit, f, visit');
    MapSeqAppend(f, visit(n).emit, if visit(n).descend then WalkedAll(n, cs, visit) else []);
  }

  lemma {:induction false} WalkedAllMap<T, U>(parent: Node, ns: seq<Node>, visit: Node -> Visit<T>, f: T -> U, visit': Node -> Visit<U>)
    requires Below(parent, ns)
    requires forall k :: visit'(k) == Visit(MapSeq(f, visit(k).emit), visit(k).descend)
    ensures WalkedAll(parent, ns, visit') == MapSeq(f, WalkedAll(parent, ns, visit))
    decreases parent, |ns|
  {
    if ns != [] {
      assert ns[0] in ns;
      WalkedMap(ns[0], visit, f, visit');
      WalkedAllMap(parent, ns[1..], visit, f, visit');
      MapSeqAppend(f, Walked(ns[0], visit), WalkedAll(parent, ns[1..], visit));
    }
  }

  /** A walk records no more values than another that prunes alike and records at least as many at each node. */
  lemma {:induction false} WalkedLength<T, U>(n: Node, visit: Node -> Visit<T>, visit': Node -> Visit<U>)
    requires forall k :: visit'(k).descend == visit(k).descend && |visit'(k).emit| <= |visit(k).emit|
    ensures |Walked(n, visit')| <= |Walked(n, visit)|
    decreases n
  {
    WalkedAllLength(n, Children(n), visit, visit');
  }

  lemma {:induction false} WalkedAllLength<T, U>(parent: Node, ns: seq<Node>, visit: Node -> Visit<T>, visit': Node -> Visit<U>)
    requires Below(parent, ns)
    requires forall k :: visit'(k).descend == visit(k).descend && |visit'(k).emit| <= |visit(k).emit|
    ensures |WalkedAll(parent, ns, visit')| <= |WalkedAll(parent, ns, visit)|
    decreases parent, |ns|
  {
    if ns != [] {
      assert ns[0] in ns;
      WalkedLength(ns[0], visit, visit');
      WalkedAllLength(parent, ns[1..], visit, visit');
    }
  }

  function MapSeq<T, U>(f: T -> U, s: seq<T>): (r: seq<U>)
    ensures |r| == |s|
    ensures forall i :: 0 <= i < |s| ==> r[i] == f(s[i])
  {
    seq(|s|, i requires 0 <= i < |s| => f(s[i]))
  }

  lemma MapSeqAppend<T, U>(f: T -> U, a: seq<T>, b: seq<T>)
    ensures MapSeq(f, a + b) == MapSeq(f, a) + MapSeq(f, b)
  {
  }
}
