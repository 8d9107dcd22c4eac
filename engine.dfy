/**
 * The reporter (core/src/engine.ts): applies both rules to every function descriptor
 * and orders the violations by line, then column, then rule id.
 */
module Engine {
  import opened Wrappers
  import opened Model
  import opened Text
  import NoApiRule
  import NoJsxRule

  // ---------------------------------------------------------------------------
  // Rule application

  /** The violations one descriptor yields: the API rule's, then the JSX rule's. */
  function RuleOutputs(fn: FunctionInfo): (r: seq<Violation>)
    ensures |r| <= 1
    ensures |r| == 1 <==> IsApiOffender(fn) || IsJsxOffender(fn)
    ensures forall v :: v in r ==> v.fn == FunctionRef(fn.name, fn.kind)
  {
    OptionToSeq(NoApiRule.NoApiInReactComponent(fn)) + OptionToSeq(NoJsxRule.NoJsxInHooks(fn))
  }

  predicate IsApiOffender(fn: FunctionInfo)
  {
    fn.kind == ReactComponent && |fn.apiCalls| > 0
  }

  predicate IsJsxOffender(fn: FunctionInfo)
  {
    fn.kind == ReactHook && |fn.jsxReturns| > 0
  }

  /** The violations of all descriptors, unsorted, in the order the loop pushes them. */
  function RuleResults(fns: seq<FunctionInfo>): seq<Violation>
  {
    if fns == [] then []
    else RuleResults(fns[..|fns| - 1]) + RuleOutputs(fns[|fns| - 1])
  }

  function CountApiOffenders(fns: seq<FunctionInfo>): nat
  {
    if fns == [] then 0
    else CountApiOffenders(fns[..|fns| - 1]) + if IsApiOffender(fns[|fns| - 1]) then 1 else 0
  }

  function CountJsxOffenders(fns: seq<FunctionInfo>): nat
  {
    if fns == [] then 0
    else CountJsxOffenders(fns[..|fns| - 1]) + if IsJsxOffender(fns[|fns| - 1]) then 1 else 0
  }

  /** There are as many violations as components calling APIs plus hooks returning JSX. */
  lemma {:induction false} RuleResultsCount(fns: seq<FunctionInfo>)
    ensures |RuleResults(fns)| == CountApiOffenders(fns) + CountJsxOffenders(fns)
    ensures |RuleResults(fns)| <= |fns|
    decreases |fns|
  {
    if fns != [] {
      RuleResultsCount(fns[..|fns| - 1]);
    }
  }

  /** Each violation is one of the two rules' verdicts on some descriptor, reported at one of its sites. */
  lemma {:induction false} RuleResultsSound(fns: seq<FunctionInfo>, v: Violation)
    requires v in RuleResults(fns)
    ensures exists i :: 0 <= i < |fns| && v in RuleOutputs(fns[i])
    ensures v.ruleId == NoApiRule.RULE_ID || v.ruleId == NoJsxRule.RULE_ID
    decreases |fns|
  {
    var init := fns[..|fns| - 1];
    if v in RuleResults(init) {
      RuleResultsSound(init, v);
      var i :| 0 <= i < |init| && v in RuleOutputs(init[i]);
      assert fns[i] == init[i];
    } else {
      assert v in RuleOutputs(fns[|fns| - 1]);
    }
  }

  /** Every descriptor's violation is reported. */
  lemma {:induction false} RuleResultsComplete(fns: seq<FunctionInfo>, i: nat)
    requires i < |fns|
    ensures forall v :: v in RuleOutputs(fns[i]) ==> v in RuleResults(fns)
    decreases |fns|
  {
    if i < |fns| - 1 {
      var init := fns[..|fns| - 1];
      assert init[i] == fns[i];
      RuleResultsComplete(init, i);
    }
  }

  // ---------------------------------------------------------------------------
  // Ordering

  /**
   * The sort comparator: by line, then column, then rule id. The rule ids are compared
   * by character code.
   */
  function CompareViolations(a: Violation, b: Violation): (c: int)
    ensures a.location.line != b.location.line ==> (c < 0 <==> a.location.line < b.location.line)
    ensures a.location.line == b.location.line && a.location.column != b.location.column ==>
              (c < 0 <==> a.location.column < b.location.column)
  {
    if a.location.line != b.location.line then a.location.line - b.location.line
    else if a.location.column != b.location.column then a.location.column - b.location.column
    else CompareOrdinal(a.ruleId, b.ruleId)
  }

  /** What the comparator looks at. */
  datatype SortKey = SortKey(line: int, column: int, ruleId: string)

  function KeyOf(v: Violation): SortKey
  {
    SortKey(v.location.line, v.location.column, v.ruleId)
  }

  /** `a` may come before `b`. */
  predicate Leq(a: Violation, b: Violation)
  {
    CompareViolations(a, b) <= 0
  }

  /** The comparator ties exactly the violations with the same key, and orders the rest both ways consistently. */
  lemma CompareViolationsProperties(a: Violation, b: Violation)
    ensures CompareViolations(a, b) == 0 <==> KeyOf(a) == KeyOf(b)
    ensures CompareViolations(b, a) < 0 <==> CompareViolations(a, b) > 0
    ensures Leq(a, b) || Leq(b, a)
  {
    CompareOrdinalZero(a.ruleId, b.ruleId);
    CompareOrdinalFlip(a.ruleId, b.ruleId);
  }

  lemma LeqTransitive(a: Violation, b: Violation, c: Violation)
    requires Leq(a, b) && Leq(b, c)
    ensures Leq(a, c)
  {
    if KeyOf(a).line == KeyOf(c).line && KeyOf(a).column == KeyOf(c).column
      && KeyOf(a).line == KeyOf(b).line && KeyOf(a).column == KeyOf(b).column
    {
      CompareOrdinalTransitive(a.ruleId, b.ruleId, c.ruleId);
    }
  }

  /** An API violation sorts before a JSX violation at the same place. */
  lemma RuleIdOrder()
    ensures CompareOrdinal(NoApiRule.RULE_ID, NoJsxRule.RULE_ID) < 0
  {
    var a := NoApiRule.RULE_ID;
    var b := NoJsxRule.RULE_ID;
    assert a[0] == b[0] && a[1] == b[1] && a[2] == b[2] && a[3] < b[3];
    assert a[1..][0] == a[1] && b[1..][0] == b[1];
    assert a[1..][1..][0] == a[2] && b[1..][1..][0] == b[2];
    assert a[1..][1..][1..][0] == a[3] && b[1..][1..][1..][0] == b[3];
  }

  ghost predicate Sorted(s: seq<Violation>)
  {
    forall i, j :: 0 <= i < j < |s| ==> Leq(s[i], s[j])
  }

  /** The violations of `s` with key `k`, in order. */
  function WithKey(s: seq<Violation>, k: SortKey): (r: seq<Violation>)
    ensures |r| <= |s|
  {
    if s == [] then []
    else (if KeyOf(s[0]) == k then [s[0]] else []) + WithKey(s[1..], k)
  }

  lemma {:induction false} WithKeyAppend(a: seq<Violation>, b: seq<Violation>, k: SortKey)
    ensures WithKey(a + b, k) == WithKey(a, k) + WithKey(b, k)
    decreases |a|
  {
    if a == [] {
      assert a + b == b;
    } else {
      assert (a + b)[1..] == a[1..] + b;
      WithKeyAppend(a[1..], b, k);
    }
  }

  /** Places `v` into `s` before the first element it may precede. */
  function Insert(v: Violation, s: seq<Violation>): (r: seq<Violation>)
    ensures multiset(r) == multiset(s) + multiset{v}
  {
    if s == [] then [v]
    else if Leq(v, s[0]) then [v] + s
    else
      assert s == [s[0]] + s[1..];
      [s[0]] + Insert(v, s[1..])
  }

  lemma {:induction false} InsertSorted(v: Violation, s: seq<Violation>)
    requires Sorted(s)
    ensures Sorted(Insert(v, s))
    decreases |s|
  {
    if s == [] {
    } else if Leq(v, s[0]) {
      forall j | 0 < j < |s|
        ensures Leq(v, s[j])
      {
        LeqTransitive(v, s[0], s[j]);
      }
      assert forall j :: 1 <= j < |[v] + s| ==> ([v] + s)[j] == s[j - 1];
    } else {
      var rest := s[1..];
      InsertSorted(v, rest);
      var t := Insert(v, rest);
      CompareViolationsProperties(v, s[0]);
      forall x | x in t
        ensures Leq(s[0], x)
      {
        assert x in multiset(t);
        if x != v {
          assert x in rest;
        }
      }
      assert forall j :: 1 <= j < |[s[0]] + t| ==> ([s[0]] + t)[j] == t[j - 1];
    }
  }

  /** Inserting keeps every key's violations in their order, the inserted one first. */
  lemma {:induction false} InsertStable(v: Violation, s: seq<Violation>, k: SortKey)
    ensures WithKey(Insert(v, s), k) == WithKey([v] + s, k)
    decreases |s|
  {
    if s == [] {
    } else if Leq(v, s[0]) {
    } else {
      InsertStable(v, s[1..], k);
      CompareViolationsProperties(v, s[0]);
      assert ([s[0]] + Insert(v, s[1..]))[1..] == Insert(v, s[1..]);
      assert ([v] + s[1..])[1..] == s[1..];
      assert ([v] + s)[1..] == s;
    }
  }

  /**
   * `Array.prototype.sort` with the comparator: a stable sort, so violations the
   * comparator ties stay in the order they were pushed.
   */
  function SortByLocation(vs: seq<Violation>): (r: seq<Violation>)
    ensures multiset(r) == multiset(vs) && |r| == |vs|
  {
    if vs == [] then []
    else
      assert vs == [vs[0]] + vs[1..];
      Insert(vs[0], SortByLocation(vs[1..]))
  }

  lemma {:induction false} SortByLocationSorted(vs: seq<Violation>)
    ensures Sorted(SortByLocation(vs))
    decreases |vs|
  {
    if vs != [] {
      SortByLocationSorted(vs[1..]);
      InsertSorted(vs[0], SortByLocation(vs[1..]));
    }
  }

  lemma {:induction false} SortByLocationStable(vs: seq<Violation>, k: SortKey)
    ensures WithKey(SortByLocation(vs), k) == WithKey(vs, k)
    decreases |vs|
  {
    if vs != [] {
      SortByLocationStable(vs[1..], k);
      InsertStable(vs[0], SortByLocation(vs[1..]), k);
      WithKeyAppend([vs[0]], SortByLocation(vs[1..]), k);
      WithKeyAppend([vs[0]], vs[1..], k);
      assert [vs[0]] + vs[1..] == vs;
    }
  }

  /** Two violations at the same place are ordered by rule id, whichever was pushed first. */
  lemma SameLocationByRuleId(a: Violation, b: Violation)
    requires a.location == b.location && CompareOrdinal(a.ruleId, b.ruleId) < 0
    ensures SortByLocation([a, b]) == [a, b] && SortByLocation([b, a]) == [a, b]
  {
    CompareOrdinalFlip(a.ruleId, b.ruleId);
    assert [a, b][1..] == [b] && [b, a][1..] == [a] && [a][1..] == [] && [b][1..] == [];
    assert SortByLocation([b]) == [b] && SortByLocation([a]) == [a];
    assert Insert(b, []) == [b];
  }

  // ---------------------------------------------------------------------------
  // The reporter

  /** `analyze`: the rule verdicts on every descriptor, sorted by location and rule id. */
  method Analyze(functions: seq<FunctionInfo>) returns (violations: seq<Violation>)
    ensures violations == SortByLocation(RuleResults(functions))
    ensures Sorted(violations)
    ensures multiset(violations) == multiset(RuleResults(functions))
    ensures forall k :: WithKey(violations, k) == WithKey(RuleResults(functions), k)
    ensures |violations| == CountApiOffenders(functions) + CountJsxOffenders(functions)
    ensures functions == [] ==> violations == []
  {
    violations := [];
    for i := 0 to |functions|
      invariant violations == RuleResults(functions[..i])
    {
      var fn := functions[i];
      var apiViolation := NoApiRule.NoApiInReactComponent(fn);
      if apiViolation.Some? {
        violations := violations + [apiViolation.value];
      }
      var jsxViolation := NoJsxRule.NoJsxInHooks(fn);
      if jsxViolation.Some? {
        violations := violations + [jsxViolation.value];
      }
      assert functions[..i + 1][..i] == functions[..i];
    }
    assert functions[..|functions|] == functions;
    ghost var unsorted := violations;
    violations := SortByLocation(violations);
    SortByLocationSorted(unsorted);
    forall k
      ensures WithKey(violations, k) == WithKey(unsorted, k)
    {
      SortByLocationStable(unsorted, k);
    }
    RuleResultsCount(functions);
  }
}
