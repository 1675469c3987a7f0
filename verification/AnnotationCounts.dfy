/** Counting annotations: the stateful visitor of client/coverage_data.py, its counts per module
    and their sums over modules (client/commands/statistics.py). Syntax trees are given; of a
    parameter only whether it is annotated matters. */
module AnnotationCounts {
  import opened Outcomes

  /** A decorator is `Some` only when it is a plain name. `Other` is any other syntax. */
  datatype Node =
    | ClassDef(className: string, body: seq<Node>)
    | FunctionDef(name: string, decorators: seq<Option<string>>, hasReturn: bool, params: seq<bool>, body: seq<Node>)
    | Other(body: seq<Node>)

  datatype Status = NotAnnotated | PartiallyAnnotated | FullyAnnotated

  /** `FunctionAnnotationStatus.from_function_data`. */
  function FromFunctionData(isMethod: bool, hasReturn: bool, params: seq<bool>): Status {
    if hasReturn then
      if forall i :: 0 <= i < |NonSelf(isMethod, params)| ==> NonSelf(isMethod, params)[i] then FullyAnnotated
      else PartiallyAnnotated
    else if exists i :: 0 <= i < |params| && params[i] then PartiallyAnnotated
    else NotAnnotated
  }

  /** `parameters[1:]` for a method, which is empty for an empty list. */
  function NonSelf(isMethod: bool, params: seq<bool>): seq<bool> {
    if isMethod && params != [] then params[1..] else params
  }

  datatype FunctionInfo = FunctionInfo(parent: Option<string>, name: string, status: Status,
                                       hasReturn: bool, params: seq<bool>, isMethod: bool)

  /** The state that the visitor must restore. */
  datatype Context = Context(classNames: seq<string>, defineDepth: int, staticDefineDepth: int)
  {
    predicate IsNonStaticMethod() {
      |classNames| > 0 && staticDefineDepth <= 0
    }

    function Parent(): Option<string> {
      if classNames == [] then None else Some(Dotted(classNames))
    }
  }

  function Dotted(names: seq<string>): string {
    if names == [] then "" else if |names| == 1 then names[0] else names[0] + "." + Dotted(names[1..])
  }

  /** The names with dots between them. */
  lemma {:induction false} DottedGrows(names: seq<string>, last: string)
    ensures Dotted([last]) == last
    ensures names != [] ==> Dotted(names + [last]) == Dotted(names) + "." + last
  {
    if |names| <= 1 {
      assert names != [] ==> (names + [last])[1..] == [last];
    } else {
      DottedGrows(names[1..], last);
      assert (names + [last])[1..] == names[1..] + [last];
    }
  }

  predicate IsStatic(n: Node) {
    n.FunctionDef? && Some("staticmethod") in n.decorators
  }

  /** The context inside a class or function, given the one outside. */
  function Inside(c: Context, n: Node): Context {
    match n
    case ClassDef(name, _) => c.(classNames := c.classNames + [name])
    case FunctionDef(_, _, _, _, _) =>
      Context(c.classNames, c.defineDepth + 1, c.staticDefineDepth + if IsStatic(n) then 1 else 0)
    case Other(_) => c
  }

  function InfoOf(c: Context, n: Node): FunctionInfo
    requires n.FunctionDef?
  {
    var isMethod := Inside(c, n).IsNonStaticMethod();
    FunctionInfo(c.Parent(), n.name, FromFunctionData(isMethod, n.hasReturn, n.params), n.hasReturn, n.params, isMethod)
  }

  /** The functions of a tree in the order of their definitions, each judged in its context. */
  function Functions(c: Context, n: Node): seq<FunctionInfo>
    decreases n, 1
  {
    (if n.FunctionDef? then [InfoOf(c, n)] else []) + AllFunctions(Inside(c, n), n.body)
  }

  function AllFunctions(c: Context, ns: seq<Node>): seq<FunctionInfo>
    decreases ns, 0
  {
    if ns == [] then [] else Functions(c, ns[0]) + AllFunctions(c, ns[1..])
  }

  class AnnotationCollector {
    var classNameStack: seq<string>
    var defineDepth: int
    var staticDefineDepth: int
    var functions: seq<FunctionInfo>

    constructor ()
      ensures Current() == Context([], 0, 0) && functions == []
    {
      classNameStack, defineDepth, staticDefineDepth, functions := [], 0, 0, [];
    }

    function Current(): Context
      reads this
    {
      Context(classNameStack, defineDepth, staticDefineDepth)
    }

    method VisitFunctionDef(n: Node)
      requires n.FunctionDef?
      modifies this
      ensures Current() == Inside(old(Current()), n)
      ensures functions == old(functions) + [InfoOf(old(Current()), n)]
    {
      var parent := Current().Parent();
      defineDepth := defineDepth + 1;
      if Some("staticmethod") in n.decorators {
        staticDefineDepth := staticDefineDepth + 1;
      }
      var isMethod := Current().IsNonStaticMethod();
      var status := FromFunctionData(isMethod, n.hasReturn, n.params);
      functions := functions + [FunctionInfo(parent, n.name, status, n.hasReturn, n.params, isMethod)];
    }

    method LeaveFunctionDef(n: Node)
      requires n.FunctionDef?
      modifies this
      ensures forall c: Context :: old(Current()) == Inside(c, n) ==> Current() == c
      ensures functions == old(functions)
    {
      defineDepth := defineDepth - 1;
      if Some("staticmethod") in n.decorators {
        staticDefineDepth := staticDefineDepth - 1;
      }
    }

    /** Visiting a tree restores the context and appends the functions of the tree. */
    method Visit(n: Node)
      modifies this
      ensures Current() == old(Current())
      ensures functions == old(functions) + Functions(old(Current()), n)
      decreases n, 1
    {
      match n {
        case ClassDef(name, body) =>
          classNameStack := classNameStack + [name];
          VisitAll(body);
          classNameStack := classNameStack[..|classNameStack| - 1];
        case FunctionDef(_, _, _, _, body) =>
          VisitFunctionDef(n);
          VisitAll(body);
          LeaveFunctionDef(n);
        case Other(body) => VisitAll(body);
      }
    }

    method VisitAll(ns: seq<Node>)
      modifies this
      ensures Current() == old(Current())
      ensures functions == old(functions) + AllFunctions(old(Current()), ns)
      decreases ns, 0
    {
      if ns != [] {
        Visit(ns[0]);
        VisitAll(ns[1..]);
      }
    }
  }

  // ----- What the visitor finds, read off the tree

  /** A node below `root`, with all its ancestors from `root` on. */
  ghost predicate IsChain(root: Node, chain: seq<Node>) {
    && chain != [] && chain[0] == root
    && forall i :: 0 <= i < |chain| - 1 ==> chain[i + 1] in chain[i].body
  }

  predicate SomeClass(nodes: seq<Node>) {
    exists n :: n in nodes && n.ClassDef?
  }

  predicate SomeStatic(nodes: seq<Node>) {
    exists n :: n in nodes && n.FunctionDef? && Some("staticmethod") in n.decorators
  }

  function ClassNames(nodes: seq<Node>): seq<string> {
    if nodes == [] then []
    else
      var n := |nodes| - 1;
      ClassNames(nodes[..n]) + if nodes[n].ClassDef? then [nodes[n].className] else []
  }

  /** What is recorded of a function, given its ancestors: it is a method if it is in a class and
      neither it nor a function around it is static. */
  ghost predicate IsRecordOf(ancestors: seq<Node>, n: Node, f: FunctionInfo) {
    && n.FunctionDef? && f.name == n.name && f.hasReturn == n.hasReturn && f.params == n.params
    && f.parent == (if SomeClass(ancestors) then Some(Dotted(ClassNames(ancestors))) else None)
    && f.isMethod == (SomeClass(ancestors) && !SomeStatic(ancestors + [n]))
    && f.status == FromFunctionData(f.isMethod, n.hasReturn, n.params)
  }

  /** The context below these ancestors. */
  function Around(ancestors: seq<Node>): Context {
    if ancestors == [] then Context([], 0, 0)
    else Inside(Around(ancestors[..|ancestors| - 1]), ancestors[|ancestors| - 1])
  }

  lemma {:induction false} ContextMeaning(ancestors: seq<Node>)
    ensures Around(ancestors).classNames == ClassNames(ancestors)
    ensures ClassNames(ancestors) != [] <==> SomeClass(ancestors)
    ensures Around(ancestors).staticDefineDepth >= 0
    ensures Around(ancestors).staticDefineDepth > 0 <==> SomeStatic(ancestors)
  {
    if ancestors == [] {
    } else {
      var n := |ancestors| - 1;
      ContextMeaning(ancestors[..n]);
      assert ancestors == ancestors[..n] + [ancestors[n]];
    }
  }

  lemma InsideIsAround(ancestors: seq<Node>, n: Node)
    ensures Inside(Around(ancestors), n) == Around(ancestors + [n])
  {
    assert (ancestors + [n])[..|ancestors|] == ancestors;
  }

  lemma RecordOfFunction(ancestors: seq<Node>, n: Node, f: FunctionInfo)
    requires n.FunctionDef?
    ensures f == InfoOf(Around(ancestors), n) <==> IsRecordOf(ancestors, n, f)
  {
    ContextMeaning(ancestors);
    ContextMeaning(ancestors + [n]);
    InsideIsAround(ancestors, n);
    assert forall m :: m in ancestors + [n] <==> m in ancestors || m == n;
  }

  /** The last node of a chain, which begins below these ancestors, is recorded as `f`. */
  ghost predicate EndsIn(ancestors: seq<Node>, chain: seq<Node>, f: FunctionInfo)
    requires chain != []
  {
    IsRecordOf(ancestors + chain[..|chain| - 1], chain[|chain| - 1], f)
  }

  /** A function definition at or below `root`, which has these ancestors, is recorded as `f`. */
  ghost predicate IsFound(ancestors: seq<Node>, root: Node, f: FunctionInfo) {
    exists chain :: IsChain(root, chain) && EndsIn(ancestors, chain, f)
  }

  lemma {:induction false} LongerChain(ancestors: seq<Node>, root: Node, rest: seq<Node>, f: FunctionInfo)
    requires rest != []
    ensures IsChain(root, [root] + rest) <==> rest[0] in root.body && IsChain(rest[0], rest)
    ensures EndsIn(ancestors, [root] + rest, f) <==> EndsIn(ancestors + [root], rest, f)
  {
    var chain := [root] + rest;
    if IsChain(root, chain) {
      assert chain[0 + 1] in chain[0].body;
      forall i | 0 <= i < |rest| - 1 ensures rest[i + 1] in rest[i].body {
        assert chain[i + 1 + 1] in chain[i + 1].body;
      }
    }
    assert ancestors + chain[..|chain| - 1] == ancestors + [root] + rest[..|rest| - 1];
  }

  lemma {:induction false} FoundBelow(ancestors: seq<Node>, root: Node, f: FunctionInfo)
    ensures IsFound(ancestors, root, f) <==>
              IsRecordOf(ancestors, root, f) || exists m :: m in root.body && IsFound(ancestors + [root], m, f)
  {
    assert [root][..0] == [] && ancestors + [] == ancestors;
    assert IsChain(root, [root]) && (EndsIn(ancestors, [root], f) <==> IsRecordOf(ancestors, root, f));
    if IsFound(ancestors, root, f) {
      var chain: seq<Node> :| IsChain(root, chain) && EndsIn(ancestors, chain, f);
      if |chain| == 1 {
        assert chain == [root];
      } else {
        assert chain == [root] + chain[1..];
        LongerChain(ancestors, root, chain[1..], f);
      }
    }
    if m :| m in root.body && IsFound(ancestors + [root], m, f) {
      var rest: seq<Node> :| IsChain(m, rest) && EndsIn(ancestors + [root], rest, f);
      LongerChain(ancestors, root, rest, f);
    }
  }

  /** Exactly the function definitions of the tree are recorded, each as its ancestors say. */
  lemma {:induction false} FunctionsAre(ancestors: seq<Node>, n: Node)
    ensures forall f :: f in Functions(Around(ancestors), n) <==> IsFound(ancestors, n, f)
    decreases n, 1
  {
    InsideIsAround(ancestors, n);
    AllFunctionsAre(ancestors + [n], n.body);
    forall f ensures f in Functions(Around(ancestors), n) <==> IsFound(ancestors, n, f) {
      FoundBelow(ancestors, n, f);
      if n.FunctionDef? {
        RecordOfFunction(ancestors, n, f);
      }
    }
  }

  lemma {:induction false} AllFunctionsAre(ancestors: seq<Node>, ns: seq<Node>)
    ensures forall f :: f in AllFunctions(Around(ancestors), ns) <==> exists m :: m in ns && IsFound(ancestors, m, f)
    decreases ns, 0
  {
    if ns == [] {
    } else {
      FunctionsAre(ancestors, ns[0]);
      AllFunctionsAre(ancestors, ns[1..]);
      assert forall m :: m in ns <==> m == ns[0] || m in ns[1..];
    }
  }

  function DefinitionCount(n: Node): nat
    decreases n, 1
  {
    DefinitionCounts(n.body) + if n.FunctionDef? then 1 else 0
  }

  function DefinitionCounts(ns: seq<Node>): nat
    decreases ns, 0
  {
    if ns == [] then 0 else DefinitionCount(ns[0]) + DefinitionCounts(ns[1..])
  }

  /** Every definition is recorded once. */
  lemma {:induction false} FunctionsAreCounted(c: Context, n: Node)
    ensures |Functions(c, n)| == DefinitionCount(n)
    decreases n, 1
  {
    AllFunctionsAreCounted(Inside(c, n), n.body);
  }

  lemma {:induction false} AllFunctionsAreCounted(c: Context, ns: seq<Node>)
    ensures |AllFunctions(c, ns)| == DefinitionCounts(ns)
    decreases ns, 0
  {
    if ns == [] {
    } else {
      FunctionsAreCounted(c, ns[0]);
      AllFunctionsAreCounted(c, ns[1..]);
    }
  }

  // ----- Verdicts and counts

  function Number(b: bool): nat {
    if b then 1 else 0
  }

  function TrueCount(bs: seq<bool>): nat {
    if bs == [] then 0 else Number(bs[0]) + TrueCount(bs[1..])
  }

  lemma {:induction false} AllTrueWhenCountIsFull(bs: seq<bool>)
    ensures TrueCount(bs) <= |bs|
    ensures TrueCount(bs) == |bs| <==> forall i :: 0 <= i < |bs| ==> bs[i]
  {
    if bs == [] {
    } else {
      AllTrueWhenCountIsFull(bs[1..]);
      assert forall i :: 0 < i < |bs| ==> bs[i] == bs[1..][i - 1];
    }
  }

  datatype CountKey = ReturnCount | AnnotatedReturnCount | ParameterCount | AnnotatedParameterCount
                    | FunctionCount | PartiallyAnnotatedFunctionCount | FullyAnnotatedFunctionCount

  const KEYS := {ReturnCount, AnnotatedReturnCount, ParameterCount, AnnotatedParameterCount,
                 FunctionCount, PartiallyAnnotatedFunctionCount, FullyAnnotatedFunctionCount}

  /** What one function contributes to a count. */
  function Weight(k: CountKey, f: FunctionInfo): nat {
    match k
    case ReturnCount => 1
    case AnnotatedReturnCount => Number(f.hasReturn)
    case ParameterCount => |NonSelf(f.isMethod, f.params)|
    case AnnotatedParameterCount => TrueCount(NonSelf(f.isMethod, f.params))
    case FunctionCount => 1
    case PartiallyAnnotatedFunctionCount => Number(f.status.PartiallyAnnotated?)
    case FullyAnnotatedFunctionCount => Number(f.status.FullyAnnotated?)
  }

  lemma {:induction false} TrueCountFrom(bs: seq<bool>, k: nat)
    requires k <= |bs|
    ensures TrueCount(bs[k..]) == |set j | k <= j < |bs| && bs[j]|
    decreases |bs| - k
  {
    var marked := set j | k <= j < |bs| && bs[j];
    if k == |bs| {
      assert marked == {};
    } else {
      TrueCountFrom(bs, k + 1);
      var later := set j | k + 1 <= j < |bs| && bs[j];
      assert marked == later + if bs[k] then {k} else {};
      assert bs[k..][1..] == bs[k + 1..];
    }
  }

  /** What one function counts for: itself, its return, and its parameters but the implicit one. */
  lemma WeightsAre(f: FunctionInfo)
    ensures Weight(FunctionCount, f) == 1 && Weight(ReturnCount, f) == 1
    ensures Weight(AnnotatedReturnCount, f) == if f.hasReturn then 1 else 0
    ensures Weight(PartiallyAnnotatedFunctionCount, f) == if f.status.PartiallyAnnotated? then 1 else 0
    ensures Weight(FullyAnnotatedFunctionCount, f) == if f.status.FullyAnnotated? then 1 else 0
    ensures Weight(ParameterCount, f) == if f.isMethod && |f.params| > 0 then |f.params| - 1 else |f.params|
    ensures Weight(AnnotatedParameterCount, f)
            == |set j | 0 <= j < |f.params| && f.params[j] && (f.isMethod ==> j > 0)|
  {
    var first := if f.isMethod && f.params != [] then 1 else 0;
    assert NonSelf(f.isMethod, f.params) == f.params[first..];
    TrueCountFrom(f.params, first);
    assert (set j | first <= j < |f.params| && f.params[j])
        == (set j | 0 <= j < |f.params| && f.params[j] && (f.isMethod ==> j > 0));
  }

  function Total(k: CountKey, fs: seq<FunctionInfo>): nat {
    if fs == [] then 0 else Weight(k, fs[0]) + Total(k, fs[1..])
  }

  lemma {:induction false} TotalAppend(k: CountKey, a: seq<FunctionInfo>, b: seq<FunctionInfo>)
    ensures Total(k, a + b) == Total(k, a) + Total(k, b)
  {
    if a == [] {
      assert a + b == b;
    } else {
      TotalAppend(k, a[1..], b);
      assert (a + b)[1..] == a[1..] + b;
    }
  }

  lemma {:induction false} TotalOfFunctions(fs: seq<FunctionInfo>)
    ensures Total(FunctionCount, fs) == Total(ReturnCount, fs) == |fs|
  {
    if fs == [] {
    } else {
      TotalOfFunctions(fs[1..]);
    }
  }

  /** A verdict that was computed from the recorded data, as the visitor does. */
  predicate Consistent(f: FunctionInfo) {
    f.status == FromFunctionData(f.isMethod, f.hasReturn, f.params)
  }

  lemma {:induction false} VisitorIsConsistent(c: Context, n: Node)
    ensures forall f :: f in Functions(c, n) ==> Consistent(f)
    decreases n, 1
  {
    AllConsistent(Inside(c, n), n.body);
  }

  lemma {:induction false} AllConsistent(c: Context, ns: seq<Node>)
    ensures forall f :: f in AllFunctions(c, ns) ==> Consistent(f)
    decreases ns, 0
  {
    if ns == [] {
    } else {
      VisitorIsConsistent(c, ns[0]);
      AllConsistent(c, ns[1..]);
    }
  }

  /** One function: the verdict says what its own counts say. It is not annotated exactly when
      nothing is, the implicit first parameter included. */
  lemma VerdictMeaning(f: FunctionInfo)
    requires Consistent(f)
    ensures f.status.FullyAnnotated? <==>
              Weight(AnnotatedReturnCount, f) == Weight(ReturnCount, f)
              && Weight(AnnotatedParameterCount, f) == Weight(ParameterCount, f)
    ensures f.status.NotAnnotated? <==> !f.hasReturn && !(exists i :: 0 <= i < |f.params| && f.params[i])
    ensures Weight(AnnotatedParameterCount, f) <= Weight(ParameterCount, f)
  {
    AllTrueWhenCountIsFull(NonSelf(f.isMethod, f.params));
  }

  ghost predicate AllFull(fs: seq<FunctionInfo>) {
    Total(FullyAnnotatedFunctionCount, fs) == Total(FunctionCount, fs)
  }

  /** All functions are fully annotated exactly when all returns and all parameters are. */
  lemma {:induction false} FullyAnnotatedWhenCountsAgree(fs: seq<FunctionInfo>)
    requires forall f :: f in fs ==> Consistent(f)
    ensures AllFull(fs) <==>
              Total(AnnotatedReturnCount, fs) == Total(ReturnCount, fs)
              && Total(AnnotatedParameterCount, fs) == Total(ParameterCount, fs)
    ensures Total(AnnotatedReturnCount, fs) <= Total(ReturnCount, fs)
    ensures Total(AnnotatedParameterCount, fs) <= Total(ParameterCount, fs)
    ensures Total(FullyAnnotatedFunctionCount, fs) + Total(PartiallyAnnotatedFunctionCount, fs)
            <= Total(FunctionCount, fs)
    ensures Total(FullyAnnotatedFunctionCount, fs) <= Total(AnnotatedReturnCount, fs)
  {
    if fs == [] {
    } else {
      FullyAnnotatedWhenCountsAgree(fs[1..]);
      VerdictMeaning(fs[0]);
    }
  }

  /** The implicit first parameter has an annotation. */
  predicate AnnotatesSelf(f: FunctionInfo) {
    f.isMethod && f.params != [] && f.params[0]
  }

  lemma {:induction false} NoneTrueWhenCountIsZero(bs: seq<bool>)
    ensures TrueCount(bs) == 0 <==> forall i :: 0 <= i < |bs| ==> !bs[i]
  {
    if bs == [] {
    } else {
      NoneTrueWhenCountIsZero(bs[1..]);
      assert forall i :: 0 < i < |bs| ==> bs[i] == bs[1..][i - 1];
    }
  }

  lemma NotAnnotatedMeaning(f: FunctionInfo)
    requires Consistent(f)
    ensures f.status.NotAnnotated? <==>
              Weight(AnnotatedReturnCount, f) == 0 && Weight(AnnotatedParameterCount, f) == 0 && !AnnotatesSelf(f)
  {
    NoneTrueWhenCountIsZero(NonSelf(f.isMethod, f.params));
    if f.isMethod && f.params != [] {
      assert forall i :: 0 < i < |f.params| ==> f.params[i] == f.params[1..][i - 1];
    }
  }

  /** No function counts as annotated exactly when no return and no parameter does and no method
      annotates its implicit parameter. */
  lemma {:induction false} NothingAnnotatedWhenCountsAreZero(fs: seq<FunctionInfo>)
    requires forall f :: f in fs ==> Consistent(f)
    ensures Total(PartiallyAnnotatedFunctionCount, fs) + Total(FullyAnnotatedFunctionCount, fs) == 0 <==>
              Total(AnnotatedReturnCount, fs) == 0 && Total(AnnotatedParameterCount, fs) == 0
              && forall f :: f in fs ==> !AnnotatesSelf(f)
  {
    if fs == [] {
    } else {
      NothingAnnotatedWhenCountsAreZero(fs[1..]);
      NotAnnotatedMeaning(fs[0]);
      assert forall f :: f in fs <==> f == fs[0] || f in fs[1..];
    }
  }

  /** The last condition is needed: a method whose only annotation is on `self` is counted as
      partially annotated although no return and no parameter is counted as annotated. */
  lemma AnnotatedSelfIsNotCounted()
    ensures var f := Functions(Context([], 0, 0), ClassDef("C", [FunctionDef("m", [], false, [true], [])]));
            && Total(PartiallyAnnotatedFunctionCount, f) == 1
            && Total(AnnotatedReturnCount, f) == 0 && Total(AnnotatedParameterCount, f) == 0
  {
    var m := FunctionDef("m", [], false, [true], []);
    var inside := Context(["C"], 0, 0);
    assert [] + ["C"] == ["C"];
    assert AllFunctions(inside, [m]) == Functions(inside, m) + AllFunctions(inside, []);
    assert m.params[0];
    assert Functions(inside, m) == [FunctionInfo(Some("C"), "m", PartiallyAnnotated, false, [true], true)];
    var f := Functions(Context([], 0, 0), ClassDef("C", [m]));
    assert f == [FunctionInfo(Some("C"), "m", PartiallyAnnotated, false, [true], true)];
    assert NonSelf(true, [true]) == [];
  }

  // ----- Sums over modules

  function ToCountDict(fs: seq<FunctionInfo>): (r: map<CountKey, nat>)
    ensures r.Keys == KEYS
  {
    map k | k in KEYS :: Total(k, fs)
  }

  /** All functions of all modules; every module is visited by a new collector. */
  function OfModules(modules: seq<Node>): seq<FunctionInfo> {
    AllFunctions(Context([], 0, 0), modules)
  }

  method CollectStatistics(modules: seq<Node>) returns (data: seq<map<CountKey, nat>>)
    ensures |data| == |modules|
    ensures forall i :: 0 <= i < |data| ==> data[i] == ToCountDict(Functions(Context([], 0, 0), modules[i]))
  {
    data := [];
    for i := 0 to |modules|
      invariant |data| == i
      invariant forall j :: 0 <= j < i ==> data[j] == ToCountDict(Functions(Context([], 0, 0), modules[j]))
    {
      var collector := new AnnotationCollector();
      collector.Visit(modules[i]);
      assert collector.functions == Functions(Context([], 0, 0), modules[i]);
      data := data + [ToCountDict(collector.functions)];
    }
  }

  function Sum(data: seq<map<CountKey, nat>>, k: CountKey): nat
    requires forall i :: 0 <= i < |data| ==> k in data[i]
  {
    if data == [] then 0 else Sum(data[..|data| - 1], k) + data[|data| - 1][k]
  }

  method AggregateStatistics(data: seq<map<CountKey, nat>>) returns (aggregate: map<CountKey, nat>)
    requires forall i :: 0 <= i < |data| ==> data[i].Keys == KEYS
    ensures aggregate.Keys == KEYS
    ensures forall k :: k in KEYS ==> aggregate[k] == Sum(data, k)
  {
    aggregate := map k | k in KEYS :: 0;
    for i := 0 to |data|
      invariant aggregate.Keys == KEYS
      invariant forall k :: k in KEYS ==> aggregate[k] == Sum(data[..i], k)
    {
      ghost var before := aggregate;
      var rest := KEYS;
      while rest != {}
        invariant rest <= KEYS && aggregate.Keys == KEYS
        invariant forall k :: k in KEYS ==> aggregate[k] == before[k] + if k in rest then 0 else data[i][k]
      {
        var k :| k in rest;
        aggregate := aggregate[k := aggregate[k] + data[i][k]];
        rest := rest - {k};
      }
      assert data[..i + 1][..i] == data[..i];
    }
    assert data[..|data|] == data;
  }

  lemma {:induction false} SumIsTotal(modules: seq<Node>, data: seq<map<CountKey, nat>>, k: CountKey)
    requires |data| == |modules| && k in KEYS
    requires forall i :: 0 <= i < |data| ==> data[i] == ToCountDict(Functions(Context([], 0, 0), modules[i]))
    ensures forall i :: 0 <= i < |data| ==> data[i].Keys == KEYS
    ensures Sum(data, k) == Total(k, OfModules(modules))
  {
    if modules == [] {
    } else {
      var n := |modules| - 1;
      SumIsTotal(modules[..n], data[..n], k);
      ModulesAppend(modules, n);
      TotalAppend(k, OfModules(modules[..n]), Functions(Context([], 0, 0), modules[n]));
    }
  }

  lemma {:induction false} ModulesAppend(modules: seq<Node>, n: nat)
    requires n + 1 == |modules|
    ensures OfModules(modules) == OfModules(modules[..n]) + Functions(Context([], 0, 0), modules[n])
  {
    if n > 0 {
      ModulesAppend(modules[1..], n - 1);
      assert modules[1..][..n - 1] == modules[..n][1..];
    } else {
      assert AllFunctions(Context([], 0, 0), modules[1..]) == [];
    }
  }

  /** For every set of modules, the aggregated counts agree with the verdicts. */
  method Statistics(modules: seq<Node>) returns (totals: map<CountKey, nat>)
    ensures totals.Keys == KEYS
    ensures totals[FullyAnnotatedFunctionCount] == totals[FunctionCount] <==>
              totals[AnnotatedReturnCount] == totals[ReturnCount]
              && totals[AnnotatedParameterCount] == totals[ParameterCount]
    ensures totals[PartiallyAnnotatedFunctionCount] + totals[FullyAnnotatedFunctionCount] == 0 <==>
              totals[AnnotatedReturnCount] == 0 && totals[AnnotatedParameterCount] == 0
              && forall f :: f in OfModules(modules) ==> !AnnotatesSelf(f)
    ensures forall k :: k in KEYS ==> totals[k] == Total(k, OfModules(modules))
    ensures totals[FunctionCount] == totals[ReturnCount] == DefinitionCounts(modules)
  {
    var data := CollectStatistics(modules);
    totals := AggregateStatistics(data);
    forall k | k in KEYS ensures totals[k] == Total(k, OfModules(modules)) {
      SumIsTotal(modules, data, k);
    }
    AllConsistent(Context([], 0, 0), modules);
    FullyAnnotatedWhenCountsAgree(OfModules(modules));
    TotalOfFunctions(OfModules(modules));
    AllFunctionsAreCounted(Context([], 0, 0), modules);
    NothingAnnotatedWhenCountsAreZero(OfModules(modules));
  }
}
