/** Laws that relate the two searches, the union of call graphs and repeated queries
    (scripts/callgraph_utilities.py). */
module CallGraphLaws {
  import opened Outcomes
  import opened Routes
  import BackwardSearch
  import ForwardSearch

  // ----- Duality of the two searches

  lemma BackwardRouteIsCallPath(calls: Graph, callers: Graph, entrypoints: set<Name>, x: Name, w: Trace)
    requires BackwardSearch.Reverses(calls, callers) && Route(callers, {x}, entrypoints, w)
    ensures Route(calls, entrypoints, {x}, Reversed(w))
  {
  }

  lemma CallPathIsBackwardRoute(calls: Graph, callers: Graph, entrypoints: set<Name>, x: Name, w: Trace)
    requires BackwardSearch.Reverses(calls, callers)
    requires Route(calls, entrypoints, {x}, w) && Distinct(w)
    ensures Route(callers, {x}, entrypoints, Reversed(w))
  {
  }

  /** The forward search stores a callable exactly when the backward search from it finds an
      entrypoint, and then both traces have the same length. Self-references, which only the
      forward search sees, never matter. */
  lemma Duality(calls: Graph, callers: Graph, entrypoints: set<Name>, x: Name,
                forward: map<Name, Trace>, backward: Trace)
    requires BackwardSearch.Reverses(calls, callers)
    requires ForwardSearch.Answer(calls, entrypoints, forward)
    requires BackwardSearch.Answer(callers, entrypoints, x, backward)
    ensures x in forward <==> backward != []
    ensures x in forward ==> |forward[x]| == |backward|
  {
    if x in forward {
      var w := forward[x];
      ShortestIsSimple(calls, entrypoints, {x}, w);
      CallPathIsBackwardRoute(calls, callers, entrypoints, x, w);
      assert backward != [] && |backward| <= |w|;
    }
    if backward != [] {
      BackwardRouteIsCallPath(calls, callers, entrypoints, x, backward);
    }
  }

  // ----- Query history

  /** Over any run of queries, each of which keeps the edges and loses no key, the dictionary
      gains only empty entries, and an answer computed at any later time has the same emptiness
      and the same length as one computed at the outset. */
  lemma {:induction false} QueryHistory(history: seq<Graph>, entrypoints: set<Name>, x: Name,
                                        first: Trace, later: Trace)
    requires |history| > 0
    requires forall i :: 0 <= i < |history| - 1 ==>
               SameEdges(history[i + 1], history[i]) && history[i].Keys <= history[i + 1].Keys
    requires BackwardSearch.Answer(history[0], entrypoints, x, first)
    requires BackwardSearch.Answer(history[|history| - 1], entrypoints, x, later)
    ensures forall n :: n in history[|history| - 1] ==>
              history[|history| - 1][n] == if n in history[0] then history[0][n] else {}
    ensures first == [] <==> later == []
    ensures |first| == |later|
  {
    var last := history[|history| - 1];
    SameEdgesThroughout(history, |history| - 1);
    BackwardSearch.AnswerOfSameEdges(last, history[0], entrypoints, x, later);
    forall n | n in last ensures last[n] == if n in history[0] then history[0][n] else {} {
      assert At(last, n) == At(history[0], n);
    }
  }

  /** Any sequence of queries to one object. Every trace is right for the graph as it was at the
      outset, a name is refused only if it was not a key then, and all traces for the same name, in
      whichever queries, have the same length. The dictionary gains only empty entries. */
  method AskInTurn(graph: BackwardSearch.DependencyGraph, queries: seq<seq<Name>>)
    returns (answers: seq<map<Name, Option<Trace>>>)
    modifies graph`dependencyGraph
    ensures |answers| == |queries|
    ensures forall i :: 0 <= i < |queries| ==> answers[i].Keys == set c | c in queries[i]
    ensures forall i :: 0 <= i < |queries| ==>
              AnswersAreRight(old(graph.dependencyGraph), graph.entrypoints, answers[i])
    ensures forall i, j :: 0 <= i < j < |queries| ==> LengthsAgree(answers[i], answers[j])
    ensures graph.dependencyGraph.Keys >= old(graph.dependencyGraph).Keys
    ensures forall n :: n in graph.dependencyGraph ==> graph.dependencyGraph[n] == At(old(graph.dependencyGraph), n)
  {
    answers := [];
    ghost var g := graph.dependencyGraph;
    for k := 0 to |queries|
      invariant |answers| == k && forall i :: 0 <= i < k ==> answers[i].Keys == set c | c in queries[i]
      invariant forall i :: 0 <= i < k ==> AnswersAreRight(g, graph.entrypoints, answers[i])
      invariant SameEdges(graph.dependencyGraph, g) && g.Keys <= graph.dependencyGraph.Keys
    {
      ghost var before := graph.dependencyGraph;
      var answer := graph.FindTracesForCallees(queries[k]);
      SameEdgesTransitive(graph.dependencyGraph, before, g);
      forall c | c in answer && answer[c].Some?
        ensures BackwardSearch.Answer(g, graph.entrypoints, c, answer[c].value)
      {
        BackwardSearch.AnswerOfSameEdges(before, g, graph.entrypoints, c, answer[c].value);
      }
      answers := answers + [answer];
    }
    forall i, j | 0 <= i < j < |queries| ensures LengthsAgree(answers[i], answers[j]) {
      RightAnswersAgree(g, graph.entrypoints, answers[i], answers[j]);
    }
    assert forall n :: At(graph.dependencyGraph, n) == At(g, n);
  }

  ghost predicate AnswersAreRight(g: Graph, entrypoints: set<Name>, answers: map<Name, Option<Trace>>) {
    forall c :: c in answers ==>
      match answers[c]
      case None => c !in g
      case Some(t) => BackwardSearch.Answer(g, entrypoints, c, t)
  }

  ghost predicate LengthsAgree(a: map<Name, Option<Trace>>, b: map<Name, Option<Trace>>) {
    forall c :: c in a && c in b && a[c].Some? && b[c].Some? ==> |a[c].value| == |b[c].value|
  }

  lemma RightAnswersAgree(g: Graph, entrypoints: set<Name>, a: map<Name, Option<Trace>>, b: map<Name, Option<Trace>>)
    requires AnswersAreRight(g, entrypoints, a) && AnswersAreRight(g, entrypoints, b)
    ensures LengthsAgree(a, b)
  {
    forall c | c in a && c in b && a[c].Some? && b[c].Some? ensures |a[c].value| == |b[c].value| {
      QueryHistory([g], entrypoints, c, a[c].value, b[c].value);
    }
  }

  lemma {:induction false} SameEdgesThroughout(history: seq<Graph>, k: nat)
    requires k < |history|
    requires forall i :: 0 <= i < |history| - 1 ==> SameEdges(history[i + 1], history[i])
    ensures SameEdges(history[k], history[0])
  {
    if k == 0 {
    } else {
      SameEdgesThroughout(history, k - 1);
      assert SameEdges(history[k - 1 + 1], history[k - 1]);
      SameEdgesTransitive(history[k], history[k - 1], history[0]);
    }
  }

  // ----- Union of call graphs

  function Union(g: Graph, h: Graph): Graph {
    map n | n in g.Keys + h.Keys :: At(g, n) + At(h, n)
  }

  /** What folding a list of graphs should mean, pointwise. */
  ghost predicate IsUnionOf(u: Graph, gs: seq<Graph>) {
    && (forall n :: n in u <==> exists i :: 0 <= i < |gs| && n in gs[i])
    && (forall n, m :: m in At(u, n) <==> exists i :: 0 <= i < |gs| && m in At(gs[i], n))
  }

  class UnionCallGraphFormat {
    var callGraph: Graph

    constructor ()
      ensures callGraph == map[]
    {
      callGraph := map[];
    }

    /** Adds one graph: in place when something is there already, a copy otherwise. */
    method UnionCallGraph(g: Graph)
      modifies this
      ensures callGraph == Union(old(callGraph), g)
    {
      if callGraph != map[] {
        var rest := g.Keys;
        ghost var before := callGraph;
        while rest != {}
          invariant rest <= g.Keys
          invariant callGraph.Keys == before.Keys + (g.Keys - rest)
          invariant forall n :: n in callGraph ==>
            callGraph[n] == At(before, n) + if n in rest then {} else At(g, n)
        {
          var k :| k in rest;
          callGraph := callGraph[k := At(callGraph, k) + g[k]];
          rest := rest - {k};
        }
      } else {
        callGraph := g;
        assert forall n :: n in g ==> {} + At(g, n) == g[n];
      }
    }
  }

  /** `get_union_callgraph_format` on graphs that are already parsed. */
  method UnionAll(gs: seq<Graph>) returns (u: Graph)
    ensures IsUnionOf(u, gs)
  {
    var format := new UnionCallGraphFormat();
    for k := 0 to |gs|
      invariant IsUnionOf(format.callGraph, gs[..k])
    {
      UnionStep(format.callGraph, gs, k);
      format.UnionCallGraph(gs[k]);
    }
    assert gs[..|gs|] == gs;
    u := format.callGraph;
  }

  lemma UnionStep(u: Graph, gs: seq<Graph>, k: nat)
    requires k < |gs| && IsUnionOf(u, gs[..k])
    ensures IsUnionOf(Union(u, gs[k]), gs[..k + 1])
  {
    var u', prefix := Union(u, gs[k]), gs[..k + 1];
    assert forall i :: 0 <= i < k ==> prefix[i] == gs[..k][i];
    assert prefix[k] == gs[k];
    forall n ensures n in u' <==> exists i :: 0 <= i < |prefix| && n in prefix[i] {
      if n in u {
        var i :| 0 <= i < k && n in gs[..k][i];
        assert n in prefix[i];
      }
    }
    forall n, m ensures m in At(u', n) <==> exists i :: 0 <= i < |prefix| && m in At(prefix[i], n) {
      assert m in At(u', n) <==> m in At(u, n) || m in At(gs[k], n);
      if m in At(u, n) {
        var i :| 0 <= i < k && m in At(gs[..k][i], n);
        assert m in At(prefix[i], n);
      }
    }
  }

  /** The union does not depend on order, repetition or graphs that are empty. */
  lemma UnionIgnoresOrder(gs: seq<Graph>, hs: seq<Graph>, u: Graph, v: Graph)
    requires forall g :: g != map[] ==> (g in gs <==> g in hs)
    requires IsUnionOf(u, gs) && IsUnionOf(v, hs)
    ensures u == v
  {
    UnionIncluded(gs, hs, u, v);
    UnionIncluded(hs, gs, v, u);
    forall n | n in u ensures u[n] == v[n] {
      assert At(u, n) == At(v, n);
    }
  }

  lemma UnionIncluded(gs: seq<Graph>, hs: seq<Graph>, u: Graph, v: Graph)
    requires forall g :: g != map[] && g in gs ==> g in hs
    requires IsUnionOf(u, gs) && IsUnionOf(v, hs)
    ensures u.Keys <= v.Keys
    ensures forall n :: At(u, n) <= At(v, n)
  {
    forall n | n in u ensures n in v {
      var i :| 0 <= i < |gs| && n in gs[i];
      assert gs[i] in gs && gs[i] != map[];
      var j :| 0 <= j < |hs| && hs[j] == gs[i];
      assert n in hs[j];
    }
    forall n, m | m in At(u, n) ensures m in At(v, n) {
      var i :| 0 <= i < |gs| && m in At(gs[i], n);
      assert gs[i] in gs && gs[i] != map[];
      var j :| 0 <= j < |hs| && hs[j] == gs[i];
      assert m in At(hs[j], n);
    }
  }

  /** For fixed entrypoints, adding graphs never loses a reachable callable and never lengthens
      the trace stored for it. */
  lemma UnionIsMonotone(gs: seq<Graph>, hs: seq<Graph>, u: Graph, v: Graph, entrypoints: set<Name>,
                        small: map<Name, Trace>, large: map<Name, Trace>)
    requires forall g :: g in gs ==> g in hs
    requires IsUnionOf(u, gs) && IsUnionOf(v, hs)
    requires ForwardSearch.Answer(u, entrypoints, small)
    requires ForwardSearch.Answer(v, entrypoints, large)
    ensures forall x :: x in small ==> x in large && |large[x]| <= |small[x]|
  {
    UnionIncluded(gs, hs, u, v);
    forall x | x in small ensures x in large && |large[x]| <= |small[x]| {
      assert Route(v, entrypoints, {x}, small[x]);
    }
  }
}
