/** `DependencyGraph` of scripts/callgraph_utilities.py: breadth-first search from a
    callee, through its callers, to the nearest entrypoint. */
module BackwardSearch {
  import opened Routes
  import opened Outcomes

  /** What the search promises about the trace it returns; `[]` means there is none. */
  ghost predicate Answer(callers: Graph, entrypoints: set<Name>, start: Name, t: Trace) {
    if t == [] then
      forall w :: !Route(callers, {start}, entrypoints, w)
    else
      Shortest(callers, {start}, entrypoints, t) && Distinct(t)
  }

  lemma AnswerOfSameEdges(g: Graph, h: Graph, entrypoints: set<Name>, start: Name, t: Trace)
    requires SameEdges(g, h) && Answer(g, entrypoints, start, t)
    ensures Answer(h, entrypoints, start, t)
  {
    forall w ensures Route(g, {start}, entrypoints, w) <==> Route(h, {start}, entrypoints, w) {
      RouteOfSameEdges(g, h, {start}, entrypoints, w);
    }
  }

  /** `callers` is the call graph turned around, without self-references. */
  ghost predicate Reverses(calls: Graph, callers: Graph) {
    forall a, b :: a in At(callers, b) <==> a != b && b in At(calls, a)
  }

  ghost function Last(w: Trace): Name
    requires w != []
  {
    w[|w| - 1]
  }

  /** Queue discipline: path lengths are `level` or `level + 1`, the shorter ones first. */
  ghost predicate Levelled(queue: seq<Trace>, level: nat) {
    && (forall i :: 0 <= i < |queue| ==> level <= |queue[i]| <= level + 1)
    && (forall i, j :: 0 <= i < j < |queue| ==> |queue[i]| <= |queue[j]|)
  }

  ghost predicate Queued(queue: seq<Trace>, n: Name, length: nat) {
    exists i :: 0 <= i < |queue| && |queue[i]| == length && length > 0 && Last(queue[i]) == n
  }

  /** The node's neighbours were all discovered, at most one step further out. */
  ghost predicate Closed(g: Graph, depth: map<Name, nat>, n: Name)
    requires n in depth
  {
    forall b :: b in At(g, n) ==> b in depth && depth[b] <= depth[n] + 1
  }

  /** The loop invariant. `depth` gives the number of nodes on the path by which each node
      was discovered; `open` holds the node being expanded, if any. The start node has depth 1
      from the outset although the search does not mark it visited, so that a cycle can queue
      it a second time with a longer path. */
  ghost predicate Frontier(g: Graph, start: Name, entrypoints: set<Name>, visited: set<Name>,
                           queue: seq<Trace>, depth: map<Name, nat>, level: nat, open: set<Name>)
  {
    && depth.Keys == visited + {start} && depth[start] == 1
    && depth.Keys !! entrypoints
    && Levelled(queue, level)
    && (forall i :: 0 <= i < |queue| ==>
          Walk(g, queue[i]) && queue[i][0] == start
          && Last(queue[i]) in depth && depth[Last(queue[i])] <= |queue[i]|)
    && (forall n :: n in depth ==> depth[n] <= level + 1)
    && (forall n :: n in depth && n !in open ==> Closed(g, depth, n) || Queued(queue, n, depth[n]))
  }

  /** The invariant while the callers of the last node of `path` are being visited. */
  ghost predicate Expanding(g: Graph, start: Name, entrypoints: set<Name>, visited: set<Name>,
                            queue: seq<Trace>, depth: map<Name, nat>, path: Trace)
  {
    && Walk(g, path) && path[0] == start
    && Frontier(g, start, entrypoints, visited, queue, depth, |path|, {Last(path)})
    && Last(path) in depth && (Closed(g, depth, Last(path)) || depth[Last(path)] == |path|)
    && (forall m :: m in depth && depth[m] < |path| ==> Closed(g, depth, m))
  }

  /** Nodes closer than `level` are all discovered by any walk that stays that short. */
  lemma {:induction false} WalkStaysDiscovered(g: Graph, depth: map<Name, nat>, level: nat, w: Trace, k: nat)
    requires Walk(g, w) && w[0] in depth && depth[w[0]] == 1
    requires forall n :: n in depth && depth[n] < level ==> Closed(g, depth, n)
    requires k < |w| && k < level
    ensures w[k] in depth && depth[w[k]] <= k + 1
  {
    if k == 0 {
    } else {
      WalkStaysDiscovered(g, depth, level, w, k - 1);
      assert Closed(g, depth, w[k - 1]);
    }
  }

  lemma InitialFrontier(g: Graph, start: Name, entrypoints: set<Name>)
    requires start !in entrypoints
    ensures Frontier(g, start, entrypoints, {}, [[start]], map[start := 1], 1, {})
  {
    var queue := [[start]];
    assert Queued(queue, start, 1) by { assert Last(queue[0]) == start; }
  }

  /** Taking the first path off the queue opens its last node. */
  lemma Pop(g: Graph, start: Name, entrypoints: set<Name>, visited: set<Name>,
            queue: seq<Trace>, depth: map<Name, nat>, level: nat)
    requires Frontier(g, start, entrypoints, visited, queue, depth, level, {})
    requires queue != []
    ensures Expanding(g, start, entrypoints, visited, queue[1..], depth, queue[0])
  {
  }

  lemma StillQueued(queue: seq<Trace>, path: Trace, m: Name, length: nat)
    requires Queued(queue, m, length)
    ensures Queued(queue + [path], m, length)
  {
    var i :| 0 <= i < |queue| && |queue[i]| == length && Last(queue[i]) == m;
    assert (queue + [path])[i] == queue[i];
  }

  /** The extended path joins the queue. */
  lemma Enqueued(g: Graph, queue: seq<Trace>, path: Trace, caller: Name)
    requires Walk(g, path) && caller in At(g, Last(path)) && Levelled(queue, |path|)
    ensures Walk(g, path + [caller]) && Levelled(queue + [path + [caller]], |path|)
    ensures Queued(queue + [path + [caller]], caller, |path| + 1)
  {
    ExtendWalk(g, path, caller);
    assert Last((queue + [path + [caller]])[|queue|]) == caller;
  }

  /** Discovering one more caller keeps the invariant. */
  lemma Push(g: Graph, start: Name, entrypoints: set<Name>, visited: set<Name>,
             queue: seq<Trace>, depth: map<Name, nat>, path: Trace, caller: Name)
    requires Expanding(g, start, entrypoints, visited, queue, depth, path)
    requires caller in At(g, Last(path)) && caller !in entrypoints && caller !in visited
    ensures Expanding(g, start, entrypoints, visited + {caller}, queue + [path + [caller]],
                      if caller in depth then depth else depth[caller := |path| + 1], path)
  {
    var depth' := if caller in depth then depth else depth[caller := |path| + 1];
    var queue' := queue + [path + [caller]];
    Enqueued(g, queue, path, caller);
    forall m | m in depth' && m != Last(path)
      ensures Closed(g, depth', m) || Queued(queue', m, depth'[m])
    {
      if m in depth && !Closed(g, depth, m) {
        StillQueued(queue, path + [caller], m, depth[m]);
      }
    }
  }

  /** Once every caller is visited the open node is closed. */
  lemma CloseNode(g: Graph, start: Name, entrypoints: set<Name>, visited: set<Name>,
                  queue: seq<Trace>, depth: map<Name, nat>, path: Trace)
    requires Expanding(g, start, entrypoints, visited, queue, depth, path)
    requires At(g, Last(path)) <= visited
    ensures Frontier(g, start, entrypoints, visited, queue, depth, |path|, {})
  {
  }

  /** The first entrypoint discovered ends a shortest trace. */
  lemma FoundShortest(g: Graph, start: Name, entrypoints: set<Name>, visited: set<Name>,
                      queue: seq<Trace>, depth: map<Name, nat>, path: Trace, caller: Name)
    requires Expanding(g, start, entrypoints, visited, queue, depth, path)
    requires caller in At(g, Last(path)) && caller in entrypoints
    ensures Answer(g, entrypoints, start, path + [caller])
  {
    var t := path + [caller];
    ExtendWalk(g, path, caller);
    forall w | Route(g, {start}, entrypoints, w) ensures |t| <= |w| {
      if |w| <= |path| {
        WalkStaysDiscovered(g, depth, |path|, w, |w| - 1);
        assert false;
      }
    }
    ShortestIsSimple(g, {start}, entrypoints, t);
  }

  /** An exhausted queue means that no entrypoint reaches the start. */
  lemma NoneReachable(g: Graph, start: Name, entrypoints: set<Name>, visited: set<Name>,
                      depth: map<Name, nat>, level: nat)
    requires Frontier(g, start, entrypoints, visited, [], depth, level, {})
    ensures Answer(g, entrypoints, start, [])
  {
    forall w ensures !Route(g, {start}, entrypoints, w) {
      if Route(g, {start}, entrypoints, w) {
        WalkStaysDiscovered(g, depth, |w|, w, |w| - 1);
        assert false;
      }
    }
  }

  /** The inner loop: visits the callers of the last node of `path`, in any order. A nonempty
      `trace` is the early return from inside the loop. */
  method VisitCallers(ghost g: Graph, ghost start: Name, entrypoints: set<Name>, callers: set<Name>, path: Trace,
                      visited: set<Name>, queue: seq<Trace>, ghost depth: map<Name, nat>)
    returns (trace: Trace, visited': set<Name>, queue': seq<Trace>, ghost depth': map<Name, nat>)
    requires Expanding(g, start, entrypoints, visited, queue, depth, path)
    requires callers == At(g, Last(path))
    ensures trace != [] ==> Answer(g, entrypoints, start, trace)
    ensures trace == [] ==> Frontier(g, start, entrypoints, visited', queue', depth', |path|, {})
    ensures visited <= visited' <= visited + callers
    ensures visited' == visited ==> queue' == queue
  {
    trace, visited', queue', depth' := [], visited, queue, depth;
    var rest := callers;
    while rest != {}
      invariant rest <= callers <= visited' + rest
      invariant visited <= visited' <= visited + callers
      invariant visited' == visited ==> queue' == queue
      invariant Expanding(g, start, entrypoints, visited', queue', depth', path)
    {
      var caller :| caller in rest;
      rest := rest - {caller};
      if caller in visited' {
        continue;
      }
      if caller in entrypoints {
        FoundShortest(g, start, entrypoints, visited', queue', depth', path, caller);
        trace := path + [caller];
        return;
      }
      Push(g, start, entrypoints, visited', queue', depth', path, caller);
      visited' := visited' + {caller};
      queue' := queue' + [path + [caller]];
      depth' := if caller in depth' then depth' else depth'[caller := |path| + 1];
    }
    CloseNode(g, start, entrypoints, visited', queue', depth', path);
  }

  class DependencyGraph {
    var dependencyGraph: Graph
    const entrypoints: set<Name>

    constructor (calls: Graph, entrypoints: set<Name>)
      ensures this.entrypoints == entrypoints
      ensures Reverses(calls, dependencyGraph)
      ensures forall b :: b in dependencyGraph <==> exists a :: a != b && b in At(calls, a)
    {
      this.entrypoints := entrypoints;
      dependencyGraph := map[];
      new;
      var callers := calls.Keys;
      while callers != {}
        invariant callers <= calls.Keys
        invariant forall a, b :: a in At(dependencyGraph, b) <==> a !in callers && a != b && b in At(calls, a)
        invariant forall b :: b in dependencyGraph ==> dependencyGraph[b] != {}
      {
        var caller :| caller in callers;
        callers := callers - {caller};
        AddCaller(caller, calls[caller]);
      }
      forall b ensures b in dependencyGraph <==> exists a :: a != b && b in At(calls, a) {
        if b in dependencyGraph {
          var a :| a in dependencyGraph[b];
          assert a in At(dependencyGraph, b);
        }
        if a :| a != b && b in At(calls, a) {
          assert a in At(dependencyGraph, b);
        }
      }
    }

    /** The inner loop of the constructor: one caller, self-references skipped. */
    method AddCaller(caller: Name, callees: set<Name>)
      requires forall b :: b in dependencyGraph ==> dependencyGraph[b] != {}
      modifies this`dependencyGraph
      ensures forall a, b :: a in At(dependencyGraph, b) <==>
                a in At(old(dependencyGraph), b) || (a == caller && a != b && b in callees)
      ensures forall b :: b in dependencyGraph ==> dependencyGraph[b] != {}
    {
      var rest := callees;
      while rest != {}
        invariant rest <= callees
        invariant forall a, b :: a in At(dependencyGraph, b) <==>
                    a in At(old(dependencyGraph), b) || (a == caller && a != b && b in callees && b !in rest)
        invariant forall b :: b in dependencyGraph ==> dependencyGraph[b] != {}
      {
        var callee :| callee in rest;
        rest := rest - {callee};
        if caller != callee {
          ghost var before := dependencyGraph;
          dependencyGraph := dependencyGraph[callee := At(dependencyGraph, callee) + {caller}];
          assert forall a, b :: a in At(dependencyGraph, b) <==>
            a in At(before, b) || (a == caller && b == callee);
        }
      }
    }

    /** The lookup `self.dependency_graph[n]`: a missing key is inserted with no callers. */
    method Lookup(n: Name) returns (callers: set<Name>)
      modifies this`dependencyGraph
      ensures callers == At(old(dependencyGraph), n)
      ensures dependencyGraph.Keys == old(dependencyGraph).Keys + {n}
      ensures SameEdges(dependencyGraph, old(dependencyGraph))
    {
      if n !in dependencyGraph {
        dependencyGraph := dependencyGraph[n := {}];
      }
      callers := dependencyGraph[n];
    }

    method FindShortestTraceToEntrypoint(start: Name) returns (trace: Trace)
      modifies this`dependencyGraph
      ensures Answer(old(dependencyGraph), entrypoints, start, trace)
      ensures SameEdges(dependencyGraph, old(dependencyGraph))
      ensures old(dependencyGraph).Keys <= dependencyGraph.Keys
    {
      ghost var g := dependencyGraph;
      if start in entrypoints {
        return [start];
      }
      var queue: seq<Trace>, visited: set<Name> := [[start]], {};
      ghost var depth: map<Name, nat>, level: nat := map[start := 1], 1;
      InitialFrontier(g, start, entrypoints);
      while queue != []
        invariant SameEdges(dependencyGraph, g) && g.Keys <= dependencyGraph.Keys
        invariant Frontier(g, start, entrypoints, visited, queue, depth, level, {})
        decreases Targets(g) - visited, |queue|
      {
        Pop(g, start, entrypoints, visited, queue, depth, level);
        ghost var before := dependencyGraph;
        var path := queue[0];
        var callers := Lookup(path[|path| - 1]);
        SameEdgesTransitive(dependencyGraph, before, g);
        level := |path|;
        var visited', queue';
        trace, visited', queue', depth :=
          VisitCallers(g, start, entrypoints, callers, path, visited, queue[1..], depth);
        if trace != [] {
          return;
        }
        visited, queue := visited', queue';
      }
      NoneReachable(g, start, entrypoints, visited, depth, level);
      return [];
    }

    /** Traces for several names; a name without an entry in the dictionary gets `None`. */
    method FindTracesForCallees(callees: seq<Name>) returns (result: map<Name, Option<Trace>>)
      modifies this`dependencyGraph
      ensures result.Keys == set c | c in callees
      ensures forall c :: c in result && result[c].Some? ==>
                Answer(old(dependencyGraph), entrypoints, c, result[c].value)
      ensures forall c :: c in result && result[c].None? ==> c !in old(dependencyGraph)
      ensures SameEdges(dependencyGraph, old(dependencyGraph))
      ensures old(dependencyGraph).Keys <= dependencyGraph.Keys
    {
      result := map[];
      ghost var g := dependencyGraph;
      for k := 0 to |callees|
        invariant SameEdges(dependencyGraph, g) && g.Keys <= dependencyGraph.Keys
        invariant result.Keys == set c | c in callees[..k]
        invariant forall c :: c in result && result[c].Some? ==> Answer(g, entrypoints, c, result[c].value)
        invariant forall c :: c in result && result[c].None? ==> c !in g
      {
        var callee := callees[k];
        assert callees[..k + 1] == callees[..k] + [callee];
        if callee in dependencyGraph && callee !in result {
          ghost var before := dependencyGraph;
          var trace := FindShortestTraceToEntrypoint(callee);
          SameEdgesTransitive(dependencyGraph, before, g);
          AnswerOfSameEdges(before, g, entrypoints, callee, trace);
          result := result[callee := Some(trace)];
        } else if callee !in result {
          result := result[callee := None];
        }
      }
      assert callees[..|callees|] == callees;
    }
  }
}
