/** Routes in a finite directed graph, independent of any search algorithm.

    A graph maps a name to the set of its neighbours. The call graph maps a caller
    to its callees; the dependency graph maps a callee to its callers. */
module Routes {

  /** Fully qualified callable names: only equality matters. */
  type Name(==, !new)

  type Graph = map<Name, set<Name>>

  type Trace = seq<Name>

  /** What a `defaultdict(set)` answers, without the entry that the lookup inserts. */
  function At(g: Graph, n: Name): set<Name> {
    if n in g then g[n] else {}
  }

  ghost predicate Walk(g: Graph, w: seq<Name>) {
    && |w| > 0
    && forall i :: 0 <= i < |w| - 1 ==> w[i + 1] in At(g, w[i])
  }

  ghost predicate Route(g: Graph, from: set<Name>, to: set<Name>, w: seq<Name>) {
    Walk(g, w) && w[0] in from && w[|w| - 1] in to
  }

  ghost predicate Shortest(g: Graph, from: set<Name>, to: set<Name>, w: seq<Name>) {
    Route(g, from, to, w) && forall v :: Route(g, from, to, v) ==> |w| <= |v|
  }

  /** Two graphs with the same neighbours everywhere, though perhaps not the same keys. */
  ghost predicate SameEdges(g: Graph, h: Graph) {
    forall n :: At(g, n) == At(h, n)
  }

  lemma SameEdgesTransitive(f: Graph, g: Graph, h: Graph)
    requires SameEdges(f, g) && SameEdges(g, h)
    ensures SameEdges(f, h)
  {
  }

  ghost predicate Distinct<T>(w: seq<T>) {
    forall i, j :: 0 <= i < j < |w| ==> w[i] != w[j]
  }

  /** Every name that an edge leads to. */
  ghost function Targets(g: Graph): set<Name> {
    set a, b | a in g && b in g[a] :: b
  }

  lemma ExtendWalk(g: Graph, w: seq<Name>, n: Name)
    requires Walk(g, w) && n in At(g, w[|w| - 1])
    ensures Walk(g, w + [n])
  {
  }

  lemma RouteEndsInTarget(g: Graph, from: set<Name>, n: Name, w: seq<Name>)
    requires Route(g, from, {n}, w)
    ensures n in from + Targets(g)
  {
    if |w| > 1 {
      assert w[|w| - 2 + 1] in At(g, w[|w| - 2]);
    }
  }

  /** Removing the loop between two visits of one node leaves a shorter route. */
  lemma CutLoop(g: Graph, from: set<Name>, to: set<Name>, w: seq<Name>, i: nat, j: nat)
    requires Route(g, from, to, w) && i < j < |w|
    requires w[i] == w[j]
    ensures Route(g, from, to, w[..i] + w[j..])
  {
  }

  /** A shortest route visits no node twice. */
  lemma ShortestIsSimple(g: Graph, from: set<Name>, to: set<Name>, w: seq<Name>)
    requires Shortest(g, from, to, w)
    ensures Distinct(w)
  {
    forall i, j | 0 <= i < j < |w| ensures w[i] != w[j] {
      if w[i] == w[j] {
        CutLoop(g, from, to, w, i, j);
      }
    }
  }

  /** A route depends on the edges alone, not on which keys are present. */
  lemma RouteOfSameEdges(g: Graph, h: Graph, from: set<Name>, to: set<Name>, w: seq<Name>)
    requires SameEdges(g, h)
    ensures Route(g, from, to, w) <==> Route(h, from, to, w)
  {
  }

  function Reversed(w: seq<Name>): (r: seq<Name>)
    ensures |r| == |w|
    ensures forall i :: 0 <= i < |w| ==> r[i] == w[|w| - 1 - i]
  {
    seq(|w|, i requires 0 <= i < |w| => w[|w| - 1 - i])
  }
}
