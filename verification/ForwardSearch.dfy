/** `CallGraph.get_transitive_callees_and_traces` of scripts/callgraph_utilities.py:
    breadth-first search from all entrypoints at once, one stored trace per callable. */
module ForwardSearch {
  import opened Routes

  datatype Entry = Entry(callable: Name, trace: Trace)

  /** What the search promises: exactly the reachable callables, each with a shortest call path. */
  ghost predicate Answer(calls: Graph, entrypoints: set<Name>, result: map<Name, Trace>) {
    && (forall x :: x in result ==> Shortest(calls, entrypoints, {x}, result[x]))
    && (forall x, w :: Route(calls, entrypoints, {x}, w) ==> x in result)
  }

  ghost predicate Levelled(queue: seq<Entry>, level: nat) {
    && (forall i :: 0 <= i < |queue| ==> level <= |queue[i].trace| <= level + 1)
    && (forall i, j :: 0 <= i < j < |queue| ==> |queue[i].trace| <= |queue[j].trace|)
  }

  /** `x` has, or is bound to get, a trace of at most `length` nodes. */
  ghost predicate Promised(queue: seq<Entry>, result: map<Name, Trace>, x: Name, length: nat) {
    || (x in result && |result[x]| <= length)
    || exists i :: 0 <= i < |queue| && queue[i].callable == x && |queue[i].trace| <= length
  }

  /** The loop invariant. Nothing here speaks of shortest traces: the promises, kept when the
      queue is empty, imply them. */
  ghost predicate Pending(calls: Graph, entrypoints: set<Name>, queue: seq<Entry>,
                          result: map<Name, Trace>, level: nat)
  {
    && Levelled(queue, level)
    && (forall i :: 0 <= i < |queue| ==> Route(calls, entrypoints, {queue[i].callable}, queue[i].trace))
    && (forall x :: x in result ==> Route(calls, entrypoints, {x}, result[x]) && |result[x]| <= level)
    && (forall e :: e in entrypoints ==> Promised(queue, result, e, 1))
    && (forall a, b :: a in result && b in At(calls, a) ==> Promised(queue, result, b, |result[a]| + 1))
  }

  lemma PromiseAfterPop(queue: seq<Entry>, result: map<Name, Trace>, result': map<Name, Trace>, x: Name, n: nat)
    requires queue != [] && Promised(queue, result, x, n)
    requires forall y :: y in result ==> y in result' && result'[y] == result[y]
    requires queue[0].callable in result' && |result'[queue[0].callable]| <= |queue[0].trace|
    ensures Promised(queue[1..], result', x, n)
  {
  }

  lemma PromiseAfterAppend(queue: seq<Entry>, more: seq<Entry>, result: map<Name, Trace>, x: Name, n: nat)
    requires Promised(queue, result, x, n)
    ensures Promised(queue + more, result, x, n)
  {
    if !(x in result && |result[x]| <= n) {
      var i :| 0 <= i < |queue| && queue[i].callable == x && |queue[i].trace| <= n;
      assert (queue + more)[i] == queue[i];
    }
  }

  /** Popping a callable that already has a trace drops a duplicate. */
  lemma DropDuplicate(calls: Graph, entrypoints: set<Name>, queue: seq<Entry>, result: map<Name, Trace>, level: nat)
    requires Pending(calls, entrypoints, queue, result, level)
    requires queue != [] && queue[0].callable in result
    ensures Pending(calls, entrypoints, queue[1..], result, level)
  {
  }

  /** `more` are the queue entries for the callees of a callable whose trace is `trace`. */
  ghost predicate Successors(callees: set<Name>, trace: Trace, more: seq<Entry>) {
    && (forall i :: 0 <= i < |more| ==> more[i].callable in callees && more[i].trace == trace + [more[i].callable])
    && (forall b :: b in callees ==> exists i :: 0 <= i < |more| && more[i].callable == b)
  }

  lemma QueueAfterStore(calls: Graph, entrypoints: set<Name>, queue: seq<Entry>, more: seq<Entry>, level: nat)
    requires queue != [] && Levelled(queue, level)
    requires forall i :: 0 <= i < |queue| ==> Route(calls, entrypoints, {queue[i].callable}, queue[i].trace)
    requires Successors(At(calls, queue[0].callable), queue[0].trace, more)
    ensures Levelled(queue[1..] + more, |queue[0].trace|)
    ensures forall i :: 0 <= i < |more| ==> Route(calls, entrypoints, {more[i].callable}, more[i].trace)
  {
  }

  /** Every promise survives, and the callees of the stored callable get theirs. */
  lemma PromisesAfterStore(calls: Graph, queue: seq<Entry>, result: map<Name, Trace>, more: seq<Entry>, x: Name, n: nat)
    requires queue != [] && queue[0].callable !in result
    requires Successors(At(calls, queue[0].callable), queue[0].trace, more)
    requires Promised(queue, result, x, n) || (x in At(calls, queue[0].callable) && n == |queue[0].trace| + 1)
    ensures Promised(queue[1..] + more, result[queue[0].callable := queue[0].trace], x, n)
  {
    var Entry(callable, trace) := queue[0];
    var result' := result[callable := trace];
    if Promised(queue, result, x, n) {
      PromiseAfterPop(queue, result, result', x, n);
      PromiseAfterAppend(queue[1..], more, result', x, n);
    } else {
      var i :| 0 <= i < |more| && more[i].callable == x;
      assert (queue[1..] + more)[|queue| - 1 + i] == more[i];
    }
  }

  /** Storing a trace and queueing the callees. */
  lemma StoreTrace(calls: Graph, entrypoints: set<Name>, queue: seq<Entry>, result: map<Name, Trace>,
                   level: nat, more: seq<Entry>)
    requires Pending(calls, entrypoints, queue, result, level)
    requires queue != [] && queue[0].callable !in result
    requires Successors(At(calls, queue[0].callable), queue[0].trace, more)
    ensures Pending(calls, entrypoints, queue[1..] + more,
                    result[queue[0].callable := queue[0].trace], |queue[0].trace|)
  {
    var result', queue' := result[queue[0].callable := queue[0].trace], queue[1..] + more;
    QueueAfterStore(calls, entrypoints, queue, more, level);
    forall e | e in entrypoints ensures Promised(queue', result', e, 1) {
      PromisesAfterStore(calls, queue, result, more, e, 1);
    }
    forall a, b | a in result' && b in At(calls, a) ensures Promised(queue', result', b, |result'[a]| + 1) {
      PromisesAfterStore(calls, queue, result, more, b, |result'[a]| + 1);
    }
  }

  lemma {:induction false} WalkIsStored(calls: Graph, entrypoints: set<Name>, result: map<Name, Trace>,
                                        level: nat, w: Trace, k: nat)
    requires Pending(calls, entrypoints, [], result, level)
    requires Walk(calls, w) && w[0] in entrypoints && k < |w|
    ensures w[k] in result && |result[w[k]]| <= k + 1
  {
    if k == 0 {
      assert Promised([], result, w[0], 1);
    } else {
      WalkIsStored(calls, entrypoints, result, level, w, k - 1);
      assert Promised([], result, w[k], |result[w[k - 1]]| + 1);
    }
  }

  lemma PromisesKept(calls: Graph, entrypoints: set<Name>, result: map<Name, Trace>, level: nat)
    requires Pending(calls, entrypoints, [], result, level)
    ensures Answer(calls, entrypoints, result)
  {
    forall x, w | Route(calls, entrypoints, {x}, w) ensures x in result && |result[x]| <= |w| {
      WalkIsStored(calls, entrypoints, result, level, w, |w| - 1);
    }
  }

  /** The list comprehension over a set: one entry per member, in any order. */
  method Enqueue(callees: set<Name>, trace: Trace) returns (more: seq<Entry>)
    ensures Successors(callees, trace, more)
  {
    more := [];
    var rest := callees;
    while rest != {}
      invariant rest <= callees
      invariant Successors(callees - rest, trace, more)
    {
      var b :| b in rest;
      ghost var before, done := more, callees - rest;
      rest := rest - {b};
      more := more + [Entry(b, trace + [b])];
      forall c | c in callees - rest ensures exists i :: 0 <= i < |more| && more[i].callable == c {
        if c == b {
          assert more[|before|].callable == b;
        } else {
          assert c in done;
          var i :| 0 <= i < |before| && before[i].callable == c;
          assert more[i].callable == c;
        }
      }
    }
    assert callees - rest == callees;
  }

  lemma InitiallyPending(calls: Graph, entrypoints: set<Name>, queue: seq<Entry>)
    requires Successors(entrypoints, [], queue)
    ensures Pending(calls, entrypoints, queue, map[], 1)
  {
  }

  /** The callees of a callable that is a key; none otherwise. */
  method EnqueueCallees(calls: Graph, callable: Name, trace: Trace) returns (more: seq<Entry>)
    ensures Successors(At(calls, callable), trace, more)
  {
    more := [];
    if callable in calls {
      more := Enqueue(calls[callable], trace);
    }
  }

  method GetTransitiveCalleesAndTraces(calls: Graph, entrypoints: set<Name>) returns (result: map<Name, Trace>)
    ensures Answer(calls, entrypoints, result)
  {
    result := map[];
    var queue := Enqueue(entrypoints, []);
    ghost var level: nat := 1;
    ghost var names := entrypoints + Targets(calls);
    ghost var todo := names;
    InitiallyPending(calls, entrypoints, queue);
    while queue != []
      invariant Pending(calls, entrypoints, queue, result, level)
      invariant forall n :: n in names && n !in result ==> n in todo
      decreases todo, |queue|
    {
      var Entry(callable, trace) := queue[0];
      if callable in result {
        DropDuplicate(calls, entrypoints, queue, result, level);
        queue := queue[1..];
        continue;
      }
      RouteEndsInTarget(calls, entrypoints, callable, trace);
      var more := EnqueueCallees(calls, callable, trace);
      StoreTrace(calls, entrypoints, queue, result, level, more);
      result := result[callable := trace];
      queue := queue[1..] + more;
      level := |trace|;
      todo := todo - {callable};
    }
    PromisesKept(calls, entrypoints, result, level);
  }
}
