/** Selecting from a list: the result consists of the marked items, each once and in order. */
module Indices {

  ghost predicate AreIndices(indices: seq<nat>, length: nat) {
    && (forall m :: 0 <= m < |indices| ==> indices[m] < length)
    && (forall m, n :: 0 <= m < n < |indices| ==> indices[m] < indices[n])
  }

  ghost predicate IsSelection<T>(result: seq<T>, indices: seq<nat>, marked: nat -> bool, items: seq<T>) {
    && AreIndices(indices, |items|) && |result| == |indices|
    && (forall i :: 0 <= i < |items| ==> (i in indices <==> marked(i)))
    && (forall m :: 0 <= m < |indices| ==> result[m] == items[indices[m]])
  }

  ghost function WithLast(indices: seq<nat>, n: nat, marked: bool): seq<nat> {
    if marked then indices + [n] else indices
  }

  lemma SelectLast<T>(result: seq<T>, indices: seq<nat>, marked: nat -> bool, items: seq<T>, last: T)
    requires IsSelection(result, indices, marked, items)
    ensures IsSelection(result + if marked(|items|) then [last] else [], WithLast(indices, |items|, marked(|items|)),
                        marked, items + [last])
  {
    var n := |items|;
    var indices' := WithLast(indices, n, marked(n));
    assert n !in indices;
    forall i | 0 <= i <= n ensures i in indices' <==> marked(i) {
      assert i in indices' <==> i in indices || (marked(n) && i == n);
    }
  }

  /** A list that was selected step by step. */
  lemma {:induction false} SelectStepwise<T>(results: seq<seq<T>>, marked: nat -> bool, items: seq<T>, n: nat)
    returns (indices: seq<nat>)
    requires n <= |items| && |results| == |items| + 1 && results[0] == []
    requires forall k :: 0 <= k < |items| ==> results[k + 1] == results[k] + if marked(k) then [items[k]] else []
    ensures IsSelection(results[n], indices, marked, items[..n])
  {
    if n == 0 {
      indices := [];
    } else {
      var before := SelectStepwise(results, marked, items, n - 1);
      SelectLast(results[n - 1], before, marked, items[..n - 1], items[n - 1]);
      assert items[..n] == items[..n - 1] + [items[n - 1]] && results[n - 1 + 1] == results[n];
      indices := WithLast(before, n - 1, marked(n - 1));
    }
  }

  lemma SelectedSome<T>(result: seq<T>, indices: seq<nat>, marked: nat -> bool, items: seq<T>)
    requires IsSelection(result, indices, marked, items)
    ensures result != [] <==> exists i :: 0 <= i < |items| && marked(i)
  {
    if result != [] {
      assert indices[0] in indices && marked(indices[0]);
    }
  }
}
