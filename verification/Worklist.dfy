/** The stack discipline of `print_reachable_leaves` (scripts/explore_pysa_models.py:1222-1261),
    for any frames, keys and successor function. */
module Worklist {
  import opened Outcomes

  /** `key` identifies frames, `isLeaf` ends a path, `next` gives the frames to follow or `None`
      when looking them up raises. */
  datatype Search<!F(==, !new), !K(==, !new)> =
    Search(key: F -> K, isLeaf: F -> bool, next: F -> Option<seq<F>>, initial: seq<F>)
  {
    ghost predicate Leads(f: F, g: F) {
      !isLeaf(f) && next(f).Some? && g in next(f).value
    }

    ghost predicate IsPath(p: seq<F>) {
      |p| > 0 && p[0] in initial && forall i :: 0 <= i < |p| - 1 ==> Leads(p[i], p[i + 1])
    }

    ghost predicate Reachable(f: F) {
      exists p :: IsPath(p) && p[|p| - 1] == f
    }

    /** Reachable frames with equal keys agree on being a leaf. */
    ghost predicate KeysAgree() {
      forall f, g :: Reachable(f) && Reachable(g) && key(f) == key(g) ==> isLeaf(f) == isLeaf(g)
    }

    /** No reachable frame that must be followed raises. */
    ghost predicate Complete() {
      forall f :: Reachable(f) && !isLeaf(f) ==> next(f).Some?
    }

    /** Successors are a function of the key. */
    ghost predicate KeyDeterminesNext() {
      forall f, g :: key(f) == key(g) ==> next(f) == next(g)
    }

    /** All keys that can ever appear. */
    ghost predicate Bounds(universe: set<K>) {
      && (forall f :: f in initial ==> key(f) in universe)
      && (forall f, g :: next(f).Some? && g in next(f).value ==> key(g) in universe)
    }

    ghost predicate Printed(k: K, frames: seq<F>) {
      exists f :: f in frames && key(f) == k
    }

    lemma InitialIsReachable(f: F)
      requires f in initial
      ensures Reachable(f)
    {
      assert IsPath([f]);
    }

    lemma NextIsReachable(f: F, g: F)
      requires Reachable(f) && Leads(f, g)
      ensures Reachable(g)
    {
      var p :| IsPath(p) && p[|p| - 1] == f;
      var q := p + [g];
      forall i | 0 <= i < |q| - 1 ensures Leads(q[i], q[i + 1]) {
        assert q[i] == p[i];
      }
      assert IsPath(q) && q[|q| - 1] == g;
    }

    lemma ReachableInBounds(f: F, universe: set<K>)
      requires Reachable(f) && Bounds(universe)
      ensures key(f) in universe
    {
      var p :| IsPath(p) && p[|p| - 1] == f;
      if |p| > 1 {
        assert Leads(p[|p| - 2], p[|p| - 2 + 1]);
      }
    }

    /** What the loop needs to know about the set of reachable frames. */
    ghost predicate Closed(reach: iset<F>, universe: set<K>) {
      && (forall f :: f in initial ==> f in reach)
      && (forall f, g :: f in reach && Leads(f, g) ==> g in reach)
      && (forall f :: f in reach ==> key(f) in universe)
    }

    ghost function ReachSet(): iset<F> {
      iset f | Reachable(f)
    }

    lemma OverReachSet()
      ensures Complete() <==> forall f :: f in ReachSet() && !isLeaf(f) ==> next(f).Some?
      ensures KeysAgree() <==>
                forall f, g :: f in ReachSet() && g in ReachSet() && key(f) == key(g) ==> isLeaf(f) == isLeaf(g)
    {
      assert forall f :: f in ReachSet() <==> Reachable(f);
    }

    lemma ReachSetIsClosed(universe: set<K>)
      requires Bounds(universe)
      ensures Closed(ReachSet(), universe)
    {
      forall f | f in initial ensures f in ReachSet() {
        InitialIsReachable(f);
      }
      forall f, g | f in ReachSet() && Leads(f, g) ensures g in ReachSet() {
        NextIsReachable(f, g);
      }
      forall f | f in ReachSet() ensures key(f) in universe {
        ReachableInBounds(f, universe);
      }
    }

    /** The key is processed already or waits on the stack. */
    ghost predicate Known(k: K, stack: seq<F>, first: map<K, F>) {
      k in first || Printed(k, stack)
    }

    /** A processed frame was printed if it is a leaf; otherwise its successors are known. */
    ghost predicate Processed(f: F, stack: seq<F>, first: map<K, F>, printed: seq<F>) {
      if isLeaf(f) then f in printed
      else next(f).Some? && forall g :: g in next(f).value ==> Known(key(g), stack, first)
    }

    /** The loop invariant; `first` gives the frame with which each seen key was processed. */
    ghost predicate Progress(reach: iset<F>, stack: seq<F>, first: map<K, F>, printed: seq<F>) {
      && (forall f :: f in stack ==> f in reach)
      && (forall f :: f in initial ==> Known(key(f), stack, first))
      && (forall k :: k in first ==> key(first[k]) == k && first[k] in reach
                                     && Processed(first[k], stack, first, printed))
      && (forall f :: f in printed ==> isLeaf(f) && key(f) in first && first[key(f)] == f)
      && (forall i, j :: 0 <= i < j < |printed| ==> key(printed[i]) != key(printed[j]))
    }

    /** Known keys stay known when the top of the stack has become a processed key. */
    lemma KnownAfter(rest: seq<F>, top: F, first: map<K, F>, more: seq<F>, first': map<K, F>)
      requires first.Keys + {key(top)} <= first'.Keys
      ensures forall k :: Known(k, rest + [top], first) ==> Known(k, rest + more, first')
    {
    }

    lemma SkipSeen(reach: iset<F>, rest: seq<F>, top: F, first: map<K, F>, printed: seq<F>)
      requires Progress(reach, rest + [top], first, printed) && key(top) in first
      ensures Progress(reach, rest, first, printed)
    {
    }

    /** Processing the top frame: it is printed, or its unseen successors are pushed. */
    lemma ProcessTop(reach: iset<F>, universe: set<K>, rest: seq<F>, top: F, first: map<K, F>,
                     printed: seq<F>, more: seq<F>)
      requires Closed(reach, universe)
      requires Progress(reach, rest + [top], first, printed) && key(top) !in first
      requires isLeaf(top) ==> more == []
      requires !isLeaf(top) ==>
                 && next(top).Some?
                 && (forall g :: g in more <==> g in next(top).value && key(g) !in first && key(g) != key(top))
      ensures Progress(reach, rest + more, first[key(top) := top], if isLeaf(top) then printed + [top] else printed)
    {
      var first', printed' := first[key(top) := top], if isLeaf(top) then printed + [top] else printed;
      KnownAfter(rest, top, first, more, first');
      assert top in rest + [top];
      forall f | f in rest + more ensures f in reach {
        if f in rest {
          assert f in rest + [top];
        } else {
          assert Leads(top, f);
        }
      }
      forall k | k in first' ensures Processed(first'[k], rest + more, first', printed') {
        if k != key(top) {
          assert Processed(first[k], rest + [top], first, printed);
        } else if !isLeaf(top) {
          forall g | g in next(top).value ensures Known(key(g), rest + more, first') {
            assert g in more ==> g in rest + more;
          }
        }
      }
    }

    /** With an empty stack every key on a path was processed. */
    lemma {:induction false} AllProcessed(reach: iset<F>, universe: set<K>, first: map<K, F>, printed: seq<F>,
                                          p: seq<F>, k: nat)
      requires Closed(reach, universe) && Progress(reach, [], first, printed) && KeyDeterminesNext()
      requires forall f, g :: f in reach && g in reach && key(f) == key(g) ==> isLeaf(f) == isLeaf(g)
      requires IsPath(p) && k < |p|
      ensures p[k] in reach && key(p[k]) in first && isLeaf(first[key(p[k])]) == isLeaf(p[k])
    {
      if k == 0 {
        assert Known(key(p[0]), [], first);
      } else {
        AllProcessed(reach, universe, first, printed, p, k - 1);
        assert Leads(p[k - 1], p[k - 1 + 1]);
        var f := first[key(p[k - 1])];
        assert next(f) == next(p[k - 1]) && Processed(f, [], first, printed);
        assert Known(key(p[k]), [], first);
      }
    }

    lemma ConcludeAt(universe: set<K>, first: map<K, F>, printed: seq<F>, p: seq<F>)
      requires Closed(ReachSet(), universe) && KeyDeterminesNext() && KeysAgree()
      requires Progress(ReachSet(), [], first, printed) && IsPath(p)
      ensures isLeaf(p[|p| - 1]) ==> Printed(key(p[|p| - 1]), printed)
      ensures !isLeaf(p[|p| - 1]) ==> next(p[|p| - 1]).Some?
    {
      var f := p[|p| - 1];
      AllProcessed(ReachSet(), universe, first, printed, p, |p| - 1);
      assert Processed(first[key(f)], [], first, printed);
    }

    /** What is left to do when the loop has ended. */
    lemma Conclude(universe: set<K>, first: map<K, F>, printed: seq<F>)
      requires Bounds(universe) && KeyDeterminesNext() && KeysAgree()
      requires Progress(ReachSet(), [], first, printed)
      ensures forall f :: Reachable(f) && isLeaf(f) ==> Printed(key(f), printed)
      ensures Complete()
    {
      ReachSetIsClosed(universe);
      forall f | Reachable(f)
        ensures isLeaf(f) ==> Printed(key(f), printed)
        ensures !isLeaf(f) ==> next(f).Some?
      {
        var p :| IsPath(p) && p[|p| - 1] == f;
        ConcludeAt(universe, first, printed, p);
      }
    }

    /** The list of those successors whose key was not seen, in order. */
    method Unseen(frames: seq<F>, seen: set<K>) returns (more: seq<F>)
      ensures forall g :: g in more <==> g in frames && key(g) !in seen
    {
      more := [];
      for i := 0 to |frames|
        invariant forall g :: g in more <==> g in frames[..i] && key(g) !in seen
      {
        assert frames[..i + 1] == frames[..i] + [frames[i]];
        if key(frames[i]) !in seen {
          more := more + [frames[i]];
        }
      }
      assert frames[..|frames|] == frames;
    }

    /** The loop; when it raises, `culprit` is the frame whose lookup did. */
    method Loop(ghost reach: iset<F>, ghost universe: set<K>)
      returns (printed: seq<F>, raised: bool, ghost first: map<K, F>, ghost culprit: Option<F>)
      requires Closed(reach, universe)
      ensures exists stack :: Progress(reach, stack, first, printed)
      ensures !raised ==> Progress(reach, [], first, printed)
      ensures raised ==> culprit.Some? && culprit.value in reach && !isLeaf(culprit.value) && next(culprit.value).None?
    {
      var stack, seen := initial, {};
      printed, raised := [], false;
      ghost var todo := universe;
      first, culprit := map[], None;
      while |stack| > 0
        invariant seen == first.Keys
        invariant Progress(reach, stack, first, printed)
        invariant forall k :: k in universe && k !in first ==> k in todo
        decreases todo, |stack|
      {
        var f, rest := stack[|stack| - 1], stack[..|stack| - 1];
        assert stack == rest + [f];
        if key(f) in seen {
          SkipSeen(reach, rest, f, first, printed);
          stack := rest;
          continue;
        }
        seen, todo := seen + {key(f)}, todo - {key(f)};
        var more := [];
        if !isLeaf(f) {
          if next(f).None? {
            return printed, true, first, Some(f);
          }
          more := Unseen(next(f).value, seen);
        }
        ProcessTop(reach, universe, rest, f, first, printed, more);
        printed := if isLeaf(f) then printed + [f] else printed;
        stack := rest + more;
        first := first[key(f) := f];
      }
      assert stack == [];
    }

    /** Prints leaves until none is left or a lookup raises. Either way each printed frame is a
        reachable leaf and no key is printed twice. If equal keys agree on being a leaf, a search
        that does not raise prints every reachable leaf key, and it raises only if it must. */
    method Run(ghost universe: set<K>) returns (printed: seq<F>, raised: bool)
      requires Bounds(universe) && KeyDeterminesNext()
      ensures forall f :: f in printed ==> Reachable(f) && isLeaf(f)
      ensures forall i, j :: 0 <= i < j < |printed| ==> key(printed[i]) != key(printed[j])
      ensures !raised && KeysAgree() ==> forall f :: Reachable(f) && isLeaf(f) ==> Printed(key(f), printed)
      ensures Complete() ==> !raised
      ensures KeysAgree() ==> (raised <==> !Complete())
    {
      ReachSetIsClosed(universe);
      ghost var first, culprit;
      printed, raised, first, culprit := Loop(ReachSet(), universe);
      assert forall f :: f in printed ==> f in ReachSet();
      if !raised && KeysAgree() {
        Conclude(universe, first, printed);
      }
    }
  }
}
