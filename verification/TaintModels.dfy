/** Taint models, the frames they enumerate, and the filters and maps that the explorer applies
    to them (scripts/explore_pysa_models.py). */
module TaintModels {
  import opened Outcomes
  import opened Indices

  /** JSON that is only compared and copied: features, intervals, positions. */
  type Json = string

  datatype Leaf = Leaf(name: Option<string>, port: Option<string>)

  datatype Call = Call(port: string, position: Json, resolvesTo: seq<string>)

  datatype ExtraTrace = ExtraTrace(traceKind: string, leafKind: string, call: Option<Call>)

  /** An element of `kinds`. */
  datatype Flow = Flow(kind: string, length: Option<int>, leaves: Option<seq<Leaf>>,
                       features: Option<Json>, localFeatures: Option<Json>, extraTraces: seq<ExtraTrace>)

  /** Which of the keys `origin`, `call`, `declaration` a local taint has, tried in this order. */
  datatype Fragment = Origin(position: Json) | CallTo(call: Call) | Declaration | Unexpected

  datatype LocalTaint = LocalTaint(fragment: Fragment, kinds: seq<Flow>, extraTraces: seq<ExtraTrace>,
                                   typeInterval: Option<Json>, localFeatures: Option<Json>,
                                   titoPositions: Option<Json>, receiverInterval: Option<Json>,
                                   callerInterval: Option<Json>, isSelfCall: Option<Json>)

  datatype Condition = Condition(port: string, taint: seq<LocalTaint>)

  datatype Model = Model(filename: string, path: Option<string>,
                         sources: seq<Condition>, sinks: seq<Condition>, tito: seq<Condition>)

  datatype ConditionKind = Source | Sink

  datatype Location = Location(filename: string, path: Option<string>, position: Json)

  datatype TaintFrame = TaintFrame(
    conditionKind: ConditionKind, caller: string, callerPort: string,
    callee: Option<string>, calleePort: Option<string>, taintKind: string, distance: Option<int>,
    location: Location, sharedLocalFeatures: Option<Json>, localFeatures: Option<Json>, typeInterval: Json)

  datatype Key = Key(conditionKind: ConditionKind, caller: string, callerPort: string,
                     callee: Option<string>, calleePort: Option<string>, taintKind: string,
                     location: Location, typeInterval: Json)

  function KeyOf(f: TaintFrame): Key {
    Key(f.conditionKind, f.caller, f.callerPort, f.callee, f.calleePort, f.taintKind, f.location, f.typeInterval)
  }

  /** Where the enumerated conditions come from. */
  datatype Context = Context(kind: ConditionKind, caller: string, filename: string, path: Option<string>)
  {
    function Locate(position: Json): Location {
      Location(filename, path, position)
    }
  }

  function Append<T>(a: Result<seq<T>>, b: Result<seq<T>>): Result<seq<T>> {
    if a.Ok? && b.Ok? then Ok(a.value + b.value) else Raised
  }

  // ----- Enumerating frames

  function SubtraceFrames(c: Context, t: ExtraTrace): Result<seq<TaintFrame>> {
    if t.traceKind != "source" && t.traceKind != "sink" then Raised
    else
      var kind := if t.traceKind == "source" then Source else Sink;
      match t.call
      case None => Ok([])
      case Some(call) =>
        Ok(seq(|call.resolvesTo|, i requires 0 <= i < |call.resolvesTo| =>
          TaintFrame(kind, c.caller, "subtrace", Some(call.resolvesTo[i]), Some(call.port), t.leafKind,
                     None, c.Locate(call.position), None, None, "{}")))
  }

  function ExtraTraceFrames(c: Context, traces: seq<ExtraTrace>): Result<seq<TaintFrame>> {
    if traces == [] then Ok([])
    else Append(SubtraceFrames(c, traces[0]), ExtraTraceFrames(c, traces[1..]))
  }

  /** The frames of one element of `kinds`: one per leaf or one per resolved callee. */
  function FlowFrames(c: Context, port: string, t: LocalTaint, flow: Flow): seq<TaintFrame> {
    match t.fragment
    case Origin(position) =>
      var leaves := flow.leaves.GetOr([Leaf(None, None)]);
      seq(|leaves|, i requires 0 <= i < |leaves| =>
        TaintFrame(c.kind, c.caller, port, leaves[i].name, leaves[i].port, flow.kind,
                   Some(flow.length.GetOr(0)), c.Locate(position), t.localFeatures, flow.localFeatures,
                   t.typeInterval.GetOr("{}")))
    case CallTo(call) =>
      seq(|call.resolvesTo|, i requires 0 <= i < |call.resolvesTo| =>
        TaintFrame(c.kind, c.caller, port, Some(call.resolvesTo[i]), Some(call.port), flow.kind,
                   Some(flow.length.GetOr(0)), c.Locate(call.position), t.localFeatures, flow.localFeatures,
                   t.typeInterval.GetOr("{}")))
    case _ => []
  }

  function FlowsFrames(c: Context, port: string, t: LocalTaint, flows: seq<Flow>, subtraces: bool)
    : Result<seq<TaintFrame>>
  {
    if flows == [] then Ok([])
    else
      var here := Append(Ok(FlowFrames(c, port, t, flows[0])), FlowsFrames(c, port, t, flows[1..], subtraces));
      if subtraces then Append(ExtraTraceFrames(c, flows[0].extraTraces), here) else here
  }

  function LocalTaintFrames(c: Context, port: string, t: LocalTaint, subtraces: bool): Result<seq<TaintFrame>> {
    var here := match t.fragment
      case Unexpected => Raised
      case Declaration => Ok([])
      case _ => FlowsFrames(c, port, t, t.kinds, subtraces);
    if subtraces then Append(ExtraTraceFrames(c, t.extraTraces), here) else here
  }

  function TaintsFrames(c: Context, port: string, taints: seq<LocalTaint>, subtraces: bool): Result<seq<TaintFrame>> {
    if taints == [] then Ok([])
    else Append(LocalTaintFrames(c, port, taints[0], subtraces), TaintsFrames(c, port, taints[1..], subtraces))
  }

  /** `get_frames_from_taint_conditions` with `deduplicate=True`. */
  function Frames(c: Context, conditions: seq<Condition>, subtraces: bool): Result<seq<TaintFrame>> {
    if conditions == [] then Ok([])
    else Append(TaintsFrames(c, conditions[0].port, conditions[0].taint, subtraces),
                Frames(c, conditions[1..], subtraces))
  }

  // ----- Filters

  type FlowPredicate = (string, Flow) -> bool

  function FilterFlows(port: string, flows: seq<Flow>, keep: FlowPredicate): seq<Flow> {
    if flows == [] then []
    else
      var rest := FilterFlows(port, flows[1..], keep);
      if keep(port, flows[0]) then [flows[0]] + rest else rest
  }

  /** A local taint without remaining flows disappears. */
  function FilterTaints(port: string, taints: seq<LocalTaint>, keep: FlowPredicate): seq<LocalTaint> {
    if taints == [] then []
    else
      var kinds, rest := FilterFlows(port, taints[0].kinds, keep), FilterTaints(port, taints[1..], keep);
      if kinds == [] then rest else [taints[0].(kinds := kinds)] + rest
  }

  function FilterConditions(conditions: seq<Condition>, keep: FlowPredicate): seq<Condition> {
    if conditions == [] then []
    else
      var taint := FilterTaints(conditions[0].port, conditions[0].taint, keep);
      var rest := FilterConditions(conditions[1..], keep);
      if taint == [] then rest else [conditions[0].(taint := taint)] + rest
  }

  method FilterLocalTaints(port: string, taints: seq<LocalTaint>, keep: FlowPredicate)
    returns (result: seq<LocalTaint>)
    ensures result == FilterTaints(port, taints, keep)
  {
    result := [];
    for j := 0 to |taints|
      invariant result + FilterTaints(port, taints[j..], keep) == FilterTaints(port, taints, keep)
    {
      assert taints[j..][1..] == taints[j + 1..];
      var kinds := FilterFlows(port, taints[j].kinds, keep);
      if |kinds| > 0 {
        result := result + [taints[j].(kinds := kinds)];
      }
    }
  }

  method FilterTaintConditions(conditions: seq<Condition>, keep: FlowPredicate) returns (result: seq<Condition>)
    ensures result == FilterConditions(conditions, keep)
  {
    result := [];
    for i := 0 to |conditions|
      invariant result + FilterConditions(conditions[i..], keep) == FilterConditions(conditions, keep)
    {
      var c := conditions[i];
      assert conditions[i..][1..] == conditions[i + 1..];
      var taint := FilterLocalTaints(c.port, c.taint, keep);
      if |taint| > 0 {
        result := result + [c.(taint := taint)];
      }
    }
  }

  // ----- What a filter keeps

  lemma Regroup<T>(x: seq<T>, y: seq<T>, z: seq<T>)
    ensures x + (y + z) == (x + y) + z
  {
  }

  lemma {:induction false} FilterFlowsOfFirst(port: string, xs: seq<Flow>, keep: FlowPredicate)
    requires xs != []
    ensures FilterFlows(port, xs, keep) == FilterFlows(port, [xs[0]], keep) + FilterFlows(port, xs[1..], keep)
  {
    assert [xs[0]][1..] == [];
  }

  lemma {:induction false} FilterFlowsOfTwo(port: string, a: seq<Flow>, b: seq<Flow>, keep: FlowPredicate)
    ensures FilterFlows(port, a + b, keep) == FilterFlows(port, a, keep) + FilterFlows(port, b, keep)
  {
    if a == [] {
      assert a + b == b;
      assert [] + FilterFlows(port, b, keep) == FilterFlows(port, b, keep);
    } else {
      assert (a + b)[0] == a[0] && (a + b)[1..] == a[1..] + b;
      FilterFlowsOfFirst(port, a, keep);
      FilterFlowsOfFirst(port, a + b, keep);
      FilterFlowsOfTwo(port, a[1..], b, keep);
      Regroup(FilterFlows(port, [a[0]], keep), FilterFlows(port, a[1..], keep), FilterFlows(port, b, keep));
    }
  }

  lemma {:induction false} FilterTaintsOfFirst(port: string, xs: seq<LocalTaint>, keep: FlowPredicate)
    requires xs != []
    ensures FilterTaints(port, xs, keep) == FilterTaints(port, [xs[0]], keep) + FilterTaints(port, xs[1..], keep)
  {
    assert [xs[0]][1..] == [];
  }

  lemma {:induction false} FilterTaintsOfTwo(port: string, a: seq<LocalTaint>, b: seq<LocalTaint>, keep: FlowPredicate)
    ensures FilterTaints(port, a + b, keep) == FilterTaints(port, a, keep) + FilterTaints(port, b, keep)
  {
    if a == [] {
      assert a + b == b;
      assert [] + FilterTaints(port, b, keep) == FilterTaints(port, b, keep);
    } else {
      assert (a + b)[0] == a[0] && (a + b)[1..] == a[1..] + b;
      FilterTaintsOfFirst(port, a, keep);
      FilterTaintsOfFirst(port, a + b, keep);
      FilterTaintsOfTwo(port, a[1..], b, keep);
      Regroup(FilterTaints(port, [a[0]], keep), FilterTaints(port, a[1..], keep), FilterTaints(port, b, keep));
    }
  }

  lemma {:induction false} FilterConditionsOfFirst(xs: seq<Condition>, keep: FlowPredicate)
    requires xs != []
    ensures FilterConditions(xs, keep) == FilterConditions([xs[0]], keep) + FilterConditions(xs[1..], keep)
  {
    assert [xs[0]][1..] == [];
  }

  lemma {:induction false} FilterConditionsOfTwo(a: seq<Condition>, b: seq<Condition>, keep: FlowPredicate)
    ensures FilterConditions(a + b, keep) == FilterConditions(a, keep) + FilterConditions(b, keep)
  {
    if a == [] {
      assert a + b == b;
      assert [] + FilterConditions(b, keep) == FilterConditions(b, keep);
    } else {
      assert (a + b)[0] == a[0] && (a + b)[1..] == a[1..] + b;
      FilterConditionsOfFirst(a, keep);
      FilterConditionsOfFirst(a + b, keep);
      FilterConditionsOfTwo(a[1..], b, keep);
      Regroup(FilterConditions([a[0]], keep), FilterConditions(a[1..], keep), FilterConditions(b, keep));
    }
  }

  /** Exactly the flows that satisfy the predicate are kept, unchanged and in order. */
  lemma {:induction false} FlowsKept(port: string, flows: seq<Flow>, keep: FlowPredicate, marked: nat -> bool)
    returns (indices: seq<nat>)
    requires forall i :: 0 <= i < |flows| ==> marked(i) == keep(port, flows[i])
    ensures IsSelection(FilterFlows(port, flows, keep), indices, marked, flows)
  {
    if flows == [] {
      indices := [];
    } else {
      var n := |flows| - 1;
      var before := FlowsKept(port, flows[..n], keep, marked);
      assert flows == flows[..n] + [flows[n]];
      FilterFlowsOfTwo(port, flows[..n], [flows[n]], keep);
      assert FilterFlows(port, [flows[n]], keep) == if marked(n) then [flows[n]] else [];
      SelectLast(FilterFlows(port, flows[..n], keep), before, marked, flows[..n], flows[n]);
      indices := WithLast(before, n, marked(n));
    }
  }

  ghost predicate KeepsSome(port: string, t: LocalTaint, keep: FlowPredicate) {
    exists flow :: flow in t.kinds && keep(port, flow)
  }

  lemma SomeFlowKept(port: string, t: LocalTaint, keep: FlowPredicate)
    ensures FilterFlows(port, t.kinds, keep) != [] <==> KeepsSome(port, t, keep)
  {
    var marked := i => 0 <= i < |t.kinds| && keep(port, t.kinds[i]);
    var indices := FlowsKept(port, t.kinds, keep, marked);
    SelectedSome(FilterFlows(port, t.kinds, keep), indices, marked, t.kinds);
    if KeepsSome(port, t, keep) {
      var i :| 0 <= i < |t.kinds| && keep(port, t.kinds[i]);
      assert marked(i);
    }
  }

  /** Everything but the flows is the same, and of the flows those that satisfy the predicate. */
  ghost predicate IsReducedTaint(port: string, t: LocalTaint, kept: LocalTaint, keep: FlowPredicate) {
    && kept.kinds == FilterFlows(port, t.kinds, keep)
    && kept.fragment == t.fragment && kept.extraTraces == t.extraTraces && kept.typeInterval == t.typeInterval
    && kept.localFeatures == t.localFeatures && kept.titoPositions == t.titoPositions
    && kept.receiverInterval == t.receiverInterval && kept.callerInterval == t.callerInterval
    && kept.isSelfCall == t.isSelfCall
  }

  /** Exactly the local taints with a kept flow are kept, in order and reduced to those flows. */
  lemma {:induction false} TaintsKept(port: string, taints: seq<LocalTaint>, keep: FlowPredicate, marked: nat -> bool,
                                      reduced: seq<LocalTaint>)
    returns (indices: seq<nat>)
    requires forall i :: 0 <= i < |taints| ==> marked(i) == KeepsSome(port, taints[i], keep)
    requires |reduced| == |taints|
    requires forall i :: 0 <= i < |taints| ==> IsReducedTaint(port, taints[i], reduced[i], keep)
    ensures IsSelection(FilterTaints(port, taints, keep), indices, marked, reduced)
  {
    if taints == [] {
      indices := [];
    } else {
      var n := |taints| - 1;
      var before := TaintsKept(port, taints[..n], keep, marked, reduced[..n]);
      assert taints == taints[..n] + [taints[n]] && reduced == reduced[..n] + [reduced[n]];
      FilterTaintsOfTwo(port, taints[..n], [taints[n]], keep);
      SomeFlowKept(port, taints[n], keep);
      assert FilterTaints(port, [taints[n]], keep) == if marked(n) then [reduced[n]] else [];
      SelectLast(FilterTaints(port, taints[..n], keep), before, marked, reduced[..n], reduced[n]);
      indices := WithLast(before, n, marked(n));
    }
  }

  ghost predicate KeepsSomeTaint(d: Condition, keep: FlowPredicate) {
    exists t :: t in d.taint && KeepsSome(d.port, t, keep)
  }

  lemma SomeTaintKept(d: Condition, keep: FlowPredicate)
    ensures FilterTaints(d.port, d.taint, keep) != [] <==> KeepsSomeTaint(d, keep)
  {
    var marked := i => 0 <= i < |d.taint| && FilterFlows(d.port, d.taint[i].kinds, keep) != [];
    var reduced := seq(|d.taint|, i requires 0 <= i < |d.taint| =>
      d.taint[i].(kinds := FilterFlows(d.port, d.taint[i].kinds, keep)));
    forall i | 0 <= i < |d.taint| ensures marked(i) == KeepsSome(d.port, d.taint[i], keep) {
      SomeFlowKept(d.port, d.taint[i], keep);
    }
    var indices := TaintsKept(d.port, d.taint, keep, marked, reduced);
    SelectedSome(FilterTaints(d.port, d.taint, keep), indices, marked, reduced);
    if KeepsSomeTaint(d, keep) {
      var i :| 0 <= i < |d.taint| && KeepsSome(d.port, d.taint[i], keep);
      assert marked(i);
    }
  }

  /** Exactly the conditions with a kept local taint are kept, in order and under their ports. */
  lemma {:induction false} ConditionsKept(conditions: seq<Condition>, keep: FlowPredicate, marked: nat -> bool,
                                          reduced: seq<Condition>)
    returns (indices: seq<nat>)
    requires forall i :: 0 <= i < |conditions| ==> marked(i) == KeepsSomeTaint(conditions[i], keep)
    requires |reduced| == |conditions|
    requires forall i :: 0 <= i < |conditions| ==>
               && reduced[i].port == conditions[i].port
               && reduced[i].taint == FilterTaints(conditions[i].port, conditions[i].taint, keep)
    ensures IsSelection(FilterConditions(conditions, keep), indices, marked, reduced)
  {
    if conditions == [] {
      indices := [];
    } else {
      var n := |conditions| - 1;
      var before := ConditionsKept(conditions[..n], keep, marked, reduced[..n]);
      assert conditions == conditions[..n] + [conditions[n]] && reduced == reduced[..n] + [reduced[n]];
      FilterConditionsOfTwo(conditions[..n], [conditions[n]], keep);
      SomeTaintKept(conditions[n], keep);
      assert FilterConditions([conditions[n]], keep) == if marked(n) then [reduced[n]] else [];
      SelectLast(FilterConditions(conditions[..n], keep), before, marked, reduced[..n], reduced[n]);
      indices := WithLast(before, n, marked(n));
    }
  }

  /** What a kind or port filter can see of a frame. */
  type KindPredicate = (string, string) -> bool

  function OnFlows(keep: KindPredicate): FlowPredicate {
    (port, flow: Flow) => keep(port, flow.kind)
  }

  function FilterFrames(frames: seq<TaintFrame>, keep: KindPredicate): seq<TaintFrame> {
    if frames == [] then []
    else
      var rest := FilterFrames(frames[1..], keep);
      if keep(frames[0].callerPort, frames[0].taintKind) then [frames[0]] + rest else rest
  }

  lemma {:induction false} FilterFramesAppend(a: seq<TaintFrame>, b: seq<TaintFrame>, keep: KindPredicate)
    ensures FilterFrames(a + b, keep) == FilterFrames(a, keep) + FilterFrames(b, keep)
    ensures FilterFrames(a, keep) == [] ==> FilterFrames(a + b, keep) == FilterFrames(b, keep)
  {
    if a == [] {
      assert a + b == b;
      assert [] + FilterFrames(b, keep) == FilterFrames(b, keep);
    } else {
      var ab, rest, tail := a + b, FilterFrames(a[1..], keep), FilterFrames(b, keep);
      FilterFramesAppend(a[1..], b, keep);
      assert ab[1..] == a[1..] + b && ab[0] == a[0];
      assert [a[0]] + (rest + tail) == ([a[0]] + rest) + tail;
    }
  }

  lemma {:induction false} FilterFramesUniform(frames: seq<TaintFrame>, keep: KindPredicate, port: string, kind: string)
    requires forall f :: f in frames ==> f.callerPort == port && f.taintKind == kind
    ensures FilterFrames(frames, keep) == if keep(port, kind) then frames else []
  {
    if frames == [] {
    } else {
      FilterFramesUniform(frames[1..], keep, port, kind);
    }
  }

  lemma {:induction false} FilterFlowsCommutes(c: Context, port: string, t: LocalTaint, t': LocalTaint,
                                               flows: seq<Flow>, keep: KindPredicate)
    requires t' == t.(kinds := t'.kinds)
    ensures FlowsFrames(c, port, t, flows, false).Ok?
    ensures FlowsFrames(c, port, t', FilterFlows(port, flows, OnFlows(keep)), false)
            == Ok(FilterFrames(FlowsFrames(c, port, t, flows, false).value, keep))
  {
    if flows == [] {
    } else {
      var here, rest := FlowFrames(c, port, t, flows[0]), FlowsFrames(c, port, t, flows[1..], false);
      FilterFlowsCommutes(c, port, t, t', flows[1..], keep);
      FilterFramesUniform(here, keep, port, flows[0].kind);
      FilterFramesAppend(here, rest.value, keep);
      var kept := FilterFlows(port, flows, OnFlows(keep));
      if keep(port, flows[0].kind) {
        assert kept[0] == flows[0] && kept[1..] == FilterFlows(port, flows[1..], OnFlows(keep));
      }
    }
  }

  lemma {:induction false} FilterTaintsCommutes(c: Context, port: string, taints: seq<LocalTaint>, keep: KindPredicate)
    requires TaintsFrames(c, port, taints, false).Ok?
    ensures TaintsFrames(c, port, FilterTaints(port, taints, OnFlows(keep)), false)
            == Ok(FilterFrames(TaintsFrames(c, port, taints, false).value, keep))
  {
    if taints == [] {
    } else {
      var t := taints[0];
      var t' := t.(kinds := FilterFlows(port, t.kinds, OnFlows(keep)));
      var here := LocalTaintFrames(c, port, t, false);
      FilterTaintsCommutes(c, port, taints[1..], keep);
      FilterFlowsCommutes(c, port, t, t', t.kinds, keep);
      assert LocalTaintFrames(c, port, t', false) == Ok(FilterFrames(here.value, keep));
      FilterFramesAppend(here.value, TaintsFrames(c, port, taints[1..], false).value, keep);
      var kept, rest := FilterTaints(port, taints, OnFlows(keep)), FilterTaints(port, taints[1..], OnFlows(keep));
      if t'.kinds != [] {
        assert kept[0] == t' && kept[1..] == rest;
      }
    }
  }

  /** Enumerating the filtered model is filtering the enumerated frames, in order. */
  lemma {:induction false} FilterCommutes(c: Context, conditions: seq<Condition>, keep: KindPredicate)
    requires Frames(c, conditions, false).Ok?
    ensures Frames(c, FilterConditions(conditions, OnFlows(keep)), false)
            == Ok(FilterFrames(Frames(c, conditions, false).value, keep))
  {
    if conditions == [] {
    } else {
      var d := conditions[0];
      var taint := FilterTaints(d.port, d.taint, OnFlows(keep));
      FilterCommutes(c, conditions[1..], keep);
      FilterTaintsCommutes(c, d.port, d.taint, keep);
      FilterFramesAppend(TaintsFrames(c, d.port, d.taint, false).value, Frames(c, conditions[1..], false).value, keep);
      var kept, rest := FilterConditions(conditions, OnFlows(keep)), FilterConditions(conditions[1..], OnFlows(keep));
      if taint != [] {
        assert kept[0] == d.(taint := taint) && kept[1..] == rest;
      }
    }
  }

  // ----- Successive filters

  function Both(p: FlowPredicate, q: FlowPredicate): FlowPredicate {
    (port, flow) => p(port, flow) && q(port, flow)
  }

  lemma {:induction false} FilterFlowsTwice(port: string, flows: seq<Flow>, p: FlowPredicate, q: FlowPredicate)
    ensures FilterFlows(port, FilterFlows(port, flows, p), q) == FilterFlows(port, flows, Both(p, q))
  {
    if flows == [] {
    } else {
      FilterFlowsTwice(port, flows[1..], p, q);
      var kept, rest := FilterFlows(port, flows, p), FilterFlows(port, flows[1..], p);
      if p(port, flows[0]) {
        assert kept[0] == flows[0] && kept[1..] == rest;
      }
    }
  }

  lemma {:induction false} FilterTaintsTwice(port: string, taints: seq<LocalTaint>, p: FlowPredicate, q: FlowPredicate)
    ensures FilterTaints(port, FilterTaints(port, taints, p), q) == FilterTaints(port, taints, Both(p, q))
  {
    if taints == [] {
    } else {
      FilterTaintsTwice(port, taints[1..], p, q);
      FilterFlowsTwice(port, taints[0].kinds, p, q);
      var kinds := FilterFlows(port, taints[0].kinds, p);
      var kept, rest := FilterTaints(port, taints, p), FilterTaints(port, taints[1..], p);
      if kinds != [] {
        assert kept[0] == taints[0].(kinds := kinds) && kept[1..] == rest;
      }
    }
  }

  /** Two filters in a row are one filter by the conjunction, dropped entries included. */
  lemma {:induction false} FilterTwice(conditions: seq<Condition>, p: FlowPredicate, q: FlowPredicate)
    ensures FilterConditions(FilterConditions(conditions, p), q) == FilterConditions(conditions, Both(p, q))
  {
    if conditions == [] {
    } else {
      var d := conditions[0];
      FilterTwice(conditions[1..], p, q);
      FilterTaintsTwice(d.port, d.taint, p, q);
      var taint := FilterTaints(d.port, d.taint, p);
      var kept, rest := FilterConditions(conditions, p), FilterConditions(conditions[1..], p);
      if taint != [] {
        assert kept[0] == d.(taint := taint) && kept[1..] == rest;
      }
    }
  }

  // ----- Maps that strip detail

  type FlowMap = Flow -> Flow
  type TaintMap = LocalTaint -> LocalTaint

  function MapFlows(flows: seq<Flow>, flowMap: FlowMap): seq<Flow> {
    seq(|flows|, i requires 0 <= i < |flows| => flowMap(flows[i]))
  }

  function MapTaint(t: LocalTaint, flowMap: FlowMap, taintMap: TaintMap): LocalTaint {
    var t' := taintMap(t);
    t'.(kinds := MapFlows(t'.kinds, flowMap))
  }

  /** `_map_taint_conditions`: the copy is deep, so the result shares nothing with the input. */
  function MapConditions(conditions: seq<Condition>, flowMap: FlowMap, taintMap: TaintMap): seq<Condition> {
    seq(|conditions|, i requires 0 <= i < |conditions| =>
      var d := conditions[i];
      d.(taint := seq(|d.taint|, j requires 0 <= j < |d.taint| => MapTaint(d.taint[j], flowMap, taintMap))))
  }

  ghost predicate SameShape(a: seq<Condition>, b: seq<Condition>) {
    && |a| == |b|
    && forall i :: 0 <= i < |a| ==> a[i].port == b[i].port && |a[i].taint| == |b[i].taint|
  }

  /** The local-taint map is applied first and then the flow map, to every flow. */
  ghost predicate IsMapped(t: LocalTaint, flowMap: FlowMap, taintMap: TaintMap, r: LocalTaint) {
    && r.(kinds := taintMap(t).kinds) == taintMap(t) && |r.kinds| == |taintMap(t).kinds|
    && forall k :: 0 <= k < |r.kinds| ==> r.kinds[k] == flowMap(taintMap(t).kinds[k])
  }

  method MapTaintConditions(conditions: seq<Condition>, flowMap: FlowMap, taintMap: TaintMap)
    returns (result: seq<Condition>)
    ensures result == MapConditions(conditions, flowMap, taintMap)
    ensures SameShape(result, conditions)
    ensures forall i, j :: 0 <= i < |result| && 0 <= j < |result[i].taint| ==>
              IsMapped(conditions[i].taint[j], flowMap, taintMap, result[i].taint[j])
  {
    result := conditions;
    for i := 0 to |result|
      invariant |result| == |conditions|
      invariant forall k :: 0 <= k < |result| ==>
                  result[k] == if k < i then MapConditions(conditions, flowMap, taintMap)[k] else conditions[k]
    {
      var taint := conditions[i].taint;
      for j := 0 to |taint|
        invariant |taint| == |conditions[i].taint|
        invariant forall k :: 0 <= k < |taint| ==>
                    taint[k] == if k < j then MapTaint(conditions[i].taint[k], flowMap, taintMap)
                                else conditions[i].taint[k]
      {
        var t := taintMap(taint[j]);
        taint := taint[j := t.(kinds := MapFlows(t.kinds, flowMap))];
      }
      assert taint == MapConditions(conditions, flowMap, taintMap)[i].taint;
      result := result[i := result[i].(taint := taint)];
    }
  }

  function RemoveTitoPositions(conditions: seq<Condition>): seq<Condition> {
    MapConditions(conditions, f => f, (t: LocalTaint) => t.(titoPositions := None))
  }

  function RemoveClassIntervals(conditions: seq<Condition>): seq<Condition> {
    MapConditions(conditions, f => f,
                  (t: LocalTaint) => t.(receiverInterval := None, callerInterval := None, isSelfCall := None))
  }

  function RemoveFeatures(conditions: seq<Condition>): seq<Condition> {
    MapConditions(conditions, (f: Flow) => f.(features := None), (t: LocalTaint) => t.(localFeatures := None))
  }

  /** Tito positions are removed from every local taint, and nothing else changes. */
  lemma TitoPositionsAreRemoved(conditions: seq<Condition>)
    ensures var r := RemoveTitoPositions(conditions);
            && SameShape(r, conditions)
            && forall i, j :: 0 <= i < |r| && 0 <= j < |r[i].taint| ==>
                 r[i].taint[j] == conditions[i].taint[j].(titoPositions := None)
  {
    var r := RemoveTitoPositions(conditions);
    forall i, j | 0 <= i < |r| && 0 <= j < |r[i].taint|
      ensures r[i].taint[j] == conditions[i].taint[j].(titoPositions := None)
    {
      assert r[i].taint[j].kinds == conditions[i].taint[j].kinds;
    }
  }

  /** Receiver and caller intervals and the self-call mark are removed, and nothing else changes. */
  lemma ClassIntervalsAreRemoved(conditions: seq<Condition>)
    ensures var r := RemoveClassIntervals(conditions);
            && SameShape(r, conditions)
            && forall i, j :: 0 <= i < |r| && 0 <= j < |r[i].taint| ==>
                 r[i].taint[j]
                 == conditions[i].taint[j].(receiverInterval := None, callerInterval := None, isSelfCall := None)
  {
    var r := RemoveClassIntervals(conditions);
    forall i, j | 0 <= i < |r| && 0 <= j < |r[i].taint|
      ensures r[i].taint[j]
              == conditions[i].taint[j].(receiverInterval := None, callerInterval := None, isSelfCall := None)
    {
      assert r[i].taint[j].kinds == conditions[i].taint[j].kinds;
    }
  }

  /** Local features are removed from every local taint and features from every flow; local features
      of flows and everything else stay. */
  lemma FeaturesAreRemoved(conditions: seq<Condition>)
    ensures var r := RemoveFeatures(conditions);
            && SameShape(r, conditions)
            && forall i, j :: 0 <= i < |r| && 0 <= j < |r[i].taint| ==>
                 var (t, t') := (conditions[i].taint[j], r[i].taint[j]);
                 && t' == t.(localFeatures := None, kinds := t'.kinds) && |t'.kinds| == |t.kinds|
                 && forall k :: 0 <= k < |t.kinds| ==> t'.kinds[k] == t.kinds[k].(features := None)
  {
  }

  /** The maps touch nothing that a key or a distance is made of. */
  ghost predicate Harmless(flowMap: FlowMap, taintMap: TaintMap) {
    && (forall f :: flowMap(f).kind == f.kind && flowMap(f).length == f.length && flowMap(f).leaves == f.leaves)
    && (forall t :: taintMap(t).fragment == t.fragment && taintMap(t).kinds == t.kinds
                    && taintMap(t).typeInterval == t.typeInterval)
  }

  function KeysAndDistances(frames: Result<seq<TaintFrame>>): Result<seq<(Key, Option<int>)>> {
    match frames
    case Raised => Raised
    case Ok(fs) => Ok(seq(|fs|, i requires 0 <= i < |fs| => (KeyOf(fs[i]), fs[i].distance)))
  }

  lemma KeysAppend(a: Result<seq<TaintFrame>>, a': Result<seq<TaintFrame>>,
                   b: Result<seq<TaintFrame>>, b': Result<seq<TaintFrame>>)
    requires KeysAndDistances(a) == KeysAndDistances(a') && KeysAndDistances(b) == KeysAndDistances(b')
    ensures KeysAndDistances(Append(a, b)) == KeysAndDistances(Append(a', b'))
  {
    if a.Ok? && b.Ok? {
      var x, x', y, y' := KeysAndDistances(a).value, KeysAndDistances(a').value,
                          KeysAndDistances(b).value, KeysAndDistances(b').value;
      assert x == x' && y == y';
      assert KeysAndDistances(Append(a, b)).value == x + y;
      assert KeysAndDistances(Append(a', b')).value == x' + y';
    }
  }

  lemma FlowKeepsKeys(c: Context, port: string, t: LocalTaint, t': LocalTaint, f: Flow, f': Flow)
    requires t'.fragment == t.fragment && t'.typeInterval == t.typeInterval
    requires f'.kind == f.kind && f'.length == f.length && f'.leaves == f.leaves
    ensures KeysAndDistances(Ok(FlowFrames(c, port, t', f'))) == KeysAndDistances(Ok(FlowFrames(c, port, t, f)))
  {
    var frames, frames' := FlowFrames(c, port, t, f), FlowFrames(c, port, t', f');
    assert |frames'| == |frames|;
    assert forall i :: 0 <= i < |frames| ==>
      KeyOf(frames'[i]) == KeyOf(frames[i]) && frames'[i].distance == frames[i].distance;
    assert KeysAndDistances(Ok(frames')).value == KeysAndDistances(Ok(frames)).value;
  }

  lemma {:induction false} FlowsKeepKeys(c: Context, port: string, t: LocalTaint, t': LocalTaint,
                                         flows: seq<Flow>, flowMap: FlowMap, taintMap: TaintMap)
    requires Harmless(flowMap, taintMap)
    requires t'.fragment == t.fragment && t'.typeInterval == t.typeInterval
    ensures KeysAndDistances(FlowsFrames(c, port, t', MapFlows(flows, flowMap), false))
            == KeysAndDistances(FlowsFrames(c, port, t, flows, false))
  {
    if flows == [] {
    } else {
      FlowsKeepKeys(c, port, t, t', flows[1..], flowMap, taintMap);
      var flows' := MapFlows(flows, flowMap);
      assert flows'[1..] == MapFlows(flows[1..], flowMap);
      var here, here' := Ok(FlowFrames(c, port, t, flows[0])), Ok(FlowFrames(c, port, t', flows'[0]));
      FlowKeepsKeys(c, port, t, t', flows[0], flows'[0]);
      KeysAppend(here', here,
                 FlowsFrames(c, port, t', flows'[1..], false), FlowsFrames(c, port, t, flows[1..], false));
    }
  }

  lemma {:induction false} TaintsKeepKeys(c: Context, port: string, taints: seq<LocalTaint>, taints': seq<LocalTaint>,
                                          flowMap: FlowMap, taintMap: TaintMap)
    requires Harmless(flowMap, taintMap) && |taints'| == |taints|
    requires forall j :: 0 <= j < |taints| ==> taints'[j] == MapTaint(taints[j], flowMap, taintMap)
    ensures KeysAndDistances(TaintsFrames(c, port, taints', false))
            == KeysAndDistances(TaintsFrames(c, port, taints, false))
  {
    if taints == [] {
    } else {
      var t, t' := taints[0], taints'[0];
      TaintsKeepKeys(c, port, taints[1..], taints'[1..], flowMap, taintMap);
      FlowsKeepKeys(c, port, t, t', t.kinds, flowMap, taintMap);
      KeysAppend(LocalTaintFrames(c, port, t', false), LocalTaintFrames(c, port, t, false),
                 TaintsFrames(c, port, taints'[1..], false), TaintsFrames(c, port, taints[1..], false));
    }
  }

  lemma {:induction false} MapKeepsKeys(c: Context, conditions: seq<Condition>, flowMap: FlowMap, taintMap: TaintMap)
    requires Harmless(flowMap, taintMap)
    ensures KeysAndDistances(Frames(c, MapConditions(conditions, flowMap, taintMap), false))
            == KeysAndDistances(Frames(c, conditions, false))
  {
    if conditions == [] {
    } else {
      var mapped := MapConditions(conditions, flowMap, taintMap);
      MapKeepsKeys(c, conditions[1..], flowMap, taintMap);
      assert mapped[1..] == MapConditions(conditions[1..], flowMap, taintMap);
      TaintsKeepKeys(c, conditions[0].port, conditions[0].taint, mapped[0].taint, flowMap, taintMap);
      KeysAppend(TaintsFrames(c, mapped[0].port, mapped[0].taint, false),
                 TaintsFrames(c, conditions[0].port, conditions[0].taint, false),
                 Frames(c, mapped[1..], false), Frames(c, conditions[1..], false));
    }
  }

  /** Stripping tito positions, class intervals and features leaves the sequence of frame keys
      and distances, and whether the enumeration raises, unchanged. */
  lemma StrippingKeepsKeys(c: Context, conditions: seq<Condition>)
    ensures KeysAndDistances(Frames(c, RemoveTitoPositions(conditions), false))
            == KeysAndDistances(Frames(c, conditions, false))
    ensures KeysAndDistances(Frames(c, RemoveClassIntervals(conditions), false))
            == KeysAndDistances(Frames(c, conditions, false))
    ensures KeysAndDistances(Frames(c, RemoveFeatures(conditions), false))
            == KeysAndDistances(Frames(c, conditions, false))
  {
    MapKeepsKeys(c, conditions, f => f, (t: LocalTaint) => t.(titoPositions := None));
    MapKeepsKeys(c, conditions, f => f,
                 (t: LocalTaint) => t.(receiverInterval := None, callerInterval := None, isSelfCall := None));
    MapKeepsKeys(c, conditions, (f: Flow) => f.(features := None), (t: LocalTaint) => t.(localFeatures := None));
  }
}
