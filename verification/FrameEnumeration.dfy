/** Which frames a taint model enumerates (scripts/explore_pysa_models.py:784-907), read off the
    model data alone: nothing is missing, nothing is added, and the order is that of the model. */
module FrameEnumeration {
  import opened Outcomes
  import opened TaintModels

  /** A frame of one element of `kinds`: callee and port are those of a leaf, both unknown if no
      leaves are listed, or those of a resolved call. */
  ghost predicate IsFrameOfFlow(c: Context, port: string, t: LocalTaint, flow: Flow, f: TaintFrame) {
    && f.conditionKind == c.kind && f.caller == c.caller && f.callerPort == port && f.taintKind == flow.kind
    && f.distance == Some(if flow.length.Some? then flow.length.value else 0)
    && f.location.filename == c.filename && f.location.path == c.path
    && f.sharedLocalFeatures == t.localFeatures && f.localFeatures == flow.localFeatures
    && f.typeInterval == (if t.typeInterval.Some? then t.typeInterval.value else "{}")
    && match t.fragment
       case Origin(position) =>
         && f.location.position == position
         && (flow.leaves.None? ==> f.callee.None? && f.calleePort.None?)
         && (flow.leaves.Some? ==> Leaf(f.callee, f.calleePort) in flow.leaves.value)
       case CallTo(call) =>
         && f.location.position == call.position && f.calleePort == Some(call.port)
         && f.callee.Some? && f.callee.value in call.resolvesTo
       case _ => false
  }

  ghost predicate IsFrameOfSubtrace(c: Context, x: ExtraTrace, f: TaintFrame) {
    && f.conditionKind == (if x.traceKind == "source" then Source else Sink)
    && f.caller == c.caller && f.callerPort == "subtrace" && f.taintKind == x.leafKind && f.distance.None?
    && f.location.filename == c.filename && f.location.path == c.path
    && f.sharedLocalFeatures.None? && f.localFeatures.None? && f.typeInterval == "{}"
    && x.call.Some? && f.location.position == x.call.value.position && f.calleePort == Some(x.call.value.port)
    && f.callee.Some? && f.callee.value in x.call.value.resolvesTo
  }

  predicate IsFollowed(t: LocalTaint) {
    t.fragment.Origin? || t.fragment.CallTo?
  }

  /** Subtraces hang on a local taint, or on an element of its `kinds` if those are enumerated. */
  ghost predicate HasSubtrace(t: LocalTaint, x: ExtraTrace) {
    x in t.extraTraces || (IsFollowed(t) && OnSomeFlow(t.kinds, x))
  }

  ghost predicate OnSomeFlow(flows: seq<Flow>, x: ExtraTrace) {
    exists flow :: flow in flows && x in flow.extraTraces
  }

  ghost predicate IsFrameOfTaint(c: Context, port: string, t: LocalTaint, subtraces: bool, f: TaintFrame) {
    || (exists flow :: flow in t.kinds && IsFrameOfFlow(c, port, t, flow, f))
    || (subtraces && exists x :: HasSubtrace(t, x) && IsFrameOfSubtrace(c, x, f))
  }

  ghost predicate IsFrame(c: Context, conditions: seq<Condition>, subtraces: bool, f: TaintFrame) {
    exists d, t :: d in conditions && t in d.taint && IsFrameOfTaint(c, d.port, t, subtraces, f)
  }

  predicate IsUnknown(x: ExtraTrace) {
    x.traceKind != "source" && x.traceKind != "sink"
  }

  /** A local taint without any of the three keys, or an enumerated subtrace of unknown kind. */
  ghost predicate IsMalformed(t: LocalTaint, subtraces: bool) {
    t.fragment.Unexpected? || (subtraces && exists x :: HasSubtrace(t, x) && IsUnknown(x))
  }

  ghost predicate SomeMalformed(conditions: seq<Condition>, subtraces: bool) {
    exists d, t :: d in conditions && t in d.taint && IsMalformed(t, subtraces)
  }

  lemma FlowFramesAre(c: Context, port: string, t: LocalTaint, flow: Flow)
    ensures forall f :: f in FlowFrames(c, port, t, flow) <==> IsFrameOfFlow(c, port, t, flow, f)
  {
    var frames := FlowFrames(c, port, t, flow);
    var interval, length := t.typeInterval.GetOr("{}"), flow.length.GetOr(0);
    match t.fragment {
      case Origin(position) =>
        var leaves := flow.leaves.GetOr([Leaf(None, None)]);
        forall f | IsFrameOfFlow(c, port, t, flow, f) ensures f in frames {
          assert Leaf(f.callee, f.calleePort) in leaves && f.location == c.Locate(position);
          var i :| 0 <= i < |leaves| && leaves[i] == Leaf(f.callee, f.calleePort);
          assert frames[i] == f;
        }
        assert forall i :: 0 <= i < |leaves| ==> leaves[i] in leaves && IsFrameOfFlow(c, port, t, flow, frames[i]);
      case CallTo(call) =>
        var location := c.Locate(call.position);
        forall f | IsFrameOfFlow(c, port, t, flow, f) ensures f in frames {
          assert f.location == location;
          var i :| 0 <= i < |call.resolvesTo| && call.resolvesTo[i] == f.callee.value;
          assert frames[i] == f;
        }
        assert forall i :: 0 <= i < |frames| ==>
          call.resolvesTo[i] in call.resolvesTo && IsFrameOfFlow(c, port, t, flow, frames[i]);
      case _ =>
    }
  }

  lemma SubtraceFramesAre(c: Context, x: ExtraTrace)
    ensures SubtraceFrames(c, x).Raised? <==> IsUnknown(x)
    ensures SubtraceFrames(c, x).Ok? ==>
              forall f :: f in SubtraceFrames(c, x).value <==> IsFrameOfSubtrace(c, x, f)
  {
    if !IsUnknown(x) && x.call.Some? {
      var call, frames := x.call.value, SubtraceFrames(c, x).value;
      var location := c.Locate(call.position);
      forall f | IsFrameOfSubtrace(c, x, f) ensures f in frames {
        assert f.location == location;
        var i :| 0 <= i < |call.resolvesTo| && call.resolvesTo[i] == f.callee.value;
        assert frames[i] == f;
      }
      forall i | 0 <= i < |frames| ensures IsFrameOfSubtrace(c, x, frames[i]) {
        assert call.resolvesTo[i] in call.resolvesTo;
      }
    }
  }

  lemma {:induction false} ExtraTraceFramesAre(c: Context, traces: seq<ExtraTrace>)
    ensures ExtraTraceFrames(c, traces).Raised? <==> exists x :: x in traces && IsUnknown(x)
    ensures ExtraTraceFrames(c, traces).Ok? ==>
              forall f :: f in ExtraTraceFrames(c, traces).value <==>
                exists x :: x in traces && IsFrameOfSubtrace(c, x, f)
  {
    if traces == [] {
    } else {
      SubtraceFramesAre(c, traces[0]);
      ExtraTraceFramesAre(c, traces[1..]);
      assert forall x :: x in traces <==> x == traces[0] || x in traces[1..];
    }
  }

  lemma {:induction false} FlowsFramesAre(c: Context, port: string, t: LocalTaint, flows: seq<Flow>, subtraces: bool)
    ensures FlowsFrames(c, port, t, flows, subtraces).Raised? <==>
              subtraces && exists x :: OnSomeFlow(flows, x) && IsUnknown(x)
    ensures FlowsFrames(c, port, t, flows, subtraces).Ok? ==>
              forall f :: f in FlowsFrames(c, port, t, flows, subtraces).value <==>
                || (exists flow :: flow in flows && IsFrameOfFlow(c, port, t, flow, f))
                || (subtraces && exists x :: OnSomeFlow(flows, x) && IsFrameOfSubtrace(c, x, f))
  {
    if flows == [] {
    } else {
      FlowFramesAre(c, port, t, flows[0]);
      ExtraTraceFramesAre(c, flows[0].extraTraces);
      FlowsFramesAre(c, port, t, flows[1..], subtraces);
      assert forall flow :: flow in flows <==> flow == flows[0] || flow in flows[1..];
      assert forall x :: OnSomeFlow(flows, x) <==> x in flows[0].extraTraces || OnSomeFlow(flows[1..], x);
    }
  }

  lemma LocalTaintFramesAre(c: Context, port: string, t: LocalTaint, subtraces: bool)
    ensures LocalTaintFrames(c, port, t, subtraces).Raised? <==> IsMalformed(t, subtraces)
    ensures LocalTaintFrames(c, port, t, subtraces).Ok? ==>
              forall f :: f in LocalTaintFrames(c, port, t, subtraces).value <==>
                IsFrameOfTaint(c, port, t, subtraces, f)
  {
    FlowsFramesAre(c, port, t, t.kinds, subtraces);
    ExtraTraceFramesAre(c, t.extraTraces);
  }

  lemma {:induction false} TaintsFramesAre(c: Context, port: string, taints: seq<LocalTaint>, subtraces: bool)
    ensures TaintsFrames(c, port, taints, subtraces).Raised? <==>
              exists t :: t in taints && IsMalformed(t, subtraces)
    ensures TaintsFrames(c, port, taints, subtraces).Ok? ==>
              forall f :: f in TaintsFrames(c, port, taints, subtraces).value <==>
                exists t :: t in taints && IsFrameOfTaint(c, port, t, subtraces, f)
  {
    if taints == [] {
    } else {
      LocalTaintFramesAre(c, port, taints[0], subtraces);
      TaintsFramesAre(c, port, taints[1..], subtraces);
      assert forall t :: t in taints <==> t == taints[0] || t in taints[1..];
    }
  }

  /** Enumerating raises exactly when some local taint is malformed; otherwise exactly the frames
      that the model describes come out. */
  lemma {:induction false} FramesAre(c: Context, conditions: seq<Condition>, subtraces: bool)
    ensures Frames(c, conditions, subtraces).Raised? <==> SomeMalformed(conditions, subtraces)
    ensures Frames(c, conditions, subtraces).Ok? ==>
              forall f :: f in Frames(c, conditions, subtraces).value <==> IsFrame(c, conditions, subtraces, f)
  {
    if conditions == [] {
    } else {
      TaintsFramesAre(c, conditions[0].port, conditions[0].taint, subtraces);
      FramesAre(c, conditions[1..], subtraces);
      assert forall d :: d in conditions <==> d == conditions[0] || d in conditions[1..];
    }
  }

  // ----- Order and multiplicity

  lemma AppendAssociative<T>(x: Result<seq<T>>, y: Result<seq<T>>, z: Result<seq<T>>)
    ensures Append(x, Append(y, z)) == Append(Append(x, y), z)
    ensures Append(Ok([]), x) == x && Append(x, Ok([])) == x
  {
    if x.Ok? {
      assert [] + x.value == x.value && x.value + [] == x.value;
      if y.Ok? && z.Ok? {
        assert x.value + (y.value + z.value) == x.value + y.value + z.value;
      }
    }
  }

  lemma {:induction false} FramesOfTwo(c: Context, a: seq<Condition>, b: seq<Condition>, subtraces: bool)
    ensures Frames(c, a + b, subtraces) == Append(Frames(c, a, subtraces), Frames(c, b, subtraces))
  {
    if a == [] {
      assert a + b == b;
      AppendAssociative(Frames(c, b, subtraces), Ok([]), Ok([]));
    } else {
      FramesOfTwo(c, a[1..], b, subtraces);
      assert (a + b)[0] == a[0] && (a + b)[1..] == a[1..] + b;
      AppendAssociative(TaintsFrames(c, a[0].port, a[0].taint, subtraces), Frames(c, a[1..], subtraces),
                        Frames(c, b, subtraces));
    }
  }

  lemma {:induction false} TaintsFramesOfTwo(c: Context, port: string, a: seq<LocalTaint>, b: seq<LocalTaint>,
                                             subtraces: bool)
    ensures TaintsFrames(c, port, a + b, subtraces)
            == Append(TaintsFrames(c, port, a, subtraces), TaintsFrames(c, port, b, subtraces))
  {
    if a == [] {
      assert a + b == b;
      AppendAssociative(TaintsFrames(c, port, b, subtraces), Ok([]), Ok([]));
    } else {
      TaintsFramesOfTwo(c, port, a[1..], b, subtraces);
      assert (a + b)[0] == a[0] && (a + b)[1..] == a[1..] + b;
      AppendAssociative(LocalTaintFrames(c, port, a[0], subtraces), TaintsFrames(c, port, a[1..], subtraces),
                        TaintsFrames(c, port, b, subtraces));
    }
  }

  /** Two runs of local taints under one port. */
  lemma FramesOfTwoRuns(c: Context, port: string, a: seq<LocalTaint>, b: seq<LocalTaint>, subtraces: bool)
    ensures Frames(c, [Condition(port, a + b)], subtraces)
            == Append(Frames(c, [Condition(port, a)], subtraces), Frames(c, [Condition(port, b)], subtraces))
  {
    TaintsFramesOfTwo(c, port, a, b, subtraces);
    forall taints | taints in [a, b, a + b]
      ensures Frames(c, [Condition(port, taints)], subtraces) == TaintsFrames(c, port, taints, subtraces)
    {
      assert [Condition(port, taints)][1..] == [];
      AppendAssociative(TaintsFrames(c, port, taints, subtraces), Ok([]), Ok([]));
    }
    assert a in [a, b, a + b] && b in [a, b, a + b] && a + b in [a, b, a + b];
  }

  lemma {:induction false} FlowsFramesOfTwo(c: Context, port: string, t: LocalTaint, a: seq<Flow>, b: seq<Flow>)
    ensures FlowsFrames(c, port, t, a + b, false)
            == Append(FlowsFrames(c, port, t, a, false), FlowsFrames(c, port, t, b, false))
  {
    if a == [] {
      assert a + b == b;
      AppendAssociative(FlowsFrames(c, port, t, b, false), Ok([]), Ok([]));
    } else {
      FlowsFramesOfTwo(c, port, t, a[1..], b);
      assert (a + b)[0] == a[0] && (a + b)[1..] == a[1..] + b;
      AppendAssociative(Ok(FlowFrames(c, port, t, a[0])), FlowsFrames(c, port, t, a[1..], false),
                        FlowsFrames(c, port, t, b, false));
    }
  }

  /** A model with one condition, which has one local taint. */
  function Single(port: string, t: LocalTaint, kinds: seq<Flow>): seq<Condition> {
    [Condition(port, [t.(kinds := kinds)])]
  }

  lemma {:induction false} FlowsFramesIgnoreKinds(c: Context, port: string, t: LocalTaint, kinds: seq<Flow>,
                                                  flows: seq<Flow>)
    ensures FlowsFrames(c, port, t.(kinds := kinds), flows, false) == FlowsFrames(c, port, t, flows, false)
  {
    if flows == [] {
    } else {
      FlowsFramesIgnoreKinds(c, port, t, kinds, flows[1..]);
      assert FlowFrames(c, port, t.(kinds := kinds), flows[0]) == FlowFrames(c, port, t, flows[0]);
    }
  }

  lemma FramesOfSingle(c: Context, port: string, t: LocalTaint, kinds: seq<Flow>)
    ensures t.fragment.Unexpected? <==> Frames(c, Single(port, t, kinds), false).Raised?
    ensures IsFollowed(t) ==> Frames(c, Single(port, t, kinds), false) == FlowsFrames(c, port, t, kinds, false)
    ensures t.fragment.Declaration? ==> Frames(c, Single(port, t, kinds), false) == Ok([])
  {
    var t' := t.(kinds := kinds);
    var conditions := Single(port, t, kinds);
    assert conditions[1..] == [] && conditions[0].taint[1..] == [];
    assert TaintsFrames(c, port, [t'], false) == Append(LocalTaintFrames(c, port, t', false), Ok([]));
    AppendAssociative(LocalTaintFrames(c, port, t', false), Ok([]), Ok([]));
    FlowsFramesIgnoreKinds(c, port, t, kinds, kinds);
    FlowsFramesAre(c, port, t, kinds, false);
  }

  /** Frames come in the order of the model: cutting the list of conditions, of local taints or of
      kinds anywhere cuts the list of frames, and one kind gives one frame per leaf or per resolved
      callee, in their order. */
  lemma FramesAreInOrder(c: Context, port: string, t: LocalTaint, flow: Flow, before: seq<Flow>, after: seq<Flow>)
    requires IsFollowed(t)
    ensures Frames(c, Single(port, t, before + [flow] + after), false)
            == Append(Append(Frames(c, Single(port, t, before), false), Frames(c, Single(port, t, [flow]), false)),
                      Frames(c, Single(port, t, after), false))
    ensures Frames(c, Single(port, t, [flow]), false).Ok?
    ensures var frames := Frames(c, Single(port, t, [flow]), false).value;
            match t.fragment
            case Origin(_) =>
              var leaves := if flow.leaves.Some? then flow.leaves.value else [Leaf(None, None)];
              |frames| == |leaves|
              && forall i :: 0 <= i < |leaves| ==> Leaf(frames[i].callee, frames[i].calleePort) == leaves[i]
            case CallTo(call) =>
              |frames| == |call.resolvesTo|
              && forall i :: 0 <= i < |frames| ==> frames[i].callee == Some(call.resolvesTo[i])
            case _ => true
  {
    FramesOfSingle(c, port, t, before + [flow] + after);
    FramesOfSingle(c, port, t, before);
    FramesOfSingle(c, port, t, [flow]);
    FramesOfSingle(c, port, t, after);
    FlowsFramesOfTwo(c, port, t, before + [flow], after);
    FlowsFramesOfTwo(c, port, t, before, [flow]);
    AppendAssociative(Ok(FlowFrames(c, port, t, flow)), Ok([]), Ok([]));
  }
}
