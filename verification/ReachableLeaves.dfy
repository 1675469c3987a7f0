/** `print_reachable_leaves` of scripts/explore_pysa_models.py: from the frames of one callable,
    follow ports and taint kinds from model to model and print the leaves. */
module ReachableLeaves {
  import opened Outcomes
  import opened TaintModels
  import opened FrameEnumeration
  import Worklist

  function Normalize(c: char): char {
    if c == '@' then ':' else c
  }

  /** Kinds match up to the separators `@` and `:`. */
  predicate TaintKindMatch(a: string, b: string) {
    |a| == |b| && forall i :: 0 <= i < |a| ==> Normalize(a[i]) == Normalize(b[i])
  }

  /** Everything after the first `@`, or the whole kind. */
  function TaintKindNextHop(kind: string): string {
    AfterAt(kind, kind)
  }

  function AfterAt(rest: string, default: string): string {
    if rest == "" then default
    else if rest[0] == '@' then rest[1..]
    else AfterAt(rest[1..], default)
  }

  /** The next hop is the kind itself, or what follows its first `@`. */
  lemma NextHopSplits(kind: string)
    ensures '@' !in kind ==> TaintKindNextHop(kind) == kind
    ensures forall i :: 0 <= i < |kind| && kind[i] == '@' && '@' !in kind[..i] ==>
              TaintKindNextHop(kind) == kind[i + 1..]
  {
    NextHopOfSuffix(kind, kind);
  }

  lemma {:induction false} NextHopOfSuffix(rest: string, default: string)
    ensures '@' !in rest ==> AfterAt(rest, default) == default
    ensures forall i :: 0 <= i < |rest| && rest[i] == '@' && '@' !in rest[..i] ==>
              AfterAt(rest, default) == rest[i + 1..]
  {
    if rest != "" && rest[0] != '@' {
      NextHopOfSuffix(rest[1..], default);
      forall i | 0 <= i < |rest| && rest[i] == '@' && '@' !in rest[..i]
        ensures AfterAt(rest, default) == rest[i + 1..]
      {
        assert rest[1..][i - 1] == '@' && rest[..i][1..] == rest[1..][..i - 1];
        assert rest[1..][i..] == rest[i + 1..];
      }
    } else if rest != "" {
      assert forall i :: 0 < i < |rest| ==> rest[..i][0] == '@';
    }
  }

  predicate IsLeaf(f: TaintFrame) {
    f.distance == Some(0)
  }

  function Keep(frames: seq<TaintFrame>, keep: TaintFrame -> bool): (r: seq<TaintFrame>)
    ensures forall f :: f in r <==> f in frames && keep(f)
  {
    if frames == [] then []
    else
      var rest := Keep(frames[1..], keep);
      if keep(frames[0]) then [frames[0]] + rest else rest
  }

  /** All frames of a callable; `Raised` when it has no model, as for a frame without callee. */
  function FramesOf(models: map<string, Model>, kind: ConditionKind, callable: Option<string>)
    : Result<seq<TaintFrame>>
  {
    if callable.None? || callable.value !in models then Raised
    else
      var m := models[callable.value];
      Frames(Context(kind, callable.value, m.filename, m.path), if kind.Source? then m.sources else m.sinks, false)
  }

  /** The next frames of a frame: same port, matching next-hop kind. */
  function Next(models: map<string, Model>, kind: ConditionKind, f: TaintFrame): Option<seq<TaintFrame>> {
    var frames := FramesOf(models, kind, f.callee);
    if frames.Raised? then None
    else
      var hop := TaintKindNextHop(f.taintKind);
      Some(Keep(frames.value, (g: TaintFrame) =>
        Some(g.callerPort) == f.calleePort && TaintKindMatch(g.taintKind, hop)))
  }

  /** What the command is asked for. */
  datatype Query = Query(callable: string, kind: ConditionKind, taintKind: string, subtraces: bool)

  /** Sources, then sinks: a subtrace of one may be a frame of the other kind. */
  function InitialFrames(m: Model, q: Query): Result<seq<TaintFrame>> {
    var all := Append(Frames(Context(Source, q.callable, m.filename, m.path), m.sources, q.subtraces),
                      Frames(Context(Sink, q.callable, m.filename, m.path), m.sinks, q.subtraces));
    if all.Raised? then Raised
    else Ok(Keep(all.value, (f: TaintFrame) => f.conditionKind == q.kind && TaintKindMatch(f.taintKind, q.taintKind)))
  }

  function SearchFrom(models: map<string, Model>, kind: ConditionKind, initial: seq<TaintFrame>)
    : Worklist.Search<TaintFrame, Key>
  {
    Worklist.Search(KeyOf, IsLeaf, f => Next(models, kind, f), initial)
  }

  ghost function FramesOrNone(models: map<string, Model>, kind: ConditionKind, c: string): seq<TaintFrame> {
    var frames := FramesOf(models, kind, Some(c));
    if frames.Ok? then frames.value else []
  }

  ghost function KeysOf(frames: seq<TaintFrame>): set<Key> {
    set f | f in frames :: KeyOf(f)
  }

  ghost function Universe(models: map<string, Model>, kind: ConditionKind, initial: seq<TaintFrame>): set<Key> {
    KeysOf(initial) + set c, k | c in models && k in KeysOf(FramesOrNone(models, kind, c)) :: k
  }

  /** Everything that `Next` looks at is part of the key, and no key comes from outside the models. */
  lemma SearchIsWellPosed(models: map<string, Model>, kind: ConditionKind, initial: seq<TaintFrame>)
    ensures SearchFrom(models, kind, initial).KeyDeterminesNext()
    ensures SearchFrom(models, kind, initial).Bounds(Universe(models, kind, initial))
  {
    var s, universe := SearchFrom(models, kind, initial), Universe(models, kind, initial);
    forall f, g | s.key(f) == s.key(g) ensures s.next(f) == s.next(g) {
      assert f.callee == g.callee && f.calleePort == g.calleePort && f.taintKind == g.taintKind;
    }
    forall f, g | s.next(f).Some? && g in s.next(f).value ensures s.key(g) in universe {
      var c := f.callee.value;
      assert f.callee == Some(c) && g in FramesOrNone(models, kind, c);
      assert KeyOf(g) in KeysOf(FramesOrNone(models, kind, c));
    }
  }

  // ----- Trails, read off the models

  /** Equal up to the separators. */
  ghost predicate SameKind(a: string, b: string) {
    |a| == |b| && forall i :: 0 <= i < |a| ==> a[i] == b[i] || (a[i] in "@:" && b[i] in "@:")
  }

  /** What follows the first `@`, or the whole kind. */
  ghost predicate IsNextHop(kind: string, hop: string) {
    if '@' in kind then exists i :: 0 <= i < |kind| && kind[i] == '@' && '@' !in kind[..i] && hop == kind[i + 1..]
    else hop == kind
  }

  function ConditionsOf(m: Model, kind: ConditionKind): seq<Condition> {
    if kind.Source? then m.sources else m.sinks
  }

  /** What the model of a callable enumerates for one kind of condition. */
  ghost predicate IsFrameOf(models: map<string, Model>, callable: string, kind: ConditionKind, subtraces: bool,
                            f: TaintFrame)
  {
    && callable in models
    && IsFrame(Context(kind, callable, models[callable].filename, models[callable].path),
               ConditionsOf(models[callable], kind), subtraces, f)
  }

  /** Where a search begins: a frame of the callable, from its sources or its sinks, of the asked
      condition kind and taint kind. */
  ghost predicate Begins(models: map<string, Model>, q: Query, f: TaintFrame) {
    && (exists kind :: IsFrameOf(models, q.callable, kind, q.subtraces, f))
    && f.conditionKind == q.kind && SameKind(f.taintKind, q.taintKind)
  }

  /** The callee has a model, and its conditions can be enumerated. */
  ghost predicate CanFollow(models: map<string, Model>, kind: ConditionKind, f: TaintFrame) {
    f.callee.Some? && f.callee.value in models && !SomeMalformed(ConditionsOf(models[f.callee.value], kind), false)
  }

  /** One hop: a frame of the callee, at the port that is called, of the kind of the next hop. */
  ghost predicate Hop(models: map<string, Model>, kind: ConditionKind, f: TaintFrame, g: TaintFrame) {
    && f.distance != Some(0) && CanFollow(models, kind, f)
    && IsFrameOf(models, f.callee.value, kind, false, g)
    && f.calleePort == Some(g.callerPort)
    && exists hop :: IsNextHop(f.taintKind, hop) && SameKind(g.taintKind, hop)
  }

  ghost predicate IsTrail(models: map<string, Model>, q: Query, trail: seq<TaintFrame>) {
    && |trail| > 0 && Begins(models, q, trail[0])
    && forall i :: 0 <= i < |trail| - 1 ==> Hop(models, q.kind, trail[i], trail[i + 1])
  }

  ghost predicate OnTrail(models: map<string, Model>, q: Query, f: TaintFrame) {
    exists trail :: IsTrail(models, q, trail) && trail[|trail| - 1] == f
  }

  ghost function OnTrails(models: map<string, Model>, q: Query): iset<TaintFrame> {
    iset f | OnTrail(models, q, f)
  }

  ghost predicate IsTrailLeaf(models: map<string, Model>, q: Query, f: TaintFrame) {
    f in OnTrails(models, q) && f.distance == Some(0)
  }

  /** Equal but for the distance and the features. */
  ghost predicate SameFrame(f: TaintFrame, g: TaintFrame) {
    && f.conditionKind == g.conditionKind && f.caller == g.caller && f.callerPort == g.callerPort
    && f.callee == g.callee && f.calleePort == g.calleePort && f.taintKind == g.taintKind
    && f.location == g.location && f.typeInterval == g.typeInterval
  }

  ghost predicate IsPrinted(f: TaintFrame, printed: seq<TaintFrame>) {
    exists g :: g in printed && SameFrame(f, g)
  }

  /** Frames that are the same agree on having distance 0. */
  ghost predicate LeavesAgree(frames: iset<TaintFrame>) {
    forall f, g :: f in frames && g in frames && SameFrame(f, g) ==>
      (f.distance == Some(0) <==> g.distance == Some(0))
  }

  /** The callable has a model, and its conditions can be enumerated. */
  ghost predicate CanBegin(models: map<string, Model>, q: Query) {
    && q.callable in models
    && !SomeMalformed(models[q.callable].sources, q.subtraces)
    && !SomeMalformed(models[q.callable].sinks, q.subtraces)
  }

  ghost predicate NothingIsMissing(models: map<string, Model>, q: Query) {
    forall f :: f in OnTrails(models, q) && f.distance != Some(0) ==> CanFollow(models, q.kind, f)
  }

  lemma KindsMatch(a: string, b: string)
    ensures TaintKindMatch(a, b) <==> SameKind(a, b)
  {
    if |a| == |b| {
      assert forall i :: 0 <= i < |a| ==>
        (Normalize(a[i]) == Normalize(b[i]) <==> a[i] == b[i] || (a[i] in "@:" && b[i] in "@:"));
    }
  }

  lemma NextHopIs(kind: string, hop: string)
    ensures IsNextHop(kind, hop) <==> hop == TaintKindNextHop(kind)
  {
    NextHopSplits(kind);
    if '@' in kind {
      FirstAt(kind);
    }
  }

  lemma {:induction false} FirstAt(kind: string)
    requires '@' in kind
    ensures exists i :: 0 <= i < |kind| && kind[i] == '@' && '@' !in kind[..i]
  {
    if kind[0] == '@' {
    } else {
      FirstAt(kind[1..]);
      var i :| 0 <= i < |kind| - 1 && kind[1..][i] == '@' && '@' !in kind[1..][..i];
      assert kind[i + 1] == '@' && kind[..i + 1] == [kind[0]] + kind[1..][..i];
    }
  }

  lemma NextIsHop(models: map<string, Model>, kind: ConditionKind, f: TaintFrame)
    ensures Next(models, kind, f).Some? <==> CanFollow(models, kind, f)
    ensures Next(models, kind, f).Some? && f.distance != Some(0) ==>
              forall g :: g in Next(models, kind, f).value <==> Hop(models, kind, f, g)
  {
    if f.callee.Some? && f.callee.value in models {
      var m := models[f.callee.value];
      FramesAre(Context(kind, f.callee.value, m.filename, m.path), ConditionsOf(m, kind), false);
    }
    var hop := TaintKindNextHop(f.taintKind);
    forall h ensures IsNextHop(f.taintKind, h) <==> h == hop {
      NextHopIs(f.taintKind, h);
    }
    forall k ensures TaintKindMatch(k, hop) <==> SameKind(k, hop) {
      KindsMatch(k, hop);
    }
  }

  lemma InitialIsBeginning(models: map<string, Model>, q: Query)
    requires q.callable in models
    ensures InitialFrames(models[q.callable], q).Ok? <==> CanBegin(models, q)
    ensures CanBegin(models, q) ==>
              forall f :: f in InitialFrames(models[q.callable], q).value <==> Begins(models, q, f)
  {
    var m := models[q.callable];
    FramesAre(Context(Source, q.callable, m.filename, m.path), m.sources, q.subtraces);
    FramesAre(Context(Sink, q.callable, m.filename, m.path), m.sinks, q.subtraces);
    if CanBegin(models, q) {
      var sources := Frames(Context(Source, q.callable, m.filename, m.path), m.sources, q.subtraces).value;
      var sinks := Frames(Context(Sink, q.callable, m.filename, m.path), m.sinks, q.subtraces).value;
      forall f
        ensures (exists kind :: IsFrameOf(models, q.callable, kind, q.subtraces, f)) <==> f in sources + sinks
      {
        assert IsFrameOf(models, q.callable, Source, q.subtraces, f) <==> f in sources;
        assert IsFrameOf(models, q.callable, Sink, q.subtraces, f) <==> f in sinks;
      }
    }
    forall k ensures TaintKindMatch(k, q.taintKind) <==> SameKind(k, q.taintKind) {
      KindsMatch(k, q.taintKind);
    }
  }

  /** The paths of the search are the trails. */
  lemma SearchFollowsTrails(models: map<string, Model>, q: Query)
    requires CanBegin(models, q) && InitialFrames(models[q.callable], q).Ok?
    ensures SearchFrom(models, q.kind, InitialFrames(models[q.callable], q).value).ReachSet() == OnTrails(models, q)
  {
    var s := SearchFrom(models, q.kind, InitialFrames(models[q.callable], q).value);
    InitialIsBeginning(models, q);
    forall f, g ensures s.Leads(f, g) <==> Hop(models, q.kind, f, g) {
      NextIsHop(models, q.kind, f);
    }
    assert forall p :: s.IsPath(p) <==> IsTrail(models, q, p);
  }

  /** The whole command. It raises at once, with nothing printed, when the callable has no model or
      its conditions cannot be enumerated. Otherwise it prints leaves at the end of trails, no frame
      twice. If frames on trails that are the same agree on having distance 0, it raises exactly
      when some other frame on a trail cannot be followed, and else prints all leaves on trails. */
  method PrintReachableLeaves(models: map<string, Model>, q: Query) returns (printed: seq<TaintFrame>, raised: bool)
    ensures !CanBegin(models, q) ==> raised && printed == []
    ensures forall f :: f in printed ==> IsTrailLeaf(models, q, f)
    ensures forall i, j :: 0 <= i < j < |printed| ==> !SameFrame(printed[i], printed[j])
    ensures CanBegin(models, q) && NothingIsMissing(models, q) ==> !raised
    ensures CanBegin(models, q) && LeavesAgree(OnTrails(models, q)) ==> (raised <==> !NothingIsMissing(models, q))
    ensures !raised && LeavesAgree(OnTrails(models, q)) ==>
              forall f :: IsTrailLeaf(models, q, f) ==> IsPrinted(f, printed)
  {
    if q.callable !in models {
      return [], true;
    }
    InitialIsBeginning(models, q);
    var initial := InitialFrames(models[q.callable], q);
    if initial.Raised? {
      return [], true;
    }
    printed, raised := FollowTrails(models, q, initial.value);
  }

  /** The loop of the command. */
  method FollowTrails(models: map<string, Model>, q: Query, initial: seq<TaintFrame>)
    returns (printed: seq<TaintFrame>, raised: bool)
    requires CanBegin(models, q) && InitialFrames(models[q.callable], q) == Ok(initial)
    ensures forall f :: f in printed ==> IsTrailLeaf(models, q, f)
    ensures forall i, j :: 0 <= i < j < |printed| ==> !SameFrame(printed[i], printed[j])
    ensures NothingIsMissing(models, q) ==> !raised
    ensures LeavesAgree(OnTrails(models, q)) ==> (raised <==> !NothingIsMissing(models, q))
    ensures !raised && LeavesAgree(OnTrails(models, q)) ==>
              forall f :: IsTrailLeaf(models, q, f) ==> IsPrinted(f, printed)
  {
    var s := SearchFrom(models, q.kind, initial);
    SearchIsWellPosed(models, q.kind, initial);
    SearchFollowsTrails(models, q);
    CompleteIs(models, q, s);
    KeysAgreeIs(s, OnTrails(models, q));
    printed, raised := s.Run(Universe(models, q.kind, initial));
    OnlyLeavesArePrinted(models, q, s, printed);
    if !raised && s.KeysAgree() {
      AllLeavesArePrinted(models, q, s, printed);
    }
  }

  // What the search is said to do, in terms of trails.

  lemma {:induction false} CompleteIs(models: map<string, Model>, q: Query, s: Worklist.Search<TaintFrame, Key>)
    requires s.next == (f => Next(models, q.kind, f)) && s.isLeaf == IsLeaf && s.ReachSet() == OnTrails(models, q)
    ensures s.Complete() <==> NothingIsMissing(models, q)
  {
    s.OverReachSet();
    forall f ensures s.next(f).Some? <==> CanFollow(models, q.kind, f) {
      NextIsHop(models, q.kind, f);
    }
  }

  lemma {:induction false} KeysAgreeIs(s: Worklist.Search<TaintFrame, Key>, frames: iset<TaintFrame>)
    requires s.key == KeyOf && s.isLeaf == IsLeaf && s.ReachSet() == frames
    ensures s.KeysAgree() <==> LeavesAgree(frames)
  {
    s.OverReachSet();
    if s.KeysAgree() {
      forall f, g | f in frames && g in frames && SameFrame(f, g)
        ensures f.distance == Some(0) <==> g.distance == Some(0)
      {
        assert s.key(f) == s.key(g) && s.isLeaf(f) == s.isLeaf(g);
      }
    } else {
      var f, g :| f in frames && g in frames && s.key(f) == s.key(g) && s.isLeaf(f) != s.isLeaf(g);
      KeysAreFrames(f, g);
    }
  }

  lemma {:induction false} OnlyLeavesArePrinted(models: map<string, Model>, q: Query,
                                                s: Worklist.Search<TaintFrame, Key>, printed: seq<TaintFrame>)
    requires s.key == KeyOf && s.isLeaf == IsLeaf && s.ReachSet() == OnTrails(models, q)
    requires forall f :: f in printed ==> s.Reachable(f) && s.isLeaf(f)
    requires forall i, j :: 0 <= i < j < |printed| ==> s.key(printed[i]) != s.key(printed[j])
    ensures forall f :: f in printed ==> IsTrailLeaf(models, q, f)
    ensures forall i, j :: 0 <= i < j < |printed| ==> !SameFrame(printed[i], printed[j])
  {
    forall f | f in printed ensures IsTrailLeaf(models, q, f) {
      assert f in s.ReachSet();
    }
    forall i, j | 0 <= i < j < |printed| ensures !SameFrame(printed[i], printed[j]) {
      KeysAreFrames(printed[i], printed[j]);
    }
  }

  lemma {:induction false} AllLeavesArePrinted(models: map<string, Model>, q: Query,
                                               s: Worklist.Search<TaintFrame, Key>, printed: seq<TaintFrame>)
    requires s.key == KeyOf && s.isLeaf == IsLeaf && s.ReachSet() == OnTrails(models, q)
    requires forall f :: s.Reachable(f) && s.isLeaf(f) ==> s.Printed(s.key(f), printed)
    ensures forall f :: IsTrailLeaf(models, q, f) ==> IsPrinted(f, printed)
  {
    forall f | IsTrailLeaf(models, q, f) ensures IsPrinted(f, printed) {
      assert f in s.ReachSet();
      var g :| g in printed && KeyOf(g) == KeyOf(f);
      KeysAreFrames(f, g);
    }
  }

  lemma KeysAreFrames(f: TaintFrame, g: TaintFrame)
    ensures KeyOf(f) == KeyOf(g) <==> SameFrame(f, g)
  {
  }
}
