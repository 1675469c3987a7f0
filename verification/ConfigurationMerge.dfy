/** Layered configuration: the policy-driven merge of dataclasses (client/dataclasses_merge.py)
    and the layers that `create_configuration` puts on top of each other
    (client/configuration/configuration.py, client/configuration/platform_aware.py). */
module ConfigurationMerge {
  import opened Outcomes

  type Atom(==, !new)

  /** Field values; a record is an instance of a merged dataclass, with its fields in order. */
  datatype Value = Null | Scalar(atom: Atom) | List(items: seq<Atom>) | Record(fields: seq<Value>)

  /** How a field is merged. A class that has `merge` itself is merged recursively;
      `NestedOptional` is `PlatformAware.merge_optional`. */
  datatype Policy =
    | Overwrite
    | Prepend
    | RaiseWhenOverwritten
    | Nested(fields: seq<Policy>)
    | NestedOptional(fields: seq<Policy>)

  function Merge(p: Policy, base: Value, over: Value): Result<Value>
    decreases p, 1
  {
    match p
    case Overwrite => Ok(if over.Null? then base else over)
    case Prepend => if base.List? && over.List? then Ok(List(over.items + base.items)) else Raised
    case RaiseWhenOverwritten =>
      if base.Null? then Ok(over) else if over.Null? then Ok(base) else Raised
    case Nested(fields) => MergeRecords(fields, base, over)
    case NestedOptional(fields) =>
      if base.Null? then Ok(over) else if over.Null? then Ok(base) else MergeRecords(fields, base, over)
  }

  predicate IsInstance(fields: seq<Policy>, v: Value) {
    v.Record? && |v.fields| == |fields|
  }

  function MergeRecords(fields: seq<Policy>, base: Value, over: Value): Result<Value>
    decreases fields, 1
  {
    if !IsInstance(fields, base) || !IsInstance(fields, over) then Raised
    else
      match MergeFields(fields, base.fields, over.fields)
      case Raised => Raised
      case Ok(merged) => Ok(Record(merged))
  }

  /** `_merge_fields`: the first field that raises ends the merge. */
  function MergeFields(fields: seq<Policy>, base: seq<Value>, over: seq<Value>): (r: Result<seq<Value>>)
    requires |base| == |fields| == |over|
    ensures r.Ok? ==> |r.value| == |fields|
    decreases fields, 0
  {
    if fields == [] then Ok([])
    else
      var first, rest := Merge(fields[0], base[0], over[0]), MergeFields(fields[1..], base[1..], over[1..]);
      if first.Raised? || rest.Raised? then Raised else Ok([first.value] + rest.value)
  }

  lemma MergeOfInstances(fields: seq<Policy>, base: Value, over: Value)
    ensures Merge(Nested(fields), base, over) == MergeRecords(fields, base, over)
    ensures MergeRecords(fields, base, over).Ok? ==>
              && IsInstance(fields, base) && IsInstance(fields, over)
              && MergeFields(fields, base.fields, over.fields).Ok?
              && MergeRecords(fields, base, over).value == Record(MergeFields(fields, base.fields, over.fields).value)
    ensures IsInstance(fields, base) && IsInstance(fields, over) && MergeRecords(fields, base, over).Raised? ==>
              MergeFields(fields, base.fields, over.fields).Raised?
  {
  }

  lemma {:induction false} FieldByField(fs: seq<Policy>, base: seq<Value>, over: seq<Value>, i: nat)
    requires |base| == |over| == |fs| && i < |fs|
    ensures Merge(fs[i], base[i], over[i]).Raised? ==> MergeFields(fs, base, over).Raised?
    ensures MergeFields(fs, base, over).Ok? ==>
              Merge(fs[i], base[i], over[i]) == Ok(MergeFields(fs, base, over).value[i])
  {
    if i == 0 {
    } else {
      FieldByField(fs[1..], base[1..], over[1..], i - 1);
    }
  }

  lemma {:induction false} SomeFieldRaised(fs: seq<Policy>, base: seq<Value>, over: seq<Value>) returns (i: nat)
    requires |base| == |over| == |fs| && MergeFields(fs, base, over).Raised?
    ensures i < |fs| && Merge(fs[i], base[i], over[i]).Raised?
  {
    if Merge(fs[0], base[0], over[0]).Raised? {
      i := 0;
    } else {
      i := SomeFieldRaised(fs[1..], base[1..], over[1..]);
      i := i + 1;
    }
  }

  lemma {:induction false} MergesFieldsTo(fs: seq<Policy>, base: seq<Value>, over: seq<Value>, vs: seq<Value>)
    requires |base| == |over| == |fs| == |vs|
    ensures MergeFields(fs, base, over) == Ok(vs) <==>
              forall i :: 0 <= i < |fs| ==> Merge(fs[i], base[i], over[i]) == Ok(vs[i])
  {
    var r := MergeFields(fs, base, over);
    if r.Raised? {
      var i := SomeFieldRaised(fs, base, over);
    } else {
      forall i | 0 <= i < |fs| ensures Merge(fs[i], base[i], over[i]) == Ok(r.value[i]) {
        FieldByField(fs, base, over, i);
      }
      assert r.value == vs <==> forall i :: 0 <= i < |fs| ==> r.value[i] == vs[i];
    }
  }

  /** The all-default instance. */
  function Default(p: Policy): Value
    decreases p, 1
  {
    match p
    case Overwrite => Null
    case Prepend => List([])
    case RaiseWhenOverwritten => Null
    case Nested(fields) => Record(Defaults(fields))
    case NestedOptional(_) => Null
  }

  function Defaults(fields: seq<Policy>): (r: seq<Value>)
    ensures |r| == |fields| && forall i :: 0 <= i < |fields| ==> r[i] == Default(fields[i])
    decreases fields, 0
  {
    if fields == [] then [] else [Default(fields[0])] + Defaults(fields[1..])
  }

  /** Values that the annotations of the class allow, as far as merging can tell. */
  predicate WellTyped(p: Policy, v: Value) {
    match p
    case Prepend => v.List?
    case Nested(fields) =>
      IsInstance(fields, v) && forall i :: 0 <= i < |fields| ==> WellTyped(fields[i], v.fields[i])
    case _ => true
  }

  /** Values of the annotated types: moreover a nested option that may be unset is of its type if set. */
  predicate Typed(p: Policy, v: Value)
    decreases p, 1
  {
    match p
    case Prepend => v.List?
    case Nested(fields) => IsTypedInstance(fields, v)
    case NestedOptional(fields) => v.Null? || IsTypedInstance(fields, v)
    case _ => true
  }

  predicate IsTypedInstance(fields: seq<Policy>, v: Value)
    decreases fields, 0
  {
    IsInstance(fields, v) && forall i :: 0 <= i < |fields| ==> Typed(fields[i], v.fields[i])
  }

  lemma {:induction false} TypedIsWellTyped(p: Policy, v: Value)
    requires Typed(p, v)
    ensures WellTyped(p, v)
  {
    if p.Nested? {
      forall i | 0 <= i < |p.fields| ensures WellTyped(p.fields[i], v.fields[i]) {
        TypedIsWellTyped(p.fields[i], v.fields[i]);
      }
    }
  }

  lemma {:induction false} DefaultIsTyped(p: Policy)
    ensures Typed(p, Default(p))
  {
    if p.Nested? {
      forall i | 0 <= i < |p.fields| ensures Typed(p.fields[i], Default(p.fields[i])) {
        DefaultIsTyped(p.fields[i]);
      }
    }
  }

  // ----- The default record is a two-sided identity, exactly on well-typed values

  lemma {:induction false} Identity(p: Policy, v: Value)
    ensures Merge(p, Default(p), v) == Ok(v) <==> WellTyped(p, v)
    ensures Merge(p, v, Default(p)) == Ok(v) <==> WellTyped(p, v)
  {
    match p {
      case Prepend =>
        if v.List? {
          assert v.items + [] == v.items && [] + v.items == v.items;
        }
      case Nested(fields) =>
        if IsInstance(fields, v) {
          MergesFieldsTo(fields, Defaults(fields), v.fields, v.fields);
          MergesFieldsTo(fields, v.fields, Defaults(fields), v.fields);
          forall i | 0 <= i < |fields|
            ensures Merge(fields[i], Default(fields[i]), v.fields[i]) == Ok(v.fields[i]) <==>
                      WellTyped(fields[i], v.fields[i])
            ensures Merge(fields[i], v.fields[i], Default(fields[i])) == Ok(v.fields[i]) <==>
                      WellTyped(fields[i], v.fields[i])
          {
            Identity(fields[i], v.fields[i]);
          }
        }
      case _ =>
    }
  }

  /** Only well-typed values can be merged with anything. */
  lemma {:induction false} MergedAreWellTyped(p: Policy, base: Value, over: Value)
    requires Merge(p, base, over).Ok?
    ensures WellTyped(p, base) && WellTyped(p, over)
  {
    if p.Nested? {
      var fs := p.fields;
      MergeOfInstances(fs, base, over);
      forall i | 0 <= i < |fs| ensures WellTyped(fs[i], base.fields[i]) && WellTyped(fs[i], over.fields[i]) {
        FieldByField(fs, base.fields, over.fields, i);
        MergedAreWellTyped(fs[i], base.fields[i], over.fields[i]);
      }
    }
  }

  lemma {:induction false} MergeKeepsTyped(p: Policy, base: Value, over: Value)
    requires Typed(p, base) && Typed(p, over) && Merge(p, base, over).Ok?
    ensures Typed(p, Merge(p, base, over).value)
  {
    if p.Nested? || (p.NestedOptional? && !base.Null? && !over.Null?) {
      var fs := p.fields;
      MergeOfInstances(fs, base, over);
      var r := MergeFields(fs, base.fields, over.fields).value;
      forall i | 0 <= i < |fs| ensures Typed(fs[i], r[i]) {
        FieldByField(fs, base.fields, over.fields, i);
        MergeKeepsTyped(fs[i], base.fields[i], over.fields[i]);
      }
    }
  }

  // ----- Associativity, raising included

  function LeftGrouped(p: Policy, a: Value, b: Value, c: Value): Result<Value> {
    match Merge(p, a, b)
    case Raised => Raised
    case Ok(ab) => Merge(p, ab, c)
  }

  function RightGrouped(p: Policy, a: Value, b: Value, c: Value): Result<Value> {
    match Merge(p, b, c)
    case Raised => Raised
    case Ok(bc) => Merge(p, a, bc)
  }

  function LeftGroupedFields(fs: seq<Policy>, a: seq<Value>, b: seq<Value>, c: seq<Value>): Result<seq<Value>>
    requires |a| == |b| == |c| == |fs|
  {
    match MergeFields(fs, a, b)
    case Raised => Raised
    case Ok(ab) => MergeFields(fs, ab, c)
  }

  function RightGroupedFields(fs: seq<Policy>, a: seq<Value>, b: seq<Value>, c: seq<Value>): Result<seq<Value>>
    requires |a| == |b| == |c| == |fs|
  {
    match MergeFields(fs, b, c)
    case Raised => Raised
    case Ok(bc) => MergeFields(fs, a, bc)
  }

  /** Both groupings of three layers raise together or give the same result, for every policy and
      any values at all. */
  lemma {:induction false} Associative(p: Policy, a: Value, b: Value, c: Value)
    ensures LeftGrouped(p, a, b, c) == RightGrouped(p, a, b, c)
    decreases p, 1
  {
    match p {
      case Prepend =>
        if a.List? && b.List? && c.List? {
          assert c.items + (b.items + a.items) == c.items + b.items + a.items;
        }
      case Nested(fields) => RecordsAssociative(fields, a, b, c);
      case NestedOptional(fields) => RecordsAssociative(fields, a, b, c);
      case _ =>
    }
  }

  function LeftGroupedRecords(fs: seq<Policy>, a: Value, b: Value, c: Value): Result<Value> {
    match MergeRecords(fs, a, b)
    case Raised => Raised
    case Ok(ab) => MergeRecords(fs, ab, c)
  }

  function RightGroupedRecords(fs: seq<Policy>, a: Value, b: Value, c: Value): Result<Value> {
    match MergeRecords(fs, b, c)
    case Raised => Raised
    case Ok(bc) => MergeRecords(fs, a, bc)
  }

  lemma {:induction false} RecordsAssociative(fields: seq<Policy>, a: Value, b: Value, c: Value)
    ensures LeftGroupedRecords(fields, a, b, c) == RightGroupedRecords(fields, a, b, c)
    decreases fields, 1
  {
    if IsInstance(fields, a) && IsInstance(fields, b) && IsInstance(fields, c) {
      FieldsAssociative(fields, a.fields, b.fields, c.fields);
    }
  }

  lemma {:induction false} FieldsAssociative(fs: seq<Policy>, a: seq<Value>, b: seq<Value>, c: seq<Value>)
    requires |a| == |b| == |c| == |fs|
    ensures LeftGroupedFields(fs, a, b, c) == RightGroupedFields(fs, a, b, c)
    decreases fs, 0
  {
    if fs == [] {
    } else {
      Associative(fs[0], a[0], b[0], c[0]);
      FieldsAssociative(fs[1..], a[1..], b[1..], c[1..]);
      GroupedHeadTail(fs, a, b, c);
    }
  }

  function Cons(first: Result<Value>, rest: Result<seq<Value>>): Result<seq<Value>> {
    if first.Raised? || rest.Raised? then Raised else Ok([first.value] + rest.value)
  }

  lemma GroupedHeadTail(fs: seq<Policy>, a: seq<Value>, b: seq<Value>, c: seq<Value>)
    requires |a| == |b| == |c| == |fs| && fs != []
    ensures LeftGroupedFields(fs, a, b, c)
            == Cons(LeftGrouped(fs[0], a[0], b[0], c[0]), LeftGroupedFields(fs[1..], a[1..], b[1..], c[1..]))
    ensures RightGroupedFields(fs, a, b, c)
            == Cons(RightGrouped(fs[0], a[0], b[0], c[0]), RightGroupedFields(fs[1..], a[1..], b[1..], c[1..]))
  {
  }

  // ----- Any number of layers, the weakest first

  function MergeLayers(p: Policy, layers: seq<Value>): Result<Value>
    requires layers != []
  {
    if |layers| == 1 then Ok(layers[0])
    else
      match MergeLayers(p, layers[..|layers| - 1])
      case Raised => Raised
      case Ok(base) => Merge(p, base, layers[|layers| - 1])
  }

  /** The strongest layer comes first in a merged list. */
  function Stacked(layers: seq<Value>): seq<Atom>
    requires forall i :: 0 <= i < |layers| ==> layers[i].List?
  {
    if layers == [] then [] else layers[|layers| - 1].items + Stacked(layers[..|layers| - 1])
  }

  /** The strongest layer that sets the field. */
  function Strongest(layers: seq<Value>): Value {
    if layers == [] then Null
    else if !layers[|layers| - 1].Null? then layers[|layers| - 1]
    else Strongest(layers[..|layers| - 1])
  }

  function TimesSet(layers: seq<Value>): nat {
    if layers == [] then 0
    else TimesSet(layers[..|layers| - 1]) + if layers[|layers| - 1].Null? then 0 else 1
  }

  lemma {:induction false} PrependedLayers(layers: seq<Value>)
    requires layers != [] && forall i :: 0 <= i < |layers| ==> layers[i].List?
    ensures MergeLayers(Prepend, layers) == Ok(List(Stacked(layers)))
  {
    if |layers| == 1 {
      assert layers[0].items + [] == layers[0].items;
    } else {
      PrependedLayers(layers[..|layers| - 1]);
    }
  }

  lemma {:induction false} OverwrittenLayers(layers: seq<Value>)
    requires layers != []
    ensures MergeLayers(Overwrite, layers) == Ok(Strongest(layers))
  {
    if |layers| == 1 {
    } else {
      OverwrittenLayers(layers[..|layers| - 1]);
    }
  }

  /** A field that must not be overwritten raises exactly when two layers set it. */
  lemma {:induction false} UniqueLayers(layers: seq<Value>)
    requires layers != []
    ensures MergeLayers(RaiseWhenOverwritten, layers) == if TimesSet(layers) <= 1 then Ok(Strongest(layers)) else Raised
    ensures Strongest(layers).Null? <==> TimesSet(layers) == 0
  {
    if |layers| > 1 {
      UniqueLayers(layers[..|layers| - 1]);
    } else {
      assert layers[..0] == [];
    }
  }

  /** The values that the layers give to one field. */
  function Column(fields: seq<Policy>, layers: seq<Value>, i: nat): (r: seq<Value>)
    requires i < |fields| && forall k :: 0 <= k < |layers| ==> IsInstance(fields, layers[k])
    ensures |r| == |layers|
  {
    seq(|layers|, k requires 0 <= k < |layers| && IsInstance(fields, layers[k]) => layers[k].fields[i])
  }

  ghost predicate FieldsMerged(fields: seq<Policy>, layers: seq<Value>, r: Value)
    requires layers != [] && forall k :: 0 <= k < |layers| ==> IsInstance(fields, layers[k])
  {
    && IsInstance(fields, r)
    && forall i :: 0 <= i < |fields| ==> MergeLayers(fields[i], Column(fields, layers, i)) == Ok(r.fields[i])
  }

  ghost predicate SomeFieldRaises(fields: seq<Policy>, layers: seq<Value>)
    requires layers != [] && forall k :: 0 <= k < |layers| ==> IsInstance(fields, layers[k])
  {
    exists i :: 0 <= i < |fields| && MergeLayers(fields[i], Column(fields, layers, i)).Raised?
  }

  lemma {:induction false} ColumnStep(fields: seq<Policy>, layers: seq<Value>, i: nat)
    requires |layers| > 1 && forall k :: 0 <= k < |layers| ==> IsInstance(fields, layers[k])
    requires i < |fields|
    ensures var n := |layers| - 1;
            var before := MergeLayers(fields[i], Column(fields, layers[..n], i));
            MergeLayers(fields[i], Column(fields, layers, i))
            == if before.Raised? then Raised else Merge(fields[i], before.value, layers[n].fields[i])
  {
    assert Column(fields, layers, i)[..|layers| - 1] == Column(fields, layers[..|layers| - 1], i);
  }

  /** Merging whole layers is merging each field on its own, and it raises exactly when some
      field does. */
  lemma {:induction false} LayersFieldByField(fields: seq<Policy>, layers: seq<Value>)
    requires layers != [] && forall k :: 0 <= k < |layers| ==> IsInstance(fields, layers[k])
    ensures var r := MergeLayers(Nested(fields), layers);
            if r.Raised? then SomeFieldRaises(fields, layers)
            else FieldsMerged(fields, layers, r.value) && !SomeFieldRaises(fields, layers)
  {
    var r := MergeLayers(Nested(fields), layers);
    if |layers| == 1 {
    } else {
      var n := |layers| - 1;
      var init, top := layers[..n], layers[n];
      LayersFieldByField(fields, init);
      var base := MergeLayers(Nested(fields), init);
      if base.Ok? {
        MergeOfInstances(fields, base.value, top);
      }
      if base.Raised? {
        var i :| 0 <= i < |fields| && MergeLayers(fields[i], Column(fields, init, i)).Raised?;
        ColumnStep(fields, layers, i);
      } else if r.Raised? {
        var i := SomeFieldRaised(fields, base.value.fields, top.fields);
        ColumnStep(fields, layers, i);
      } else {
        forall i | 0 <= i < |fields|
          ensures MergeLayers(fields[i], Column(fields, layers, i)) == Ok(r.value.fields[i])
        {
          FieldByField(fields, base.value.fields, top.fields, i);
          ColumnStep(fields, layers, i);
        }
      }
    }
  }

  // ----- The configuration

  const PLATFORM_AWARE: seq<Policy> := [Overwrite, Overwrite, Overwrite, Overwrite]

  const SHARED_MEMORY: seq<Policy> := [Overwrite, Overwrite, Overwrite]

  /** The fields of `PartialConfiguration`, in order. */
  datatype OptionName =
    Binary | BuckMode | BxlBuilder | OnlyCheckPaths | DotPyreDirectory | EnableReadonlyAnalysis |
    EnableStrictOverrideCheck | EnableStrictAnyCheck | EnableUnawaitedAwaitableAnalysis | Excludes | Extensions |
    IgnoreAllErrors | IncludeSuppressedErrors | IsolationPrefix | Logger | NumberOfWorkers | MaxNumberOfWorkers |
    Oncall | OnlyPrivacyErrors | OtherCriticalFiles | PysaVersionHash | PythonVersion | SystemPlatform | SearchPath |
    OptionalSearchPath | SharedMemory | SitePackageSearchStrategy | SiteRoots | SourceDirectories | Strict |
    TaintModelsPath | Targets | Typeshed | UnwatchedDependency | VersionHash

  const OPTIONS: seq<OptionName> := [
    Binary, BuckMode, BxlBuilder, OnlyCheckPaths, DotPyreDirectory, EnableReadonlyAnalysis,
    EnableStrictOverrideCheck, EnableStrictAnyCheck, EnableUnawaitedAwaitableAnalysis, Excludes, Extensions,
    IgnoreAllErrors, IncludeSuppressedErrors, IsolationPrefix, Logger, NumberOfWorkers, MaxNumberOfWorkers, Oncall,
    OnlyPrivacyErrors, OtherCriticalFiles, PysaVersionHash, PythonVersion, SystemPlatform, SearchPath,
    OptionalSearchPath, SharedMemory, SitePackageSearchStrategy, SiteRoots, SourceDirectories, Strict,
    TaintModelsPath, Targets, Typeshed, UnwatchedDependency, VersionHash
  ]

  function PolicyOf(name: OptionName): Policy {
    match name
    case BuckMode => NestedOptional(PLATFORM_AWARE)
    case OnlyCheckPaths => Prepend
    case Excludes => Prepend
    case Extensions => Prepend
    case IgnoreAllErrors => Prepend
    case OtherCriticalFiles => Prepend
    case SearchPath => Prepend
    case OptionalSearchPath => Prepend
    case SharedMemory => Nested(SHARED_MEMORY)
    case SourceDirectories => RaiseWhenOverwritten
    case TaintModelsPath => Prepend
    case Targets => RaiseWhenOverwritten
    case _ => Overwrite
  }

  function Policies(names: seq<OptionName>): (r: seq<Policy>)
    ensures |r| == |names| && forall i :: 0 <= i < |names| ==> r[i] == PolicyOf(names[i])
  {
    seq(|names|, i requires 0 <= i < |names| => PolicyOf(names[i]))
  }

  const PARTIAL_CONFIGURATION: seq<Policy> := Policies(OPTIONS)

  const LIST_OPTIONS := {OnlyCheckPaths, Excludes, Extensions, IgnoreAllErrors, OtherCriticalFiles, SearchPath,
                         OptionalSearchPath, TaintModelsPath}

  const UNIQUE_OPTIONS := {SourceDirectories, Targets}

  const NESTED_OPTIONS := {BuckMode, SharedMemory}

  /** The layers of `create_configuration` when a configuration file was found. */
  function CreateConfiguration(global: Value, local: Option<Value>, commandLine: Value): Result<Value> {
    var p := Nested(PARTIAL_CONFIGURATION);
    var files := if local.None? then Ok(global) else Merge(p, global, local.value);
    match files
    case Raised => Raised
    case Ok(partial) => Merge(p, partial, commandLine)
  }

  /** Without a local configuration it is as if all its options were left at their defaults. */
  function LocalLayer(local: Option<Value>): Value {
    if local.None? then Default(Nested(PARTIAL_CONFIGURATION)) else local.value
  }

  lemma WithoutLocalLayer(global: Value, local: Option<Value>, commandLine: Value)
    ensures CreateConfiguration(global, local, commandLine)
            == LeftGrouped(Nested(PARTIAL_CONFIGURATION), global, LocalLayer(local), commandLine)
  {
    var p := Nested(PARTIAL_CONFIGURATION);
    if local.None? {
      Identity(p, global);
      if Merge(p, global, Default(p)).Ok? {
        MergedAreWellTyped(p, global, Default(p));
      } else if Merge(p, global, commandLine).Ok? {
        MergedAreWellTyped(p, global, commandLine);
      }
    }
  }

  // ----- What the three layers come to

  function OrDefault(fields: seq<Policy>, v: Value): Value {
    if v.Null? then Default(Nested(fields)) else v
  }

  /** A merged value `m` in terms of the three layers: a list is command line ++ local ++ global, a
      plain option is that of the strongest layer that sets it, an option that must not be
      overwritten is set by at most one layer, and a nested option is all this for each of its own
      options. An optional nested option is unset if no layer sets it; otherwise layers that do
      not set it count as setting none of its parts. */
  ghost predicate IsLayered(p: Policy, g: Value, l: Value, c: Value, m: Value)
    decreases p, 1
  {
    match p
    case Prepend => g.List? && l.List? && c.List? && m == List(c.items + l.items + g.items)
    case Overwrite => m == if !c.Null? then c else if !l.Null? then l else g
    case RaiseWhenOverwritten =>
      && m == (if !c.Null? then c else if !l.Null? then l else g)
      && !SetTwice(g, l, c)
    case Nested(fields) => AreLayered(fields, g, l, c, m)
    case NestedOptional(fields) =>
      if g.Null? && l.Null? && c.Null? then m.Null?
      else
        Typed(p, g) && Typed(p, l) && Typed(p, c) ==>
          AreLayered(fields, OrDefault(fields, g), OrDefault(fields, l), OrDefault(fields, c), m)
  }

  predicate SetTwice(g: Value, l: Value, c: Value) {
    (!c.Null? && !l.Null?) || (!c.Null? && !g.Null?) || (!l.Null? && !g.Null?)
  }

  ghost predicate AreLayered(fields: seq<Policy>, g: Value, l: Value, c: Value, m: Value)
    decreases fields, 0
  {
    && IsInstance(fields, g) && IsInstance(fields, l) && IsInstance(fields, c) && IsInstance(fields, m)
    && forall i :: 0 <= i < |fields| ==> IsLayered(fields[i], g.fields[i], l.fields[i], c.fields[i], m.fields[i])
  }

  lemma {:induction false} ThreeLayers(p: Policy, g: Value, l: Value, c: Value)
    requires LeftGrouped(p, g, l, c).Ok?
    ensures IsLayered(p, g, l, c, LeftGrouped(p, g, l, c).value)
    decreases p, 1
  {
    match p {
      case Prepend => assert c.items + (l.items + g.items) == c.items + l.items + g.items;
      case Nested(fields) => ThreeRecords(fields, g, l, c);
      case NestedOptional(fields) =>
        if !(g.Null? && l.Null? && c.Null?) && Typed(p, g) && Typed(p, l) && Typed(p, c) {
          OptionalIsDefault(fields, g, l, c);
          ThreeRecords(fields, OrDefault(fields, g), OrDefault(fields, l), OrDefault(fields, c));
        }
      case _ =>
    }
  }

  lemma {:induction false} ThreeRecords(fs: seq<Policy>, g: Value, l: Value, c: Value)
    requires LeftGrouped(Nested(fs), g, l, c).Ok?
    ensures AreLayered(fs, g, l, c, LeftGrouped(Nested(fs), g, l, c).value)
    decreases fs, 0
  {
    MergeOfInstances(fs, g, l);
    var files := MergeFields(fs, g.fields, l.fields).value;
    MergeOfInstances(fs, Record(files), c);
    var m := MergeFields(fs, files, c.fields).value;
    forall i | 0 <= i < |fs| ensures IsLayered(fs[i], g.fields[i], l.fields[i], c.fields[i], m[i]) {
      FieldByField(fs, g.fields, l.fields, i);
      FieldByField(fs, files, c.fields, i);
      ThreeLayers(fs[i], g.fields[i], l.fields[i], c.fields[i]);
    }
  }

  /** In an optional nested option that some layer sets, unset and all-default are the same. */
  lemma {:induction false} OptionalIsDefault(fields: seq<Policy>, g: Value, l: Value, c: Value)
    requires Typed(NestedOptional(fields), g) && Typed(NestedOptional(fields), l) && Typed(NestedOptional(fields), c)
    requires !(g.Null? && l.Null? && c.Null?)
    ensures LeftGrouped(NestedOptional(fields), g, l, c)
            == LeftGrouped(Nested(fields), OrDefault(fields, g), OrDefault(fields, l), OrDefault(fields, c))
  {
    TwoOptional(fields, g, l);
    if Merge(NestedOptional(fields), g, l).Ok? {
      TwoOptional(fields, Merge(NestedOptional(fields), g, l).value, c);
    }
  }

  lemma {:induction false} TwoOptional(fields: seq<Policy>, base: Value, over: Value)
    requires Typed(NestedOptional(fields), base) && Typed(NestedOptional(fields), over)
    ensures var r := Merge(NestedOptional(fields), base, over);
            var r' := Merge(Nested(fields), OrDefault(fields, base), OrDefault(fields, over));
            if r.Raised? then r'.Raised?
            else Typed(NestedOptional(fields), r.value) && r' == Ok(OrDefault(fields, r.value))
  {
    var p := Nested(fields);
    DefaultIsTyped(p);
    TypedIsWellTyped(p, OrDefault(fields, base));
    TypedIsWellTyped(p, OrDefault(fields, over));
    Identity(p, OrDefault(fields, base));
    Identity(p, OrDefault(fields, over));
    if Merge(p, OrDefault(fields, base), OrDefault(fields, over)).Ok? {
      MergeKeepsTyped(p, OrDefault(fields, base), OrDefault(fields, over));
    }
  }

  /** Every option of a configuration that does not raise is layered. */
  lemma ConfigurationLayers(global: Value, local: Option<Value>, commandLine: Value)
    requires CreateConfiguration(global, local, commandLine).Ok?
    ensures AreLayered(PARTIAL_CONFIGURATION, global, LocalLayer(local), commandLine,
                       CreateConfiguration(global, local, commandLine).value)
  {
    WithoutLocalLayer(global, local, commandLine);
    ThreeRecords(PARTIAL_CONFIGURATION, global, LocalLayer(local), commandLine);
  }

  lemma PoliciesByName(i: nat)
    requires i < |OPTIONS|
    ensures |OPTIONS| == |PARTIAL_CONFIGURATION|
    ensures OPTIONS[i] in LIST_OPTIONS <==> PARTIAL_CONFIGURATION[i] == Prepend
    ensures OPTIONS[i] in UNIQUE_OPTIONS <==> PARTIAL_CONFIGURATION[i] == RaiseWhenOverwritten
    ensures OPTIONS[i] in NESTED_OPTIONS <==>
              PARTIAL_CONFIGURATION[i].Nested? || PARTIAL_CONFIGURATION[i].NestedOptional?
  {
  }

  /** The options by name: lists are concatenated, the strongest layer first; of the others the
      strongest layer that sets one decides, and two of them are set by one layer at most. The two
      nested options are made up the same way, part by part. */
  lemma OptionsByName(global: Value, local: Option<Value>, commandLine: Value, i: nat)
    requires CreateConfiguration(global, local, commandLine).Ok? && i < |OPTIONS|
    ensures |OPTIONS| == |PARTIAL_CONFIGURATION|
    ensures var r := CreateConfiguration(global, local, commandLine).value;
            AreLayered(PARTIAL_CONFIGURATION, global, LocalLayer(local), commandLine, r)
    ensures var r := CreateConfiguration(global, local, commandLine).value;
            var (g, l, c) := (global.fields[i], LocalLayer(local).fields[i], commandLine.fields[i]);
            if OPTIONS[i] in LIST_OPTIONS then
              g.List? && l.List? && c.List? && r.fields[i] == List(c.items + l.items + g.items)
            else
              && (OPTIONS[i] in UNIQUE_OPTIONS ==> !SetTwice(g, l, c))
              && (OPTIONS[i] !in NESTED_OPTIONS ==>
                    r.fields[i] == if !c.Null? then c else if !l.Null? then l else g)
  {
    PoliciesByName(i);
    ConfigurationLayers(global, local, commandLine);
    var r := CreateConfiguration(global, local, commandLine).value;
    assert IsLayered(PARTIAL_CONFIGURATION[i], global.fields[i], LocalLayer(local).fields[i], commandLine.fields[i],
                     r.fields[i]);
  }

  // ----- When merging raises

  ghost predicate AllTyped(p: Policy, layers: seq<Value>) {
    forall k :: 0 <= k < |layers| ==> Typed(p, layers[k])
  }

  ghost predicate AllInstances(fields: seq<Policy>, layers: seq<Value>) {
    forall k :: 0 <= k < |layers| ==> IsTypedInstance(fields, layers[k])
  }

  lemma ColumnIsTyped(fields: seq<Policy>, layers: seq<Value>)
    requires AllInstances(fields, layers)
    ensures forall k :: 0 <= k < |layers| ==> IsInstance(fields, layers[k])
    ensures forall i :: 0 <= i < |fields| ==> AllTyped(fields[i], Column(fields, layers, i))
  {
  }

  /** The layers that set an optional nested option. */
  function Setting(layers: seq<Value>): (r: seq<Value>)
    ensures forall v :: v in r <==> v in layers && !v.Null?
  {
    if layers == [] then []
    else Setting(layers[..|layers| - 1]) + if layers[|layers| - 1].Null? then [] else [layers[|layers| - 1]]
  }

  lemma SettingAreInstances(fields: seq<Policy>, layers: seq<Value>)
    requires AllTyped(NestedOptional(fields), layers)
    ensures AllInstances(fields, Setting(layers))
  {
    forall k | 0 <= k < |Setting(layers)| ensures IsTypedInstance(fields, Setting(layers)[k]) {
      assert Setting(layers)[k] in Setting(layers);
    }
  }

  /** Two layers set an option that must not be overwritten, at some level of nesting. */
  ghost predicate Clash(p: Policy, layers: seq<Value>)
    requires AllTyped(p, layers)
    decreases p, 1
  {
    match p
    case RaiseWhenOverwritten => TimesSet(layers) > 1
    case Nested(fields) => SomeClash(fields, layers)
    case NestedOptional(fields) => 
      SettingAreInstances(fields, layers);
      Setting(layers) != [] && SomeClash(fields, Setting(layers))
    case _ => false
  }

  ghost predicate SomeClash(fields: seq<Policy>, layers: seq<Value>)
    requires AllInstances(fields, layers)
    decreases fields, 0
  {
    ColumnIsTyped(fields, layers);
    exists i :: 0 <= i < |fields| && Clash(fields[i], Column(fields, layers, i))
  }

  /** An optional nested option is merged from the layers that set it. */
  lemma {:induction false} OptionalLayers(fields: seq<Policy>, layers: seq<Value>)
    requires layers != []
    ensures MergeLayers(NestedOptional(fields), layers)
            == if Setting(layers) == [] then Ok(Null) else MergeLayers(Nested(fields), Setting(layers))
    ensures MergeLayers(NestedOptional(fields), layers) == Ok(Null) ==> Setting(layers) == []
  {
    var n := |layers| - 1;
    var set0, top := Setting(layers[..n]), layers[n];
    if n == 0 {
      assert set0 == [] && Setting(layers) == if top.Null? then [] else [top];
    } else {
      OptionalLayers(fields, layers[..n]);
      if top.Null? {
        assert Setting(layers) == set0;
      } else if set0 == [] {
        assert Setting(layers) == [top];
      } else {
        MergeLayersSnoc(Nested(fields), set0, top);
      }
    }
  }

  lemma {:induction false} MergeLayersSnoc(p: Policy, layers: seq<Value>, top: Value)
    requires layers != []
    ensures MergeLayers(p, layers + [top])
            == match MergeLayers(p, layers) case Raised => Raised case Ok(base) => Merge(p, base, top)
  {
    assert (layers + [top])[..|layers|] == layers;
  }

  /** Layers of the right types raise exactly when two of them set an option that must not be
      overwritten, for every schema. */
  lemma {:induction false} LayersRaiseExactlyWhen(p: Policy, layers: seq<Value>)
    requires layers != [] && AllTyped(p, layers)
    ensures MergeLayers(p, layers).Raised? <==> Clash(p, layers)
    decreases p, 1
  {
    match p {
      case Overwrite => OverwrittenLayers(layers);
      case Prepend => PrependedLayers(layers);
      case RaiseWhenOverwritten => UniqueLayers(layers);
      case Nested(fields) => RecordsRaiseExactlyWhen(fields, layers);
      case NestedOptional(fields) =>
        OptionalLayers(fields, layers);
        SettingAreInstances(fields, layers);
        if Setting(layers) != [] {
          RecordsRaiseExactlyWhen(fields, Setting(layers));
        }
    }
  }

  lemma {:induction false} RecordsRaiseExactlyWhen(fields: seq<Policy>, layers: seq<Value>)
    requires layers != [] && AllInstances(fields, layers)
    ensures MergeLayers(Nested(fields), layers).Raised? <==> SomeClash(fields, layers)
    decreases fields, 0
  {
    ColumnIsTyped(fields, layers);
    LayersFieldByField(fields, layers);
    forall i | 0 <= i < |fields|
      ensures MergeLayers(fields[i], Column(fields, layers, i)).Raised? <==> Clash(fields[i], Column(fields, layers, i))
    {
      LayersRaiseExactlyWhen(fields[i], Column(fields, layers, i));
    }
  }

  const SOURCE_DIRECTORIES := 28
  const TARGETS := 31

  /** With layers of the right types `create_configuration` raises exactly when two of them set
      `source_directories` or two of them set `targets`. */
  lemma ConfigurationRaisesExactlyWhen(global: Value, local: Option<Value>, commandLine: Value)
    requires IsTypedInstance(PARTIAL_CONFIGURATION, global) && IsTypedInstance(PARTIAL_CONFIGURATION, commandLine)
    requires local.Some? ==> IsTypedInstance(PARTIAL_CONFIGURATION, local.value)
    ensures IsInstance(PARTIAL_CONFIGURATION, LocalLayer(local))
    ensures var (g, l, c) := (global.fields, LocalLayer(local).fields, commandLine.fields);
            CreateConfiguration(global, local, commandLine).Raised? <==>
              || SetTwice(g[SOURCE_DIRECTORIES], l[SOURCE_DIRECTORIES], c[SOURCE_DIRECTORIES])
              || SetTwice(g[TARGETS], l[TARGETS], c[TARGETS])
  {
    var fields, layers := PARTIAL_CONFIGURATION, [global, LocalLayer(local), commandLine];
    WithoutLocalLayer(global, local, commandLine);
    DefaultIsTyped(Nested(fields));
    GroupedLayers(Nested(fields), global, LocalLayer(local), commandLine);
    RecordsRaiseExactlyWhen(fields, layers);
    ColumnIsTyped(fields, layers);
    forall i | 0 <= i < |fields|
      ensures Clash(fields[i], Column(fields, layers, i)) <==>
                (i == SOURCE_DIRECTORIES || i == TARGETS) && TimesSet(Column(fields, layers, i)) > 1
    {
      OnlyTwoMayClash(i, Column(fields, layers, i));
    }
    TimesSetOfThree(fields, layers, SOURCE_DIRECTORIES);
    TimesSetOfThree(fields, layers, TARGETS);
  }

  lemma OnlyTwoMayClash(i: nat, layers: seq<Value>)
    requires i < |PARTIAL_CONFIGURATION| && AllTyped(PARTIAL_CONFIGURATION[i], layers)
    ensures Clash(PARTIAL_CONFIGURATION[i], layers) <==>
              (i == SOURCE_DIRECTORIES || i == TARGETS) && TimesSet(layers) > 1
  {
    var p := PARTIAL_CONFIGURATION[i];
    assert i == SOURCE_DIRECTORIES || i == TARGETS <==> p.RaiseWhenOverwritten?;
    if p.Nested? || p.NestedOptional? {
      assert forall k :: 0 <= k < |p.fields| ==> p.fields[k] == Overwrite;
    }
  }

  lemma GroupedLayers(p: Policy, g: Value, l: Value, c: Value)
    ensures MergeLayers(p, [g, l, c]) == LeftGrouped(p, g, l, c)
  {
    assert [g, l, c][..2] == [g, l] && [g, l][..1] == [g];
    assert MergeLayers(p, [g, l]) == Merge(p, g, l);
  }

  lemma TimesSetOfThree(fields: seq<Policy>, layers: seq<Value>, i: nat)
    requires |layers| == 3 && i < |fields| && forall k :: 0 <= k < 3 ==> IsInstance(fields, layers[k])
    ensures TimesSet(Column(fields, layers, i)) > 1 <==>
              SetTwice(layers[0].fields[i], layers[1].fields[i], layers[2].fields[i])
  {
    var (a, b, c) := (layers[0].fields[i], layers[1].fields[i], layers[2].fields[i]);
    assert Column(fields, layers, i) == [a, b, c];
    assert [a, b, c][..2] == [a, b] && [a, b][..1] == [a] && [a][..0] == [];
    assert TimesSet([a, b]) == TimesSet([a]) + if b.Null? then 0 else 1;
  }
}
