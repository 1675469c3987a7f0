/** Finding the configuration of a project: upward searches (client/find_directories.py) and the
    check for nested local configurations (client/configuration/configuration.py).

    A resolved absolute path is the sequence of its components, the filesystem root is empty, and
    the ancestors of a directory are its prefixes. */
module ConfigurationRoots {
  import opened Outcomes

  type Path = seq<string>

  /** Which directories hold a readable `.pyre_configuration`, `pyproject.toml` and
      `.pyre_configuration.local`. A file that may not be read counts as absent. */
  datatype FileSystem = FileSystem(json: set<Path>, toml: set<Path>, local: set<Path>)

  /** `Path.parent`: the root is its own parent. */
  function Parent(d: Path): Path {
    if d == [] then [] else d[..|d| - 1]
  }

  lemma PrefixesAreComparable(a: Path, b: Path, d: Path)
    requires a <= d && b <= d
    ensures a <= b || b < a
    ensures |a| == |b| ==> a == b
  {
  }

  lemma PrefixOfPrefix(a: Path, b: Path, c: Path)
    requires a <= b <= c
    ensures a <= c
  {
    assert a == b[..|a|] == c[..|a|];
  }

  // ----- Upward searches

  predicate WithinLimit(d: Path, base: Path, stopAfter: Option<int>) {
    stopAfter.None? || |base| - |d| <= stopAfter.value || d == base
  }

  /** The closest ancestor that has the file, among those within the limit. */
  ghost predicate IsClosest(has: set<Path>, base: Path, stopAfter: Option<int>, r: Option<Path>) {
    match r
    case None => forall d :: d <= base && WithinLimit(d, base, stopAfter) ==> d !in has
    case Some(found) =>
      && found <= base && found in has && WithinLimit(found, base, stopAfter)
      && forall d :: d <= base && |found| < |d| ==> d !in has
  }

  /** The farthest such ancestor. */
  ghost predicate IsFarthest(has: set<Path>, base: Path, stopAfter: Option<int>, r: Option<Path>) {
    match r
    case None => forall d :: d <= base && WithinLimit(d, base, stopAfter) ==> d !in has
    case Some(found) =>
      && found <= base && found in has && WithinLimit(found, base, stopAfter)
      && forall d :: d <= base && WithinLimit(d, base, stopAfter) && |d| < |found| ==> d !in has
  }

  method FindParentDirectoryContaining(has: set<Path>, base: Path, stopAfter: Option<int>) returns (r: Option<Path>)
    ensures IsClosest(has, base, stopAfter, r)
  {
    var i := 0;
    while i <= |base|
      invariant 0 <= i <= |base| + 1
      invariant i > 0 && stopAfter.Some? ==> i <= stopAfter.value
      invariant forall d :: d <= base && |base| - |d| < i ==> d !in has
    {
      var candidate := base[..|base| - i];
      if candidate in has {
        return Some(candidate);
      }
      assert forall d :: d <= base && |base| - |d| == i ==> d == candidate;
      if stopAfter.Some? && i >= stopAfter.value {
        return None;
      }
      i := i + 1;
    }
    return None;
  }

  method FindOutermostDirectoryContainingFile(has: set<Path>, base: Path, stopAfter: Option<int>)
    returns (result: Option<Path>)
    ensures IsFarthest(has, base, stopAfter, result)
  {
    result := None;
    var i := 0;
    while i <= |base|
      invariant 0 <= i <= |base| + 1
      invariant i > 0 && stopAfter.Some? ==> i <= stopAfter.value
      invariant result.Some? ==> result.value <= base && result.value in has && |base| - |result.value| < i
                                 && WithinLimit(result.value, base, stopAfter)
      invariant forall d :: d <= base && |base| - |d| < i && d in has ==>
                  result.Some? && |result.value| <= |d|
    {
      var candidate := base[..|base| - i];
      assert forall d :: d <= base && |base| - |d| == i ==> d == candidate;
      if candidate in has {
        result := Some(candidate);
      }
      if stopAfter.Some? && i >= stopAfter.value {
        break;
      }
      i := i + 1;
    }
  }

  /** The unlimited search, as a function. */
  function Nearest(has: set<Path>, base: Path): Option<Path> {
    if base in has then Some(base)
    else if base == [] then None
    else Nearest(has, Parent(base))
  }

  lemma {:induction false} NearestIsClosest(has: set<Path>, base: Path)
    ensures IsClosest(has, base, None, Nearest(has, base))
  {
    if base in has {
    } else {
      if base != [] {
        NearestIsClosest(has, Parent(base));
      }
      forall d | d in has && d <= base ensures base != [] && d <= Parent(base) {
        assert d == base[..|d|];
        assert |d| < |base| by { assert base == base[..|base|]; }
        assert d == Parent(base)[..|d|];
      }
    }
  }

  // ----- Global and local root

  datatype FoundRoot = FoundRoot(globalRoot: Path, localRoot: Option<Path>)

  /** The nearest `.pyre_configuration` is preferred to any `pyproject.toml`. */
  function FindGlobalRoot(fs: FileSystem, base: Path): Option<Path> {
    var json := Nearest(fs.json, base);
    if json.Some? then json else Nearest(fs.toml, base)
  }

  function FindGlobalAndLocalRoot(fs: FileSystem, base: Path): Option<FoundRoot> {
    var global, local := FindGlobalRoot(fs, base), Nearest(fs.local, base);
    if global.None? then None
    else if local.Some? && !(local.value < global.value) then Some(FoundRoot(global.value, local))
    else Some(FoundRoot(global.value, None))
  }

  function GetRelativeLocalRoot(globalRoot: Path, localRoot: Option<Path>): Option<Path> {
    if localRoot.Some? && globalRoot <= localRoot.value then Some(localRoot.value[|globalRoot|..]) else None
  }

  /** A returned global root is an ancestor of, or equal to, the returned local root; so the
      relative local root is `None` exactly when there is no local root, and otherwise leads from
      the global root back to it. */
  lemma RootsAreNested(fs: FileSystem, base: Path)
    ensures var r := FindGlobalAndLocalRoot(fs, base);
            r.Some? ==>
              var FoundRoot(global, local) := r.value;
              var relative := GetRelativeLocalRoot(global, local);
              && global <= base && (global in fs.json || global in fs.toml)
              && (local.Some? ==> local.value in fs.local && global <= local.value <= base)
              && (relative.None? <==> local.None?)
              && (relative.Some? ==> global + relative.value == local.value)
  {
    NearestIsClosest(fs.json, base);
    NearestIsClosest(fs.toml, base);
    NearestIsClosest(fs.local, base);
    var r := FindGlobalAndLocalRoot(fs, base);
    if r.Some? && r.value.localRoot.Some? {
      PrefixesAreComparable(r.value.globalRoot, r.value.localRoot.value, base);
    }
  }

  ghost predicate HasAncestor(has: set<Path>, base: Path) {
    exists d :: d in has && d <= base
  }

  /** What is found: the closest `.pyre_configuration`, or without one the closest `pyproject.toml`,
      and the closest local configuration unless it is above that. */
  lemma RootsAreClosest(fs: FileSystem, base: Path)
    ensures var r := FindGlobalAndLocalRoot(fs, base);
            && (r.None? <==> !HasAncestor(fs.json, base) && !HasAncestor(fs.toml, base))
            && (r.Some? ==>
                  var FoundRoot(global, local) := r.value;
                  && IsClosest(if HasAncestor(fs.json, base) then fs.json else fs.toml, base, None, Some(global))
                  && (local.None? <==> forall l :: l in fs.local && l <= base ==> l < global)
                  && (local.Some? ==> IsClosest(fs.local, base, None, local)))
  {
    NearestIsClosest(fs.json, base);
    NearestIsClosest(fs.toml, base);
    NearestIsClosest(fs.local, base);
    var r := FindGlobalAndLocalRoot(fs, base);
    if r.Some? {
      forall l | l in fs.local && l <= base ensures l < r.value.globalRoot || r.value.globalRoot <= l {
        PrefixesAreComparable(r.value.globalRoot, l, base);
      }
      if Nearest(fs.local, base).Some? {
        var local := Nearest(fs.local, base).value;
        forall l | l in fs.local && l <= base ensures l <= local {
          PrefixesAreComparable(l, local, base);
        }
        if local < r.value.globalRoot {
          forall l | l in fs.local && l <= base ensures l < r.value.globalRoot {
            PrefixOfPrefix(l, local, r.value.globalRoot);
          }
        }
      }
    }
  }

  // ----- Nested local configurations

  /** The expanded `ignore_all_errors` of a local configuration, given its root and the global root. */
  type Ignores = (Path, Path) -> seq<Path>

  predicate Covers(ignores: Ignores, root: FoundRoot, project: Path) {
    root.localRoot.Some? && exists path :: path in ignores(root.localRoot.value, root.globalRoot) && path <= project
  }

  datatype Verdict = Passes | Rejects(root: Path) | Loops

  /** The nesting root seen from a directory, if any. */
  function NestingRoot(fs: FileSystem, d: Path): (r: Option<FoundRoot>)
    ensures r.Some? ==> r.value.localRoot.Some? && r.value.localRoot.value <= d
  {
    NearestIsClosest(fs.local, d);
    var r := FindGlobalAndLocalRoot(fs, d);
    if r.Some? && r.value.localRoot.Some? then r else None
  }

  /** What the check does from `d` on. `Loops`: the filesystem root is its own parent, so a
      nesting root there that covers the project is found again and again. */
  function Judge(fs: FileSystem, ignores: Ignores, project: Path, d: Path): Verdict
    decreases |d|
  {
    var root := NestingRoot(fs, d);
    if root.None? then Passes
    else if !Covers(ignores, root.value, project) then Rejects(root.value.localRoot.value)
    else if d == [] then Loops
    else Judge(fs, ignores, project, Parent(root.value.localRoot.value))
  }

  /** One turn of the loop; `None` when it is left. */
  function Turn(fs: FileSystem, ignores: Ignores, project: Path, d: Path): Option<Path> {
    var root := NestingRoot(fs, d);
    if root.Some? && Covers(ignores, root.value, project) then Some(Parent(root.value.localRoot.value)) else None
  }

  /** Where the loop is after `n` turns; `None` when it has been left. */
  function After(fs: FileSystem, ignores: Ignores, project: Path, d: Path, n: nat): Option<Path>
    decreases n
  {
    if n == 0 then Some(d)
    else
      match Turn(fs, ignores, project, d)
      case None => None
      case Some(d') => After(fs, ignores, project, d', n - 1)
  }

  lemma {:induction false} StuckAtRoot(fs: FileSystem, ignores: Ignores, project: Path, n: nat)
    requires Turn(fs, ignores, project, []) == Some([])
    ensures After(fs, ignores, project, [], n) == Some([])
  {
    if n == 0 {
    } else {
      StuckAtRoot(fs, ignores, project, n - 1);
    }
  }

  /** Directories from which the check may look: the first one, and the parents of the local
      configurations above it. */
  ghost predicate OnTheWay(fs: FileSystem, d: Path, e: Path) {
    e <= d && (e == d || exists l :: l in fs.local && l <= d && e == Parent(l))
  }

  /** From `e` a nesting root is seen that covers the project: one of the paths that it ignores is
      the project or above it. */
  ghost predicate CoveredFrom(fs: FileSystem, ignores: Ignores, project: Path, e: Path) {
    && NestingRoot(fs, e).Some?
    && var FoundRoot(global, local) := NestingRoot(fs, e).value;
       exists path :: path in ignores(local.value, global) && path <= project
  }

  /** A condition on the files alone: from every directory on the way, up to the filesystem root, a
      covering nesting root is seen. */
  ghost predicate NeverEnds(fs: FileSystem, ignores: Ignores, project: Path, d: Path) {
    forall e :: OnTheWay(fs, d, e) ==> CoveredFrom(fs, ignores, project, e)
  }

  /** The first directory on the way from which no covering nesting root is seen. */
  ghost predicate IsDecisive(fs: FileSystem, ignores: Ignores, project: Path, d: Path, e: Path) {
    && OnTheWay(fs, d, e) && !CoveredFrom(fs, ignores, project, e)
    && forall e' :: OnTheWay(fs, d, e') && |e| < |e'| ==> CoveredFrom(fs, ignores, project, e')
  }

  /** The way from `d` is `d` and the way from the parent of the nesting root. */
  lemma WayFromNestingRoot(fs: FileSystem, d: Path, e: Path)
    requires NestingRoot(fs, d).Some?
    ensures var next := Parent(NestingRoot(fs, d).value.localRoot.value);
            next <= d && (OnTheWay(fs, d, e) <==> e == d || OnTheWay(fs, next, e))
  {
    NearestIsClosest(fs.local, d);
    WayFromClosest(fs, d, NestingRoot(fs, d).value.localRoot.value, e);
  }

  lemma WayFromClosest(fs: FileSystem, d: Path, local: Path, e: Path)
    requires local in fs.local && local <= d && forall l :: l in fs.local && l <= d ==> |l| <= |local|
    ensures Parent(local) <= d && (OnTheWay(fs, d, e) <==> e == d || OnTheWay(fs, Parent(local), e))
  {
    var next := Parent(local);
    PrefixOfPrefix(next, local, d);
    if OnTheWay(fs, next, e) {
      PrefixOfPrefix(e, next, d);
      if l :| l in fs.local && l <= next && e == Parent(l) {
        PrefixOfPrefix(l, next, d);
      }
    }
    if OnTheWay(fs, d, e) && e != d {
      var l :| l in fs.local && l <= d && e == Parent(l);
      if l != local {
        PrefixesAreComparable(l, local, d);
        PrefixesAreComparable(l, next, d);
        PrefixesAreComparable(e, next, d);
      }
    }
  }

  /** The verdict in terms of the files: the check loops exactly when it is covered all the way up;
      otherwise the decisive directory passes it if no nesting root is seen from there and names
      the root that does not cover the project if one is. */
  lemma {:induction false} VerdictByFiles(fs: FileSystem, ignores: Ignores, project: Path, d: Path) returns (e: Path)
    ensures Judge(fs, ignores, project, d) == Loops <==> NeverEnds(fs, ignores, project, d)
    ensures Judge(fs, ignores, project, d) != Loops ==>
              && IsDecisive(fs, ignores, project, d, e)
              && Judge(fs, ignores, project, d)
                 == if NestingRoot(fs, e).None? then Passes else Rejects(NestingRoot(fs, e).value.localRoot.value)
    decreases |d|
  {
    e := d;
    assert OnTheWay(fs, d, d);
    if !CoveredFrom(fs, ignores, project, d) {
      assert forall e' :: OnTheWay(fs, d, e') ==> |e'| <= |d|;
    } else {
      var next := Parent(NestingRoot(fs, d).value.localRoot.value);
      forall e' ensures next <= d && (OnTheWay(fs, d, e') <==> e' == d || OnTheWay(fs, next, e')) {
        WayFromNestingRoot(fs, d, e');
      }
      if d == [] {
        assert forall e' :: OnTheWay(fs, d, e') ==> e' == [];
      } else {
        e := VerdictByFiles(fs, ignores, project, next);
      }
    }
  }

  /** The loop runs forever exactly when every directory on the way is covered, and otherwise it is
      left after at most one turn per directory above. */
  lemma LoopsExactlyWhen(fs: FileSystem, ignores: Ignores, project: Path, d: Path)
    ensures NeverEnds(fs, ignores, project, d) <==> forall n: nat :: After(fs, ignores, project, d, n).Some?
    ensures !NeverEnds(fs, ignores, project, d) ==> After(fs, ignores, project, d, |d| + 1).None?
  {
    var e := VerdictByFiles(fs, ignores, project, d);
    forall n: nat ensures NeverEnds(fs, ignores, project, d) ==> After(fs, ignores, project, d, n).Some? {
      TurnsFollowVerdict(fs, ignores, project, d, n);
    }
    TurnsFollowVerdict(fs, ignores, project, d, |d| + 1);
  }

  lemma {:induction false} TurnsFollowVerdict(fs: FileSystem, ignores: Ignores, project: Path, d: Path, n: nat)
    ensures Judge(fs, ignores, project, d) == Loops ==> After(fs, ignores, project, d, n).Some?
    ensures Judge(fs, ignores, project, d) != Loops && n > |d| ==> After(fs, ignores, project, d, n).None?
    decreases |d|
  {
    var next := Turn(fs, ignores, project, d);
    if next.Some? && d == [] {
      StuckAtRoot(fs, ignores, project, n);
    } else if next.Some? && n > 0 {
      TurnsFollowVerdict(fs, ignores, project, next.value, n - 1);
    }
  }

  /** Without a local configuration in the filesystem root the check always ends. */
  lemma TerminatesWithoutRootConfiguration(fs: FileSystem, ignores: Ignores, project: Path, d: Path)
    requires [] !in fs.local
    ensures !NeverEnds(fs, ignores, project, d)
  {
    var e := VerdictByFiles(fs, ignores, project, d);
    RootIsReached(fs, ignores, project, d);
  }

  lemma {:induction false} RootIsReached(fs: FileSystem, ignores: Ignores, project: Path, d: Path)
    requires [] !in fs.local
    ensures Judge(fs, ignores, project, d) != Loops
    decreases |d|
  {
    RootsAreNested(fs, d);
    var root := NestingRoot(fs, d);
    if root.Some? && d != [] {
      RootIsReached(fs, ignores, project, Parent(root.value.localRoot.value));
    }
  }

  /** With a global and a local configuration in the filesystem root that ignores everything, the
      check of any project with a local configuration and no other above it never ends. */
  lemma RootConfigurationLoops(project: Path)
    ensures NeverEnds(FileSystem({[]}, {}, {[], project}), (_, _) => [[]], project, Parent(project))
  {
    var fs, ignores := FileSystem({[]}, {}, {[], project}), (_: Path, _: Path) => [[]];
    OnlyRoot(fs.json, Parent(project));
    OnlyRoot(fs.local, Parent(project));
    OnlyRoot(fs.json, []);
    OnlyRoot(fs.local, []);
    var found := FoundRoot([], Some([]));
    assert Covers(ignores, found, project) by { assert [] in ignores([], []) && [] <= project; }
    assert Judge(fs, ignores, project, []) == Loops;
    var e := VerdictByFiles(fs, ignores, project, Parent(project));
  }

  lemma {:induction false} OnlyRoot(has: set<Path>, d: Path)
    requires [] in has && forall e :: e in has && e <= d ==> e == []
    ensures Nearest(has, d) == Some([])
  {
    if d == [] {
    } else {
      OnlyRoot(has, Parent(d));
    }
  }

  /** `check_nested_local_configuration` for a project with a local root, unless it never ends. It
      returns normally when no nesting root is seen from the decisive directory, and raises with
      the root seen from there, which does not cover the project, otherwise. What it has passed
      covers the project: every nearer configuration if it raises, every one of the same global
      project if it does not. */
  method CheckNestedLocalConfiguration(fs: FileSystem, ignores: Ignores, project: Path)
    returns (r: Option<Path>, ghost decisive: Path)
    requires !NeverEnds(fs, ignores, project, Parent(project))
    ensures IsDecisive(fs, ignores, project, Parent(project), decisive)
    ensures r.None? <==> NestingRoot(fs, decisive).None?
    ensures r.Some? ==> NestingRoot(fs, decisive).value.localRoot == r && r.value in fs.local
    ensures r.Some? ==> forall l :: l in fs.local && r.value < l <= Parent(project) ==>
              CoveredAt(fs, ignores, project, Parent(project), l)
    ensures r.None? ==> forall l :: SameProject(fs, l, Parent(project)) ==>
              CoveredAt(fs, ignores, project, Parent(project), l)
  {
    decisive := VerdictByFiles(fs, ignores, project, Parent(project));
    ghost var verdict := Judge(fs, ignores, project, Parent(project));
    if verdict.Rejects? {
      RejectedAfterCovered(fs, ignores, project, Parent(project));
    }
    forall l | verdict == Passes && SameProject(fs, l, Parent(project))
      ensures CoveredAt(fs, ignores, project, Parent(project), l)
    {
      PassMeansCovered(fs, ignores, project, Parent(project), l);
    }
    var current := Parent(project);
    while true
      invariant Judge(fs, ignores, project, current) == verdict
      decreases |current|
    {
      var found := FindGlobalAndLocalRoot(fs, current);
      if found.None? || found.value.localRoot.None? {
        return None, decisive;
      }
      if !Covers(ignores, found.value, project) {
        return found.value.localRoot, decisive;
      }
      current := Parent(found.value.localRoot.value);
    }
  }

  /** A rejected project is covered by every local configuration nearer than the one named. */
  lemma {:induction false} RejectedAfterCovered(fs: FileSystem, ignores: Ignores, project: Path, d: Path)
    requires Judge(fs, ignores, project, d).Rejects?
    ensures var root := Judge(fs, ignores, project, d).root;
            && root in fs.local && root <= d
            && forall l :: l in fs.local && root < l <= d ==> CoveredAt(fs, ignores, project, d, l)
    decreases |d|
  {
    RootsAreNested(fs, d);
    NearestIsClosest(fs.local, d);
    var root, local := Judge(fs, ignores, project, d).root, NestingRoot(fs, d).value.localRoot.value;
    if CoveredFrom(fs, ignores, project, d) {
      var next := Parent(local);
      RejectedAfterCovered(fs, ignores, project, next);
      assert root <= d by { assert root == next[..|root|] == d[..|root|]; }
      forall l | l in fs.local && root < l <= d ensures CoveredAt(fs, ignores, project, d, l) {
        PrefixesAreComparable(l, local, d);
        if l != local {
          assert l <= next by { assert l == local[..|l|] == next[..|l|]; }
          CoveredFromAbove(fs, ignores, project, next, d, l);
        }
      }
    }
  }

  lemma CoveredFromAbove(fs: FileSystem, ignores: Ignores, project: Path, d: Path, d': Path, outer: Path)
    requires d <= d' && CoveredAt(fs, ignores, project, d, outer)
    ensures CoveredAt(fs, ignores, project, d', outer)
  {
    var e :| e <= d && CoveredFrom(fs, ignores, project, e) && NestingRoot(fs, e).value.localRoot == Some(outer);
    assert e <= d' by { assert e == d[..|e|] == d'[..|e|]; }
  }

  ghost predicate IsGlobal(fs: FileSystem, d: Path) {
    d in fs.json || d in fs.toml
  }

  /** A local configuration above `d` that belongs to the same global configuration: there is a
      global one at or above it and none between it and `d`. */
  ghost predicate SameProject(fs: FileSystem, outer: Path, d: Path) {
    && outer in fs.local && outer <= d
    && (exists g :: g <= outer && IsGlobal(fs, g))
    && (forall g :: outer < g <= d ==> !IsGlobal(fs, g))
  }

  /** The check found `outer` on its way up from `d`, and `outer` ignores the project. */
  ghost predicate CoveredAt(fs: FileSystem, ignores: Ignores, project: Path, d: Path, outer: Path) {
    exists e :: e <= d && CoveredFrom(fs, ignores, project, e) && NestingRoot(fs, e).value.localRoot == Some(outer)
  }

  /** Normal return means that every local configuration of the same global project above the
      checked one ignores it. */
  lemma {:induction false} PassMeansCovered(fs: FileSystem, ignores: Ignores, project: Path, d: Path, outer: Path)
    requires Judge(fs, ignores, project, d) == Passes && SameProject(fs, outer, d)
    ensures CoveredAt(fs, ignores, project, d, outer)
    decreases |d|
  {
    SeenFrom(fs, d, outer);
    var local := NestingRoot(fs, d).value.localRoot.value;
    if local != outer {
      SameProjectFromParent(fs, outer, local, d);
      PassMeansCovered(fs, ignores, project, Parent(local), outer);
      CoveredFromAbove(fs, ignores, project, Parent(local), d, outer);
    } else {
      assert CoveredFrom(fs, ignores, project, d);
    }
  }

  lemma SameProjectFromParent(fs: FileSystem, outer: Path, local: Path, d: Path)
    requires outer <= local <= d && outer != local && SameProject(fs, outer, d)
    ensures SameProject(fs, outer, Parent(local)) && Parent(local) <= d
  {
  }

  /** From `d`, the nearest nesting root is at or below `outer`. */
  lemma SeenFrom(fs: FileSystem, d: Path, outer: Path)
    requires SameProject(fs, outer, d)
    ensures NestingRoot(fs, d).Some? && outer <= NestingRoot(fs, d).value.localRoot.value <= d
  {
    NearestIsClosest(fs.json, d);
    NearestIsClosest(fs.toml, d);
    NearestIsClosest(fs.local, d);
    var g :| g <= outer && IsGlobal(fs, g);
    assert g <= d by { assert g == outer[..|g|] == d[..|g|]; }
    var global, local := FindGlobalRoot(fs, d).value, Nearest(fs.local, d).value;
    assert IsGlobal(fs, global);
    PrefixesAreComparable(global, outer, d);
    PrefixesAreComparable(outer, local, d);
    assert global <= outer <= local;
  }
}
