/**
 Moving both workspaces to one new version: every crate that inherits the
 workspace version moves, and every path dependency on such a crate is
 repinned in the manifest that names it.
 */
module Bump {
  import opened Collections
  import opened ReleasePlan
  import opened Decimals
  import Graphs

  // ----- Versions -----

  predicate Digits(s: string) {
    |s| > 0 && AllDigits(s)
  }

  /** The numbers between the dots; None when some part is not a number. */
  function VersionKey(version: string): (key: Option<seq<nat>>)
    ensures key.Some? ==> |key.value| > 0 && version != "" && !("=" <= version)
    decreases |version|
  {
    var dot := IndexOf(version, '.');
    var part := version[..dot];
    if !Digits(part) then None
    else
      assert part[0] == version[0];
      if dot == |version| then Some([Number(part)])
      else
        match VersionKey(version[dot + 1..])
        case None => None
        case Some(rest) => Some([Number(part)] + rest)
  }

  /** MAJOR.MINOR.PATCH */
  predicate IsRelease(version: string) {
    VersionKey(version).Some? && |VersionKey(version).value| == 3
  }

  /** The key holds exactly the numbers between the dots: it exists when every part is a number. */
  lemma {:induction false} VersionKeyParts(version: string)
    ensures VersionKey(version).Some? <==> forall part :: part in Split(version, '.') ==> Digits(part)
    ensures VersionKey(version).Some? ==>
              && |VersionKey(version).value| == |Split(version, '.')|
              && forall i :: 0 <= i < |Split(version, '.')| ==>
                   AllDigits(Split(version, '.')[i]) && VersionKey(version).value[i] == Number(Split(version, '.')[i])
    decreases |version|
  {
    var dot := IndexOf(version, '.');
    var parts := Split(version, '.');
    if dot < |version| {
      VersionKeyParts(version[dot + 1..]);
      assert parts == [version[..dot]] + Split(version[dot + 1..], '.');
    } else {
      assert parts == [version] && version[..dot] == version;
    }
  }

  function Numerals(numbers: seq<nat>): seq<string> {
    seq(|numbers|, i requires 0 <= i < |numbers| => Decimal(numbers[i]))
  }

  /** Writing numbers between dots and reading the key back gives the numbers. */
  lemma VersionKeyRoundTrip(numbers: seq<nat>)
    requires numbers != []
    ensures VersionKey(Join(Numerals(numbers), ".")) == Some(numbers)
  {
    var parts := Numerals(numbers);
    forall part | part in parts ensures '.' !in part {
      assert AllDigits(part);
    }
    SplitJoin(parts, '.');
    VersionKeyParts(Join(parts, "."));
    assert forall i :: 0 <= i < |parts| ==> parts[i] == Decimal(numbers[i]);
    assert VersionKey(Join(parts, ".")).value == numbers;
  }

  predicate KeyLess(a: seq<nat>, b: seq<nat>) {
    |b| > 0 && (|a| == 0 || a[0] < b[0] || (a[0] == b[0] && KeyLess(a[1..], b[1..])))
  }

  /** At `k` the two keys first differ: `a` ends there or has the smaller number. */
  predicate SmallerNumberAt(a: seq<nat>, b: seq<nat>, k: nat) {
    k <= |a| && k < |b| && (forall i :: 0 <= i < k ==> a[i] == b[i]) && (k == |a| || a[k] < b[k])
  }

  lemma {:induction false} KeyLessIff(a: seq<nat>, b: seq<nat>)
    ensures KeyLess(a, b) <==> exists k: nat :: SmallerNumberAt(a, b, k)
  {
    if |b| > 0 {
      if |a| == 0 || a[0] < b[0] {
        assert SmallerNumberAt(a, b, 0);
      } else if a[0] == b[0] {
        KeyLessIff(a[1..], b[1..]);
        if k: nat :| SmallerNumberAt(a[1..], b[1..], k) {
          assert forall i :: 0 <= i < k ==> a[i + 1] == a[1..][i] && b[i + 1] == b[1..][i];
          assert SmallerNumberAt(a, b, k + 1);
        }
        if k: nat :| SmallerNumberAt(a, b, k) {
          assert SmallerNumberAt(a[1..], b[1..], k - 1);
        }
      }
    }
  }

  lemma {:induction false} KeyLessTransitive(a: seq<nat>, b: seq<nat>, c: seq<nat>)
    requires KeyLess(a, b) && KeyLess(b, c)
    ensures KeyLess(a, c)
  {
    if |a| > 0 && a[0] == b[0] && b[0] == c[0] {
      KeyLessTransitive(a[1..], b[1..], c[1..]);
    }
  }

  lemma {:induction false} KeyLessIrreflexive(a: seq<nat>)
    ensures !KeyLess(a, a)
  {
    if |a| > 0 {
      KeyLessIrreflexive(a[1..]);
    }
  }

  /** `version` may follow `current`: both are numbered and it is strictly larger. */
  predicate Above(version: string, current: string) {
    && VersionKey(version).Some? && VersionKey(current).Some?
    && KeyLess(VersionKey(current).value, VersionKey(version).value)
  }

  predicate Allowed(tree: Tree, version: string) {
    IsRelease(version) && Above(version, tree.framework.version) && Above(version, tree.blueprint.version)
  }

  lemma KeyLessCons(a0: nat, a: seq<nat>, b0: nat, b: seq<nat>)
    ensures KeyLess([a0] + a, [b0] + b) <==> a0 < b0 || (a0 == b0 && KeyLess(a, b))
  {
    assert ([a0] + a)[1..] == a && ([b0] + b)[1..] == b;
  }

  lemma TripleLess(x: nat, y: nat, z: nat, u: nat, v: nat, w: nat)
    ensures KeyLess([u, v, w], [x, y, z]) <==> x > u || (x == u && (y > v || (y == v && z > w)))
  {
    KeyLessCons(u, [v, w], x, [y, z]);
    KeyLessCons(v, [w], y, [z]);
    KeyLessCons(w, [], z, []);
    assert [u] + [v, w] == [u, v, w] && [x] + [y, z] == [x, y, z];
    assert [v] + [w] == [v, w] && [y] + [z] == [y, z] && [w] + [] == [w] && [z] + [] == [z];
  }

  /** A version of three numbers may follow another exactly when its first differing number is larger. */
  lemma TripleAbove(x: nat, y: nat, z: nat, u: nat, v: nat, w: nat)
    ensures Above(Join(Numerals([x, y, z]), "."), Join(Numerals([u, v, w]), ".")) <==>
              x > u || (x == u && (y > v || (y == v && z > w)))
  {
    VersionKeyRoundTrip([x, y, z]);
    VersionKeyRoundTrip([u, v, w]);
    TripleLess(x, y, z, u, v, w);
  }

  /** A release version is three numbers between two dots. */
  lemma ReleaseIff(version: string)
    ensures IsRelease(version) <==>
              |Split(version, '.')| == 3
              && forall part :: part in Split(version, '.') ==> part != "" && forall c :: c in part ==> '0' <= c <= '9'
  {
    VersionKeyParts(version);
    forall part | part in Split(version, '.')
      ensures Digits(part) <==> part != "" && forall c :: c in part ==> '0' <= c <= '9'
    {
      assert AllDigits(part) <==> forall c :: c in part ==> IsDigit(c);
    }
  }

  // ----- Repinning -----

  /** A non-empty pin moves to `version`, behind the `=` it had. */
  function Repinned(pin: string, version: string): string {
    if pin == "" then pin else if "=" < pin then "=" + version else version
  }

  function RepinSpec(spec: Spec, moving: set<Dir>, version: string): Spec {
    if spec.Detailed? && spec.path.Some? && spec.path.value in moving && spec.version.Some?
    then spec.(version := Some(Repinned(spec.version.value, version)))
    else spec
  }

  function RepinDependency(dep: Dependency, moving: set<Dir>, version: string): Dependency {
    dep.(spec := RepinSpec(dep.spec, moving, version))
  }

  function RepinDependencies(deps: seq<Dependency>, moving: set<Dir>, version: string): (r: seq<Dependency>)
    ensures |r| == |deps|
    ensures forall i :: 0 <= i < |r| ==> r[i] == RepinDependency(deps[i], moving, version)
  {
    seq(|deps|, i requires 0 <= i < |deps| => RepinDependency(deps[i], moving, version))
  }

  function RepinManifest(m: Manifest, moving: set<Dir>, version: string): Manifest {
    m.(dependencies := RepinDependencies(m.dependencies, moving, version))
  }

  lemma MarkerKept(pin: string, version: string)
    requires IsRelease(version)
    ensures pin != "=" ==> ("=" <= pin <==> "=" <= Repinned(pin, version))
    ensures pin !in {"", "="} ==> WithoutEquals(Repinned(pin, version)) == version
    ensures pin == "=" ==> Repinned(pin, version) == version
    ensures Repinned("", version) == ""
  {
    if "=" <= pin && pin != "=" {
      assert "=" + pin[1..] == pin;
      assert ("=" + version)[1..] == version;
    }
  }

  /** Repinning a second time changes nothing, so a repinned command line manifest stays as it is. */
  lemma RepinIdempotent(m: Manifest, moving: set<Dir>, version: string)
    requires IsRelease(version)
    ensures RepinManifest(RepinManifest(m, moving, version), moving, version) == RepinManifest(m, moving, version)
  {
    var once := RepinManifest(m, moving, version);
    forall i | 0 <= i < |m.dependencies|
      ensures RepinDependency(once.dependencies[i], moving, version) == once.dependencies[i]
    {
      var spec := m.dependencies[i].spec;
      if spec.Detailed? && spec.version.Some? {
        assert Repinned(Repinned(spec.version.value, version), version) == Repinned(spec.version.value, version);
      }
    }
    assert RepinDependencies(once.dependencies, moving, version) == once.dependencies;
  }

  // ----- The whole tree -----

  /** Every crate directory lies in one of the two workspaces. */
  ghost predicate Separate(tree: Tree) {
    tree.framework.crates.Keys !! tree.blueprint.crates.Keys
  }

  function InheritingDirs(ws: Workspace): set<Dir> {
    set d | d in ws.crates && ws.crates[d].version == Inherited
  }

  /** The crates that move: those that inherit a workspace version. */
  function Moving(tree: Tree): set<Dir> {
    InheritingDirs(tree.framework) + InheritingDirs(tree.blueprint)
  }

  function BumpedWorkspace(ws: Workspace, moving: set<Dir>, version: string): Workspace {
    ws.(version := version, crates := map d | d in ws.crates :: RepinManifest(ws.crates[d], moving, version))
  }

  function Bumped(tree: Tree, version: string): Tree {
    Tree(BumpedWorkspace(tree.framework, Moving(tree), version), BumpedWorkspace(tree.blueprint, Moving(tree), version))
  }

  function VendoredNames(tree: Tree): set<string> {
    (set d | d in tree.framework.crates && tree.framework.crates[d].version.Literal? :: tree.framework.crates[d].name) +
    (set d | d in tree.blueprint.crates && tree.blueprint.crates[d].version.Literal? :: tree.blueprint.crates[d].name)
  }

  function MovedVersion(m: Manifest, was: string, version: string): string {
    if m.version == Inherited then version else was
  }

  /** The framework release a pin names after the bump. */
  ghost function MovedRelease(tree: Tree, release: Release, version: string): Release {
    if exists d :: OwnedDir(tree.framework, d) && tree.framework.crates[d].name == release.name
                   && tree.framework.crates[d].version == Inherited
    then release.(version := version)
    else release
  }

  /** A planned package after the bump: same crate, same dependencies, moved versions. */
  ghost function MovedPlan(tree: Tree, scope: Scope, p: Planned, version: string): Planned
    requires p.dir in tree.Of(scope).crates
  {
    p.(version := MovedVersion(tree.Of(scope).crates[p.dir], p.version, version),
       external := set e | e in p.external :: MovedRelease(tree, e, version))
  }

  // ----- A bump keeps a consistent release consistent -----

  ghost function MovedLink(tree: Tree, link: Link, version: string): Link {
    match link
    case OnRelease(release) => OnRelease(MovedRelease(tree, release, version))
    case _ => link
  }

  lemma MovedReleaseOf(tree: Tree, d: Dir, e: Release, version: string)
    requires UniqueNames(tree.framework) && OwnedDir(tree.framework, d) && tree.framework.crates[d].name == e.name
    ensures MovedRelease(tree, e, version) == e.(version := MovedVersion(tree.framework.crates[d], e.version, version))
  {
  }

  lemma FrameworkLinkMoves(tree: Tree, target: Dir, dep: Dependency, version: string)
    requires Separate(tree) && Allowed(tree, version) && UniqueNames(tree.framework)
    requires dep.spec.Detailed? && dep.spec.path == Some(target) && OwnedDir(tree.framework, target)
    requires FrameworkLink(tree.framework, tree.framework.crates[target], dep).Some?
    ensures var after := Bumped(tree, version).framework;
            FrameworkLink(after, after.crates[target], RepinDependency(dep, Moving(tree), version))
            == Some(MovedLink(tree, FrameworkLink(tree.framework, tree.framework.crates[target], dep).value, version))
  {
    var m := tree.framework.crates[target];
    assert target in Moving(tree) <==> m.version == Inherited;
    MarkerKept(dep.spec.version.value, version);
    MovedReleaseOf(tree, target, Release(m.name, VersionOf(tree.framework, m).value), version);
  }

  lemma SiblingLinkMoves(tree: Tree, scope: Scope, target: Dir, dep: Dependency, version: string)
    requires Separate(tree) && Allowed(tree, version)
    requires dep.spec.Detailed? && dep.spec.path == Some(target) && OwnedDir(tree.Of(scope), target)
    requires SiblingLink(tree.Of(scope), tree.Of(scope).crates[target], dep).Some?
    ensures var after := Bumped(tree, version).Of(scope);
            SiblingLink(after, after.crates[target], RepinDependency(dep, Moving(tree), version))
            == SiblingLink(tree.Of(scope), tree.Of(scope).crates[target], dep)
  {
    var m := tree.Of(scope).crates[target];
    assert target in Moving(tree) <==> m.version == Inherited;
    if dep.spec.version.Some? && m.version == Inherited {
      var pin := dep.spec.version.value;
      assert WithoutEquals(pin) == tree.Of(scope).version != "";
      MarkerKept(pin, version);
    }
  }

  lemma LinkMoves(tree: Tree, scope: Scope, dep: Dependency, version: string)
    requires Separate(tree) && Allowed(tree, version) && UniqueNames(tree.framework)
    requires LinkOf(tree, scope, dep).Some?
    ensures LinkOf(Bumped(tree, version), scope, RepinDependency(dep, Moving(tree), version))
            == Some(MovedLink(tree, LinkOf(tree, scope, dep).value, version))
  {
    var after := Bumped(tree, version);
    var moved := RepinDependency(dep, Moving(tree), version);
    if dep.spec.Detailed? && dep.spec.path.Some? {
      var target := dep.spec.path.value;
      if scope == Blueprint && OwnedDir(tree.framework, target) {
        assert OwnedDir(after.framework, target);
        FrameworkLinkMoves(tree, target, dep, version);
      } else {
        var ws := tree.Of(scope);
        assert OwnedDir(ws, target) && OwnedDir(after.Of(scope), target);
        assert scope == Blueprint ==> target !in tree.framework.crates;
        SiblingLinkMoves(tree, scope, target, dep, version);
      }
    }
  }

  ghost predicate LinksMoved(tree: Tree, after: Tree, scope: Scope, deps: seq<Dependency>, moved: seq<Dependency>,
                             version: string)
  {
    && |deps| == |moved| && Linked(tree, scope, deps)
    && forall i :: 0 <= i < |deps| ==>
         LinkOf(after, scope, moved[i]) == Some(MovedLink(tree, LinkOf(tree, scope, deps[i]).value, version))
  }

  lemma SiblingsMove(tree: Tree, after: Tree, scope: Scope, deps: seq<Dependency>, moved: seq<Dependency>,
                     version: string)
    requires LinksMoved(tree, after, scope, deps, moved, version)
    ensures Siblings(after, scope, moved) == Siblings(tree, scope, deps)
  {
    forall n ensures n in Siblings(after, scope, moved) <==> n in Siblings(tree, scope, deps) {
      if n in Siblings(after, scope, moved) {
        var i :| 0 <= i < |moved| && LinkOf(after, scope, moved[i]) == Some(OnSibling(n));
        assert LinkOf(tree, scope, deps[i]) == Some(OnSibling(n));
      }
      if n in Siblings(tree, scope, deps) {
        var i :| 0 <= i < |deps| && LinkOf(tree, scope, deps[i]) == Some(OnSibling(n));
        assert LinkOf(after, scope, moved[i]) == Some(OnSibling(n));
      }
    }
  }

  lemma ReleasesMove(tree: Tree, after: Tree, scope: Scope, deps: seq<Dependency>, moved: seq<Dependency>,
                     version: string)
    requires LinksMoved(tree, after, scope, deps, moved, version)
    ensures Releases(after, scope, moved) == set e | e in Releases(tree, scope, deps) :: MovedRelease(tree, e, version)
  {
    var want := set e | e in Releases(tree, scope, deps) :: MovedRelease(tree, e, version);
    forall e ensures e in Releases(after, scope, moved) <==> e in want {
      if e in Releases(after, scope, moved) {
        var i :| 0 <= i < |moved| && LinkOf(after, scope, moved[i]) == Some(OnRelease(e));
        var link := LinkOf(tree, scope, deps[i]).value;
        assert link.OnRelease? && MovedRelease(tree, link.release, version) == e;
        assert link.release in Releases(tree, scope, deps);
      }
      if e in want {
        var r :| r in Releases(tree, scope, deps) && MovedRelease(tree, r, version) == e;
        var i :| 0 <= i < |deps| && LinkOf(tree, scope, deps[i]) == Some(OnRelease(r));
        assert LinkOf(after, scope, moved[i]) == Some(OnRelease(e));
      }
    }
  }

  lemma CrateMoves(tree: Tree, scope: Scope, d: Dir, version: string)
    requires Separate(tree) && Allowed(tree, version) && UniqueNames(tree.framework)
    requires Published(tree.Of(scope), d) && CrateOk(tree, scope, d)
    ensures Published(Bumped(tree, version).Of(scope), d) && CrateOk(Bumped(tree, version), scope, d)
    ensures Plan(Bumped(tree, version), scope, d) == MovedPlan(tree, scope, Plan(tree, scope, d), version)
  {
    var deps := tree.Of(scope).crates[d].dependencies;
    var after := Bumped(tree, version);
    var moved := RepinDependencies(deps, Moving(tree), version);
    assert after.Of(scope).crates[d].dependencies == moved;
    forall i | 0 <= i < |deps|
      ensures LinkOf(after, scope, moved[i]) == Some(MovedLink(tree, LinkOf(tree, scope, deps[i]).value, version))
      ensures moved[i] in moved && deps[i] in deps
    {
      LinkMoves(tree, scope, deps[i], version);
    }
    SiblingsMove(tree, after, scope, deps, moved, version);
    ReleasesMove(tree, after, scope, deps, moved, version);
  }

  lemma InventoryMoves(ws: Workspace, moving: set<Dir>, version: string)
    requires InventoryOk(ws)
    ensures InventoryOk(BumpedWorkspace(ws, moving, version))
  {
    var moved := BumpedWorkspace(ws, moving, version);
    forall d ensures OwnedDir(moved, d) <==> OwnedDir(ws, d) {
    }
  }

  lemma BumpKeepsValid(tree: Tree, scope: Scope, version: string)
    requires Separate(tree) && Allowed(tree, version)
    requires Valid(tree, Framework) && Valid(tree, scope)
    ensures Valid(Bumped(tree, version), scope)
  {
    var after := Bumped(tree, version);
    InventoryMoves(tree.framework, Moving(tree), version);
    InventoryMoves(tree.Of(scope), Moving(tree), version);
    forall d | Published(after.Of(scope), d) ensures CrateOk(after, scope, d) {
      assert Published(tree.Of(scope), d);
      CrateMoves(tree, scope, d, version);
    }
  }

  /** The packages after the bump are the packages before it, with their versions moved. */
  lemma PackagesMove(tree: Tree, scope: Scope, version: string)
    requires Separate(tree) && Allowed(tree, version)
    requires Valid(tree, Framework) && Valid(tree, scope) && Valid(Bumped(tree, version), scope)
    ensures AllPackages(Bumped(tree, version), scope).Keys == AllPackages(tree, scope).Keys
    ensures forall n | n in AllPackages(tree, scope) ::
              && AllPackages(tree, scope)[n].dir in tree.Of(scope).crates
              && AllPackages(Bumped(tree, version), scope)[n]
                  == MovedPlan(tree, scope, AllPackages(tree, scope)[n], version)
    ensures forall n | n in AllPackages(tree, scope) ::
              AllPackages(Bumped(tree, version), scope)[n].dependencies == AllPackages(tree, scope)[n].dependencies
  {
    var after := Bumped(tree, version);
    forall n | n in AllPackages(tree, scope)
      ensures n in AllPackages(after, scope) && AllPackages(tree, scope)[n].dir in tree.Of(scope).crates
      ensures AllPackages(after, scope)[n] == MovedPlan(tree, scope, AllPackages(tree, scope)[n], version)
    {
      CrateOfPackage(tree, scope, n);
      var d := AllPackages(tree, scope)[n].dir;
      CrateMoves(tree, scope, d, version);
      PackageOfCrate(after, scope, d);
    }
    forall n | n in AllPackages(after, scope) ensures n in AllPackages(tree, scope) {
      CrateOfPackage(after, scope, n);
      PackageOfCrate(tree, scope, AllPackages(after, scope)[n].dir);
    }
  }

  lemma SameDependenciesSameGraph(before: map<string, Planned>, after: map<string, Planned>)
    requires after.Keys == before.Keys
    requires forall n :: n in before ==> after[n].dependencies == before[n].dependencies
    ensures GraphOf(after) == GraphOf(before)
  {
  }

  lemma GraphStays(tree: Tree, scope: Scope, version: string)
    requires Separate(tree) && Allowed(tree, version)
    requires Valid(tree, Framework) && Valid(tree, scope) && Valid(Bumped(tree, version), scope)
    ensures GraphOf(AllPackages(Bumped(tree, version), scope)) == GraphOf(AllPackages(tree, scope))
  {
    PackagesMove(tree, scope, version);
    SameDependenciesSameGraph(AllPackages(tree, scope), AllPackages(Bumped(tree, version), scope));
  }

  /**
   From a tree whose two scopes plan, an allowed bump leads to a tree whose two
   scopes plan, in the same order, with only the versions moved.
   */
  lemma BumpKeepsReleasePlannable(tree: Tree, scope: Scope, version: string)
    requires Separate(tree) && Allowed(tree, version)
    requires Plans(tree, Framework) && Plans(tree, scope)
    ensures Plans(Bumped(tree, version), scope)
    ensures Separate(Bumped(tree, version))
  {
    BumpKeepsValid(tree, scope, version);
    GraphStays(tree, scope, version);
  }

  lemma EntryMoves(tree: Tree, scope: Scope, version: string, before: seq<Planned>, after: seq<Planned>, i: nat)
    requires Separate(tree) && Allowed(tree, version) && Valid(tree, Framework)
    requires IsPlan(tree, scope, before) && IsPlan(Bumped(tree, version), scope, after)
    requires Names(before) == Names(after) && i < |before| == |after|
    ensures before[i].dir in tree.Of(scope).crates && after[i] == MovedPlan(tree, scope, before[i], version)
  {
    assert Names(before)[i] == Names(after)[i];
    assert before[i] in before && after[i] in after;
    PackagesMove(tree, scope, version);
  }

  lemma BumpKeepsReleaseOrder(tree: Tree, scope: Scope, version: string, before: seq<Planned>, after: seq<Planned>)
    requires Separate(tree) && Allowed(tree, version) && Valid(tree, Framework)
    requires IsPlan(tree, scope, before) && IsPlan(Bumped(tree, version), scope, after)
    ensures |after| == |before|
    ensures forall i :: 0 <= i < |before| ==>
              before[i].dir in tree.Of(scope).crates && after[i] == MovedPlan(tree, scope, before[i], version)
  {
    GraphStays(tree, scope, version);
    Graphs.LayeredOrderUnique(GraphOf(AllPackages(tree, scope)), Names(before), Names(after));
    assert |before| == |Names(before)| == |after|;
    forall i | 0 <= i < |before|
      ensures before[i].dir in tree.Of(scope).crates && after[i] == MovedPlan(tree, scope, before[i], version)
    {
      EntryMoves(tree, scope, version, before, after, i);
    }
  }

  /** After any bump a planned package that is not at the new version has a version of its own. */
  lemma EveryPackageMovedOrVendored(tree: Tree, scope: Scope, version: string, plan: seq<Planned>, i: nat)
    requires IsPlan(Bumped(tree, version), scope, plan) && i < |plan|
    ensures plan[i].version == version || plan[i].name in VendoredNames(Bumped(tree, version))
    ensures plan[i].dir in tree.Of(scope).crates
    ensures tree.Of(scope).crates[plan[i].dir].version == Inherited ==> plan[i].version == version
  {
    PlanEntry(Bumped(tree, version), scope, plan, i);
  }

  lemma MovingCratesInherit(tree: Tree, target: Dir)
    ensures target in Moving(tree) <==>
              exists s :: target in tree.Of(s).crates && tree.Of(s).crates[target].version == Inherited
  {
    if target in InheritingDirs(tree.framework) {
      assert tree.Of(Framework).crates[target].version == Inherited;
    } else if target in InheritingDirs(tree.blueprint) {
      assert tree.Of(Blueprint).crates[target].version == Inherited;
    }
  }

  /** Exactly the pins on crates that inherit a workspace version move, each behind the `=` it had. */
  lemma OnlyMovingPinsChange(tree: Tree, scope: Scope, version: string, d: Dir, k: nat)
    requires IsRelease(version) && d in tree.Of(scope).crates && k < |tree.Of(scope).crates[d].dependencies|
    ensures var was := tree.Of(scope).crates[d];
            var now := Bumped(tree, version).Of(scope).crates[d];
            var dep := was.dependencies[k];
            && now == was.(dependencies := now.dependencies) && |now.dependencies| == |was.dependencies|
            && now.dependencies[k].(spec := dep.spec) == dep
            && (now.dependencies[k] != dep ==>
                  && dep.spec.Detailed? && dep.spec.path.Some? && dep.spec.version.Some?
                  && now.dependencies[k].spec == dep.spec.(version := now.dependencies[k].spec.version)
                  && exists s :: dep.spec.path.value in tree.Of(s).crates
                      && tree.Of(s).crates[dep.spec.path.value].version == Inherited)
            && (dep.spec.Detailed? && dep.spec.version.Some? && dep.spec.version.value != "=" ==>
                  now.dependencies[k].spec.version.Some?
                  && ("=" <= dep.spec.version.value <==> "=" <= now.dependencies[k].spec.version.value))
            && (dep.spec.Detailed? && dep.spec.path.Some? && dep.spec.version.Some?
                && dep.spec.version.value !in {"", "="}
                && (exists s :: dep.spec.path.value in tree.Of(s).crates
                      && tree.Of(s).crates[dep.spec.path.value].version == Inherited) ==>
                  now.dependencies[k].spec.version
                    == Some((if dep.spec.version.value[0] == '=' then "=" else "") + version))
  {
    var dep := tree.Of(scope).crates[d].dependencies[k];
    if dep.spec.Detailed? && dep.spec.version.Some? {
      MarkerKept(dep.spec.version.value, version);
      if dep.spec.path.Some? {
        MovingCratesInherit(tree, dep.spec.path.value);
      }
      var pin := dep.spec.version.value;
      assert pin !in {"", "="} ==> ("=" < pin <==> pin[0] == '=');
      assert "" + version == version;
    }
  }

  // ----- Sequences of bumps -----

  ghost predicate BumpRun(trees: seq<Tree>, versions: seq<string>) {
    && |trees| == |versions| + 1
    && forall i :: 0 <= i < |versions| ==>
        Allowed(trees[i], versions[i]) && trees[i + 1] == Bumped(trees[i], versions[i])
  }

  /** Both versions have numbers, and where they first differ `version` has the larger one, or just more of them. */
  ghost predicate Larger(version: string, current: string) {
    && VersionKey(version).Some? && VersionKey(current).Some?
    && exists k: nat :: SmallerNumberAt(VersionKey(current).value, VersionKey(version).value, k)
  }

  /** Over any run of bumps both versions strictly increase in the order of their numbers. */
  lemma {:induction false} VersionsIncrease(trees: seq<Tree>, versions: seq<string>, scope: Scope, i: nat, j: nat)
    requires BumpRun(trees, versions) && i < j < |trees|
    ensures Above(trees[j].Of(scope).version, trees[i].Of(scope).version)
    ensures Larger(trees[j].Of(scope).version, trees[i].Of(scope).version)
    ensures trees[j].framework.version == trees[j].blueprint.version == versions[j - 1]
    decreases j
  {
    assert Allowed(trees[j - 1], versions[j - 1]);
    if i < j - 1 {
      VersionsIncrease(trees, versions, scope, i, j - 1);
      KeyLessTransitive(VersionKey(trees[i].Of(scope).version).value,
                        VersionKey(trees[j - 1].Of(scope).version).value,
                        VersionKey(trees[j].Of(scope).version).value);
    }
    KeyLessIff(VersionKey(trees[i].Of(scope).version).value, VersionKey(trees[j].Of(scope).version).value);
  }

  lemma NoVersionReturns(trees: seq<Tree>, versions: seq<string>, scope: Scope, i: nat, j: nat)
    requires BumpRun(trees, versions) && i < j < |trees|
    ensures trees[i].Of(scope).version != trees[j].Of(scope).version
  {
    VersionsIncrease(trees, versions, scope, i, j);
    KeyLessIrreflexive(VersionKey(trees[i].Of(scope).version).value);
  }

  // ----- The command -----

  /** The crate directories whose manifests differ. */
  function Changed(before: Workspace, after: Workspace): set<Dir> {
    set d | d in before.crates && d in after.crates && after.crates[d] != before.crates[d]
  }

  datatype BumpError = NotARelease | NotAbove | Unplannable(error: Error) | DidNotMove(name: string)

  /** The checked-out workspaces, whose manifests the bump rewrites in place. */
  class Checkout {
    var tree: Tree

    constructor (tree: Tree)
      ensures this.tree == tree
    {
      this.tree := tree;
    }

    /** Points every path dependency on a moving crate at `version`; true if the manifest changed. */
    method Repin(m: Manifest, moving: set<Dir>, version: string) returns (updated: Manifest, changed: bool)
      ensures updated == RepinManifest(m, moving, version)
      ensures changed <==> updated != m
    {
      var dependencies := m.dependencies;
      for i := 0 to |dependencies|
        invariant |dependencies| == |m.dependencies|
        invariant forall k :: 0 <= k < i ==> dependencies[k] == RepinDependency(m.dependencies[k], moving, version)
        invariant forall k :: i <= k < |dependencies| ==> dependencies[k] == m.dependencies[k]
      {
        dependencies := dependencies[i := RepinDependency(dependencies[i], moving, version)];
      }
      assert dependencies == RepinDependencies(m.dependencies, moving, version);
      updated := m.(dependencies := dependencies);
      changed := updated != m;
    }

    method RepinWorkspace(ws: Workspace, moving: set<Dir>, version: string) returns (r: Workspace, changed: set<Dir>)
      ensures r == ws.(crates := map d | d in ws.crates :: RepinManifest(ws.crates[d], moving, version))
      ensures changed == set d | d in ws.crates && RepinManifest(ws.crates[d], moving, version) != ws.crates[d]
    {
      var crates := ws.crates;
      changed := {};
      var rest := ws.crates.Keys;
      while rest != {}
        invariant rest <= ws.crates.Keys && crates.Keys == ws.crates.Keys
        invariant forall d :: d in rest ==> crates[d] == ws.crates[d]
        invariant forall d :: d in ws.crates && d !in rest ==> crates[d] == RepinManifest(ws.crates[d], moving, version)
        invariant changed == set d | d in ws.crates && d !in rest
                  && RepinManifest(ws.crates[d], moving, version) != ws.crates[d]
      {
        var d :| d in rest;
        var updated, moved := Repin(crates[d], moving, version);
        if moved {
          crates := crates[d := updated];
          changed := changed + {d};
        }
        rest := rest - {d};
      }
      r := ws.(crates := crates);
      assert crates == map d | d in ws.crates :: RepinManifest(ws.crates[d], moving, version);
    }

    /**
     A refused version changes nothing. Otherwise the tree is rewritten, and the
     answer says whether the rewritten tree plans; the check that every crate
     moved never fires.
     */
    method Bump(version: string) returns (r: Result<set<Dir>, BumpError>)
      requires Separate(tree)
      modifies this
      ensures !Allowed(old(tree), version) ==>
                r == Err(if IsRelease(version) then NotAbove else NotARelease) && tree == old(tree)
      ensures Allowed(old(tree), version) ==> tree == Bumped(old(tree), version)
      ensures r.Ok? <==> Allowed(old(tree), version) && Plans(tree, Framework) && Plans(tree, Blueprint)
      ensures r.Ok? ==>
                r.value == Changed(old(tree).framework, tree.framework) + Changed(old(tree).blueprint, tree.blueprint)
      ensures r.Err? ==> !r.error.DidNotMove?
      ensures Allowed(old(tree), version) && Plans(old(tree), Framework) && Plans(old(tree), Blueprint) ==> r.Ok?
    {
      if !IsRelease(version) {
        return Err(NotARelease);
      }
      if !Above(version, tree.framework.version) || !Above(version, tree.blueprint.version) {
        return Err(NotAbove);
      }
      ghost var before := tree;
      tree := Tree(tree.framework.(version := version), tree.blueprint.(version := version));
      var moving := Moving(tree);
      assert moving == Moving(before);
      var framework, inFramework := RepinWorkspace(tree.framework, moving, version);
      var blueprint, inBlueprint := RepinWorkspace(tree.blueprint, moving, version);
      tree := Tree(framework, blueprint);
      assert tree == Bumped(before, version);
      assert inFramework == Changed(before.framework, framework) && inBlueprint == Changed(before.blueprint, blueprint);
      if Plans(before, Framework) && Plans(before, Blueprint) {
        BumpKeepsReleasePlannable(before, Framework, version);
        BumpKeepsReleasePlannable(before, Blueprint, version);
      }
      var vendored := VendoredNames(tree);
      var scopes := [Framework, Blueprint];
      for s := 0 to 2
        invariant tree == Bumped(before, version)
        invariant inFramework + inBlueprint
                  == Changed(before.framework, tree.framework) + Changed(before.blueprint, tree.blueprint)
        invariant forall k :: 0 <= k < s ==> Plans(tree, scopes[k])
      {
        var plan := ReleasePlan.ReleasePlan(tree, scopes[s]);
        if plan.Err? {
          return Err(Unplannable(plan.error));
        }
        for i := 0 to |plan.value|
          invariant tree == Bumped(before, version)
        {
          EveryPackageMovedOrVendored(before, scopes[s], version, plan.value, i);
          var package := plan.value[i];
          if package.version != version && package.name !in vendored {
            return Err(DidNotMove(package.name));
          }
        }
      }
      assert Plans(tree, scopes[0]) && Plans(tree, scopes[1]);
      return Ok(inFramework + inBlueprint);
    }
  }
}
