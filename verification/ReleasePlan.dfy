/**
 The release plan: which crates of a workspace are published, with which
 pinned dependencies, and in which order.
 */
module ReleasePlan {
  import opened Collections
  import Graphs

  /** A crate directory, with every path already resolved. */
  type Dir = string

  datatype Scope = Framework | Blueprint

  /** A package key: left out, taken from the workspace, or written in the manifest. */
  datatype Field = Missing | Inherited | Literal(text: string)

  datatype Publish = Unspecified | Never | CratesIo | Elsewhere

  datatype Kind = Normal | Build | Dev

  datatype Spec =
    | Requirement(text: string)
    | Detailed(git: bool, path: Option<Dir>, version: Option<string>, package: Option<string>)

  /** One entry of a dependency table, of the package or of one of its targets. */
  datatype Dependency = Dependency(kind: Kind, alias: string, spec: Spec)

  datatype Manifest = Manifest(name: string, publish: Publish, version: Field, description: Field,
                               license: Field, repository: Field, dependencies: seq<Dependency>)

  datatype Workspace = Workspace(version: string, description: Option<string>, license: Option<string>,
                                 repository: Option<string>, crates: map<Dir, Manifest>)

  datatype Tree = Tree(framework: Workspace, blueprint: Workspace) {
    function Of(scope: Scope): Workspace {
      match scope
      case Framework => framework
      case Blueprint => blueprint
    }
  }

  datatype Release = Release(name: string, version: string)

  datatype Planned = Planned(name: string, version: string, dir: Dir,
                             dependencies: set<string>, external: set<Release>)

  datatype Error = Invalid | Cycle(pending: set<string>)

  // ----- The crates a workspace owns -----

  predicate Owned(m: Manifest) {
    "forklaunch-" <= m.name
  }

  predicate ValidName(name: string) {
    && "forklaunch-" < name
    && forall i :: 11 <= i < |name| ==> 'a' <= name[i] <= 'z' || '0' <= name[i] <= '9' || name[i] == '-'
  }

  function Resolve(f: Field, inherited: Option<string>): Option<string> {
    match f
    case Missing => None
    case Inherited => inherited
    case Literal(text) => Some(text)
  }

  function VersionOf(ws: Workspace, m: Manifest): Option<string> {
    Resolve(m.version, Some(ws.version))
  }

  predicate Inherits(ws: Workspace, m: Manifest) {
    && (m.description.Inherited? ==> ws.description.Some?)
    && (m.license.Inherited? ==> ws.license.Some?)
    && (m.repository.Inherited? ==> ws.repository.Some?)
  }

  predicate OwnedDir(ws: Workspace, d: Dir) {
    d in ws.crates && Owned(ws.crates[d])
  }

  ghost predicate UniqueNames(ws: Workspace) {
    forall d, e :: OwnedDir(ws, d) && OwnedDir(ws, e) && ws.crates[d].name == ws.crates[e].name ==> d == e
  }

  ghost predicate InventoryOk(ws: Workspace) {
    && UniqueNames(ws)
    && forall d :: OwnedDir(ws, d) ==> ValidName(ws.crates[d].name) && Inherits(ws, ws.crates[d])
  }

  predicate Published(ws: Workspace, d: Dir) {
    OwnedDir(ws, d) && ws.crates[d].publish != Never
  }

  predicate Described(ws: Workspace, m: Manifest) {
    && m.publish in {Unspecified, CratesIo}
    && VersionOf(ws, m) !in {None, Some("")}
    && Resolve(m.description, ws.description) !in {None, Some("")}
    && Resolve(m.license, ws.license) !in {None, Some("")}
    && Resolve(m.repository, ws.repository) !in {None, Some("")}
  }

  // ----- One dependency entry -----

  /** What an entry means for the plan. */
  datatype Link = Ignored | OnRelease(release: Release) | OnSibling(name: string)

  function WithoutEquals(version: string): string {
    if "=" <= version then version[1..] else version
  }

  function GetOr(o: Option<string>, default: string): string {
    match o
    case None => default
    case Some(v) => v
  }

  function FrameworkLink(ws: Workspace, target: Manifest, dep: Dependency): Option<Link>
    requires dep.spec.Detailed?
  {
    var version := VersionOf(ws, target);
    if version.None? || dep.spec.version != Some("=" + version.value) then None
    else if dep.kind == Dev then Some(Ignored)
    else Some(OnRelease(Release(target.name, version.value)))
  }

  function SiblingLink(ws: Workspace, target: Manifest, dep: Dependency): Option<Link>
    requires dep.spec.Detailed?
  {
    if target.publish == Never || GetOr(dep.spec.package, dep.alias) != target.name then None
    else if dep.kind == Dev && dep.spec.version.None? then Some(Ignored)
    else if VersionOf(ws, target) != Some(WithoutEquals(GetOr(dep.spec.version, ""))) then None
    else Some(OnSibling(target.name))
  }

  /** None when the entry makes the crate unpublishable. */
  function LinkOf(tree: Tree, scope: Scope, dep: Dependency): Option<Link> {
    if dep.spec.Requirement? then Some(Ignored)
    else if dep.spec.git then None
    else if dep.spec.path.None? then Some(Ignored)
    else
      var target := dep.spec.path.value;
      if scope == Blueprint && OwnedDir(tree.framework, target) then
        FrameworkLink(tree.framework, tree.framework.crates[target], dep)
      else if !OwnedDir(tree.Of(scope), target) then None
      else SiblingLink(tree.Of(scope), tree.Of(scope).crates[target], dep)
  }

  function Siblings(tree: Tree, scope: Scope, deps: seq<Dependency>): set<string> {
    set dep | dep in deps && LinkOf(tree, scope, dep).Some? && LinkOf(tree, scope, dep).value.OnSibling?
      :: LinkOf(tree, scope, dep).value.name
  }

  function Releases(tree: Tree, scope: Scope, deps: seq<Dependency>): set<Release> {
    set dep | dep in deps && LinkOf(tree, scope, dep).Some? && LinkOf(tree, scope, dep).value.OnRelease?
      :: LinkOf(tree, scope, dep).value.release
  }

  predicate Linked(tree: Tree, scope: Scope, deps: seq<Dependency>) {
    forall dep :: dep in deps ==> LinkOf(tree, scope, dep).Some?
  }

  // ----- The whole workspace -----

  predicate CrateOk(tree: Tree, scope: Scope, d: Dir)
    requires OwnedDir(tree.Of(scope), d)
  {
    var m := tree.Of(scope).crates[d];
    Described(tree.Of(scope), m) && Linked(tree, scope, m.dependencies)
  }

  /** Every check of the plan except the cycle check passes. */
  ghost predicate Valid(tree: Tree, scope: Scope) {
    && InventoryOk(tree.Of(scope))
    && (scope == Blueprint ==> InventoryOk(tree.framework))
    && forall d :: Published(tree.Of(scope), d) ==> CrateOk(tree, scope, d)
  }

  function Plan(tree: Tree, scope: Scope, d: Dir): Planned
    requires Published(tree.Of(scope), d) && CrateOk(tree, scope, d)
  {
    var m := tree.Of(scope).crates[d];
    Planned(m.name, VersionOf(tree.Of(scope), m).value, d,
            Siblings(tree, scope, m.dependencies), Releases(tree, scope, m.dependencies))
  }

  ghost predicate CrateNamed(ws: Workspace, d: Dir, n: string) {
    Published(ws, d) && ws.crates[d].name == n
  }

  ghost function PublishedNames(ws: Workspace): set<string> {
    set d | d in ws.crates.Keys && Published(ws, d) :: ws.crates[d].name
  }

  ghost function DirNamed(ws: Workspace, n: string): (d: Dir)
    requires n in PublishedNames(ws)
    ensures CrateNamed(ws, d, n)
  {
    var d :| d in ws.crates.Keys && Published(ws, d) && ws.crates[d].name == n;
    d
  }

  /** Every planned package, by name. */
  ghost function AllPackages(tree: Tree, scope: Scope): map<string, Planned>
    requires Valid(tree, scope)
  {
    map n | n in PublishedNames(tree.Of(scope)) :: Plan(tree, scope, DirNamed(tree.Of(scope), n))
  }

  lemma PackageOfCrate(tree: Tree, scope: Scope, d: Dir)
    requires Valid(tree, scope) && Published(tree.Of(scope), d)
    ensures tree.Of(scope).crates[d].name in AllPackages(tree, scope)
    ensures AllPackages(tree, scope)[tree.Of(scope).crates[d].name] == Plan(tree, scope, d)
  {
    var ws := tree.Of(scope);
    assert d in ws.crates.Keys;
    var e := DirNamed(ws, ws.crates[d].name);
    assert OwnedDir(ws, d) && OwnedDir(ws, e);
  }

  lemma CrateOfPackage(tree: Tree, scope: Scope, n: string)
    requires Valid(tree, scope) && n in AllPackages(tree, scope)
    ensures CrateNamed(tree.Of(scope), AllPackages(tree, scope)[n].dir, n)
    ensures AllPackages(tree, scope)[n] == Plan(tree, scope, AllPackages(tree, scope)[n].dir)
  {
  }

  function GraphOf(packages: map<string, Planned>): Graphs.Graph {
    map n | n in packages :: packages[n].dependencies
  }

  function Names(plan: seq<Planned>): seq<string> {
    seq(|plan|, i requires 0 <= i < |plan| => plan[i].name)
  }

  /** `plan` is the release plan: the planned packages in layered order. */
  ghost predicate IsPlan(tree: Tree, scope: Scope, plan: seq<Planned>) {
    && Valid(tree, scope)
    && Graphs.IsLayeredOrder(GraphOf(AllPackages(tree, scope)), Names(plan))
    && forall p :: p in plan ==> p.name in AllPackages(tree, scope) && p == AllPackages(tree, scope)[p.name]
  }

  /** Planning succeeds. */
  ghost predicate Plans(tree: Tree, scope: Scope) {
    Valid(tree, scope) && Graphs.Acyclic(GraphOf(AllPackages(tree, scope)))
  }

  /** The packages whose dependencies lead into a cycle. */
  ghost function CyclicNames(tree: Tree, scope: Scope): set<string>
    requires Valid(tree, scope)
  {
    var g := GraphOf(AllPackages(tree, scope));
    set n | n in g && Graphs.ReachesCycle(g, n)
  }

  // ----- What a plan promises -----

  lemma SiblingIsPublished(tree: Tree, scope: Scope, d: Dir, name: string)
    requires Valid(tree, scope) && Published(tree.Of(scope), d)
    requires name in Plan(tree, scope, d).dependencies
    ensures name in AllPackages(tree, scope)
  {
    var m := tree.Of(scope).crates[d];
    var dep :| dep in m.dependencies && LinkOf(tree, scope, dep) == Some(OnSibling(name));
    PackageOfCrate(tree, scope, dep.spec.path.value);
  }

  lemma GraphClosed(tree: Tree, scope: Scope)
    requires Valid(tree, scope)
    ensures Graphs.Closed(GraphOf(AllPackages(tree, scope)))
  {
    var packages := AllPackages(tree, scope);
    forall n, x | n in packages && x in packages[n].dependencies ensures x in packages {
      CrateOfPackage(tree, scope, n);
      SiblingIsPublished(tree, scope, packages[n].dir, x);
    }
  }

  lemma PlanUnique(tree: Tree, scope: Scope, a: seq<Planned>, b: seq<Planned>)
    requires IsPlan(tree, scope, a) && IsPlan(tree, scope, b)
    ensures a == b
  {
    Graphs.LayeredOrderUnique(GraphOf(AllPackages(tree, scope)), Names(a), Names(b));
    assert |a| == |Names(a)| == |b|;
    forall i | 0 <= i < |a| ensures a[i] == b[i] {
      assert Names(a)[i] == Names(b)[i];
      assert a[i] in a && b[i] in b;
    }
  }

  lemma PlannedMeansPlans(tree: Tree, scope: Scope, plan: seq<Planned>)
    requires IsPlan(tree, scope, plan)
    ensures Plans(tree, scope)
  {
    Graphs.LayeredOrderMeansAcyclic(GraphOf(AllPackages(tree, scope)), Names(plan));
  }

  lemma AnyPlanMeansPlans(tree: Tree, scope: Scope)
    ensures forall plan :: IsPlan(tree, scope, plan) ==> Plans(tree, scope)
  {
    forall plan | IsPlan(tree, scope, plan) ensures Plans(tree, scope) {
      PlannedMeansPlans(tree, scope, plan);
    }
  }

  lemma PlanEntry(tree: Tree, scope: Scope, plan: seq<Planned>, i: nat)
    requires IsPlan(tree, scope, plan) && i < |plan|
    ensures Published(tree.Of(scope), plan[i].dir)
    ensures plan[i] == Plan(tree, scope, plan[i].dir)
  {
    assert plan[i] in plan;
    CrateOfPackage(tree, scope, plan[i].name);
  }

  lemma EveryCratePlanned(tree: Tree, scope: Scope, plan: seq<Planned>, d: Dir) returns (i: nat)
    requires IsPlan(tree, scope, plan) && Published(tree.Of(scope), d)
    ensures i < |plan| && plan[i] == Plan(tree, scope, d)
  {
    PackageOfCrate(tree, scope, d);
    var n := tree.Of(scope).crates[d].name;
    assert n in ToSet(Names(plan));
    i :| 0 <= i < |plan| && Names(plan)[i] == n;
    assert plan[i] in plan;
  }

  lemma DependenciesComeFirst(tree: Tree, scope: Scope, plan: seq<Planned>, i: nat, x: string)
    requires IsPlan(tree, scope, plan) && i < |plan| && x in plan[i].dependencies
    ensures exists j :: 0 <= j < i && plan[j].name == x
  {
    var g := GraphOf(AllPackages(tree, scope));
    GraphClosed(tree, scope);
    Graphs.LayeredOrderIsTopological(g, Names(plan));
    assert plan[i] in plan;
    assert Graphs.Edge(g, Names(plan)[i], x);
    var j :| 0 <= j < i && Names(plan)[..i][j] == x;
    assert plan[j].name == x;
  }

  /** The plan is a permutation of the published crates, each after its dependencies. */
  lemma PlanIsInDependencyOrder(tree: Tree, scope: Scope, plan: seq<Planned>)
    requires IsPlan(tree, scope, plan)
    ensures NoDuplicates(Names(plan))
    ensures forall d :: Published(tree.Of(scope), d) <==> exists i :: 0 <= i < |plan| && plan[i].dir == d
    ensures forall i, x :: 0 <= i < |plan| && x in plan[i].dependencies
              ==> exists j :: 0 <= j < i && plan[j].name == x
  {
    GraphClosed(tree, scope);
    Graphs.LayeredOrderIsTopological(GraphOf(AllPackages(tree, scope)), Names(plan));
    forall d ensures Published(tree.Of(scope), d) <==> exists i :: 0 <= i < |plan| && plan[i].dir == d {
      if Published(tree.Of(scope), d) {
        var i := EveryCratePlanned(tree, scope, plan, d);
        assert plan[i].dir == d;
      }
      if i :| 0 <= i < |plan| && plan[i].dir == d {
        PlanEntry(tree, scope, plan, i);
      }
    }
    forall i, x | 0 <= i < |plan| && x in plan[i].dependencies
      ensures exists j :: 0 <= j < i && plan[j].name == x
    {
      DependenciesComeFirst(tree, scope, plan, i, x);
    }
  }

  /** The entry makes Cargo resolve the crate at `target` from the registry. */
  predicate Resolves(dep: Dependency, target: Dir) {
    dep.spec.Detailed? && dep.spec.path == Some(target) && !(dep.kind == Dev && dep.spec.version.None?)
  }

  /**
   A crate's dependencies are exactly its path entries on planned crates, save
   development entries without a version; each such entry names its target and
   pins, up to a leading `=`, the version the target is planned at.
   */
  lemma DependenciesAreThePinnedPaths(tree: Tree, scope: Scope, plan: seq<Planned>, i: nat, j: nat)
    requires IsPlan(tree, scope, plan) && i < |plan| && j < |plan|
    requires scope == Blueprint ==> !OwnedDir(tree.framework, plan[j].dir)
    ensures plan[i].dir in tree.Of(scope).crates
    ensures var deps := tree.Of(scope).crates[plan[i].dir].dependencies;
            && (plan[j].name in plan[i].dependencies <==> exists dep :: dep in deps && Resolves(dep, plan[j].dir))
            && forall dep :: dep in deps && Resolves(dep, plan[j].dir) ==>
                 !dep.spec.git && GetOr(dep.spec.package, dep.alias) == plan[j].name
                 && WithoutEquals(GetOr(dep.spec.version, "")) == plan[j].version
  {
    PlanEntry(tree, scope, plan, i);
    PlanEntry(tree, scope, plan, j);
    var deps := tree.Of(scope).crates[plan[i].dir].dependencies;
    forall dep | dep in deps && Resolves(dep, plan[j].dir)
      ensures LinkOf(tree, scope, dep) == Some(OnSibling(plan[j].name))
      ensures !dep.spec.git && GetOr(dep.spec.package, dep.alias) == plan[j].name
      ensures WithoutEquals(GetOr(dep.spec.version, "")) == plan[j].version
    {
      assert LinkOf(tree, scope, dep).Some?;
    }
    if plan[j].name in plan[i].dependencies {
      var dep :| dep in deps && LinkOf(tree, scope, dep) == Some(OnSibling(plan[j].name));
      assert OwnedDir(tree.Of(scope), dep.spec.path.value) && OwnedDir(tree.Of(scope), plan[j].dir);
      assert Resolves(dep, plan[j].dir);
    }
  }

  predicate PinsRelease(framework: Workspace, dep: Dependency, d: Dir, e: Release) {
    && dep.kind != Dev && dep.spec.Detailed? && dep.spec.path == Some(d) && OwnedDir(framework, d)
    && framework.crates[d].name == e.name && VersionOf(framework, framework.crates[d]) == Some(e.version)
    && dep.spec.version == Some("=" + e.version)
  }

  /**
   A blueprint crate's external releases are exactly its non-development paths into the
   framework, pinned with `=`.
   */
  lemma ExternalsAreTheExactPins(tree: Tree, plan: seq<Planned>, i: nat, e: Release)
    requires IsPlan(tree, Blueprint, plan) && i < |plan|
    ensures plan[i].dir in tree.blueprint.crates
    ensures e in plan[i].external <==>
              exists dep, d :: dep in tree.blueprint.crates[plan[i].dir].dependencies
                  && PinsRelease(tree.framework, dep, d, e)
  {
    PlanEntry(tree, Blueprint, plan, i);
    var deps := tree.blueprint.crates[plan[i].dir].dependencies;
    if e in plan[i].external {
      var dep :| dep in deps && LinkOf(tree, Blueprint, dep) == Some(OnRelease(e));
      assert PinsRelease(tree.framework, dep, dep.spec.path.value, e);
    }
    if dep, d :| dep in deps && PinsRelease(tree.framework, dep, d, e) {
      assert LinkOf(tree, Blueprint, dep).Some?;
    }
  }

  /** The framework plan publishes a crate's release exactly when the crate is not private. */
  lemma PlannedIffPublic(tree: Tree, framework: seq<Planned>, d: Dir, e: Release)
    requires IsPlan(tree, Framework, framework) && OwnedDir(tree.framework, d)
    requires tree.framework.crates[d].name == e.name
    requires VersionOf(tree.framework, tree.framework.crates[d]) == Some(e.version)
    ensures (exists i :: 0 <= i < |framework| && Release(framework[i].name, framework[i].version) == e)
            <==> tree.framework.crates[d].publish != Never
  {
    if Published(tree.framework, d) {
      var i := EveryCratePlanned(tree, Framework, framework, d);
    }
    if i :| 0 <= i < |framework| && Release(framework[i].name, framework[i].version) == e {
      PlanEntry(tree, Framework, framework, i);
      assert OwnedDir(tree.framework, framework[i].dir);
    }
  }

  /**
   A blueprint plan names exact framework releases. Such a release is one the
   framework plan publishes exactly when the framework crate is not private;
   planning does not look at that, so the condition is the caller's to check.
   */
  lemma ExternalReleaseIsPlannedIffPublic(tree: Tree, blueprint: seq<Planned>, framework: seq<Planned>, k: nat,
                                          e: Release)
    returns (d: Dir)
    requires IsPlan(tree, Blueprint, blueprint) && IsPlan(tree, Framework, framework)
    requires k < |blueprint| && e in blueprint[k].external
    ensures OwnedDir(tree.framework, d) && tree.framework.crates[d].name == e.name
    ensures (exists i :: 0 <= i < |framework| && Release(framework[i].name, framework[i].version) == e)
            <==> tree.framework.crates[d].publish != Never
  {
    PlanEntry(tree, Blueprint, blueprint, k);
    var m := tree.blueprint.crates[blueprint[k].dir];
    var dep :| dep in m.dependencies && LinkOf(tree, Blueprint, dep) == Some(OnRelease(e));
    d := dep.spec.path.value;
    PlannedIffPublic(tree, framework, d, e);
  }

  lemma NothingPublishedPlan(tree: Tree, scope: Scope)
    requires Valid(tree, scope) && forall d :: !Published(tree.Of(scope), d)
    ensures IsPlan(tree, scope, [])
  {
    assert AllPackages(tree, scope) == map[];
    assert Names([]) == [];
  }

  lemma OnlyCratePlan(tree: Tree, scope: Scope, d: Dir)
    requires Valid(tree, scope) && Published(tree.Of(scope), d) && forall e :: Published(tree.Of(scope), e) ==> e == d
    requires Plan(tree, scope, d).dependencies == {}
    ensures IsPlan(tree, scope, [Plan(tree, scope, d)])
  {
    var p := Plan(tree, scope, d);
    var packages := AllPackages(tree, scope);
    var g := GraphOf(packages);
    PackageOfCrate(tree, scope, d);
    assert PublishedNames(tree.Of(scope)) == {p.name};
    assert packages.Keys == {p.name} && g[p.name] == {};
    assert Names([p]) == [p.name];
    Graphs.DeepZero(g, p.name);
    Graphs.DeepStep(g, p.name, 0);
    assert Graphs.HasHeight(g, p.name, 0);
  }

  /** A framework crate that is never published, and a public blueprint crate that pins its exact version. */
  function PrivatePinTree(): Tree {
    var target := Manifest("forklaunch-internal", Never, Inherited, Missing, Missing, Missing, []);
    var pin := Dependency(Normal, "forklaunch-internal", Detailed(false, Some("internal"), Some("=1.0.0"), None));
    var user := Manifest("forklaunch-user", Unspecified, Inherited, Literal("text"), Literal("MIT"), Literal("url"),
        [pin]);
    Tree(Workspace("1.0.0", None, None, None, map["internal" := target]),
         Workspace("1.0.0", None, None, None, map["user" := user]))
  }

  lemma PrivatePinInventory()
    ensures InventoryOk(PrivatePinTree().framework) && InventoryOk(PrivatePinTree().blueprint)
  {
    assert ValidName("forklaunch-internal") && ValidName("forklaunch-user");
  }

  lemma PrivatePinLink()
    ensures var tree := PrivatePinTree();
            && OwnedDir(tree.framework, "internal") && !Published(tree.framework, "internal")
            && Published(tree.blueprint, "user") && Described(tree.blueprint, tree.blueprint.crates["user"])
            && |tree.blueprint.crates["user"].dependencies| == 1
            && LinkOf(tree, Blueprint, tree.blueprint.crates["user"].dependencies[0])
               == Some(OnRelease(Release("forklaunch-internal", "1.0.0")))
  {
    assert "=" + "1.0.0" == "=1.0.0";
  }

  /** Both scopes plan, and the blueprint plan names a release the framework plan does not have. */
  lemma PrivatePinIsPlanned() returns (blueprint: seq<Planned>)
    ensures IsPlan(PrivatePinTree(), Framework, []) && IsPlan(PrivatePinTree(), Blueprint, blueprint)
    ensures |blueprint| == 1 && Release("forklaunch-internal", "1.0.0") in blueprint[0].external
  {
    var tree := PrivatePinTree();
    PrivatePinInventory();
    PrivatePinLink();
    var pins := tree.blueprint.crates["user"].dependencies;
    assert pins == [pins[0]] && pins[0] in pins;
    NothingPublishedPlan(tree, Framework);
    OnlyCratePlan(tree, Blueprint, "user");
    blueprint := [Plan(tree, Blueprint, "user")];
  }

  // ----- The same rules, on the fields of the manifests alone -----

  /** A lower-case ASCII letter, a digit or a dash, by code point. */
  predicate NameCharacter(c: char) {
    var code := c as int;
    0x61 <= code <= 0x7a || 0x30 <= code <= 0x39 || code == 0x2d
  }

  /** The value a package key stands for is a non-empty text. */
  predicate HasText(field: Field, inherited: Option<string>) {
    || (field.Literal? && field.text != "")
    || (field.Inherited? && inherited.Some? && inherited.value != "")
  }

  /** `version` is the version of the crate `m` of `ws`. */
  predicate IsVersion(ws: Workspace, m: Manifest, version: string) {
    m.version == Literal(version) || (m.version == Inherited && ws.version == version)
  }

  ghost predicate InventoryFields(ws: Workspace) {
    && (forall d :: d in ws.crates && "forklaunch-" <= ws.crates[d].name ==>
          var m := ws.crates[d];
          && |m.name| > 11 && (forall i :: 11 <= i < |m.name| ==> NameCharacter(m.name[i]))
          && (m.description == Inherited ==> ws.description.Some?)
          && (m.license == Inherited ==> ws.license.Some?)
          && (m.repository == Inherited ==> ws.repository.Some?))
    && (forall d, e :: d in ws.crates && e in ws.crates && d != e && "forklaunch-" <= ws.crates[d].name ==>
          ws.crates[d].name != ws.crates[e].name)
  }

  /** A path into the framework pins the exact version, whatever kind of dependency it is. */
  ghost predicate FrameworkEntry(framework: Workspace, d: Dir, dep: Dependency)
    requires d in framework.crates && dep.spec.Detailed?
  {
    exists version :: IsVersion(framework, framework.crates[d], version) && dep.spec.version == Some("=" + version)
  }

  /** The entry has this version, or this version behind a `=`; a missing one counts as empty. */
  predicate Pins(dep: Dependency, version: string)
    requires dep.spec.Detailed?
  {
    var written := if dep.spec.version.Some? then dep.spec.version.value else "";
    written == "=" + version || (written == version && (version == "" || version[0] != '='))
  }

  /**
   A path to a crate of the scope leads to a public one by its name, and has its
   version unless it is for development.
   */
  ghost predicate SiblingEntry(ws: Workspace, d: Dir, dep: Dependency)
    requires d in ws.crates && dep.spec.Detailed?
  {
    var m := ws.crates[d];
    && m.publish != Never
    && m.name == (if dep.spec.package.Some? then dep.spec.package.value else dep.alias)
    && ((dep.kind == Dev && dep.spec.version == None)
        || exists version :: IsVersion(ws, m, version) && Pins(dep, version))
  }

  /** What the plan accepts as an entry of a dependency table. */
  ghost predicate EntryFields(tree: Tree, scope: Scope, dep: Dependency) {
    dep.spec.Detailed? ==>
      && !dep.spec.git
      && (dep.spec.path.Some? ==>
            var d, ws := dep.spec.path.value, tree.Of(scope);
            if scope == Blueprint && d in tree.framework.crates && "forklaunch-" <= tree.framework.crates[d].name
            then FrameworkEntry(tree.framework, d, dep)
            else d in ws.crates && "forklaunch-" <= ws.crates[d].name && SiblingEntry(ws, d, dep))
  }

  /** What the plan accepts as a crate to publish. */
  ghost predicate CrateFields(tree: Tree, scope: Scope, m: Manifest) {
    var ws := tree.Of(scope);
    && m.publish != Elsewhere
    && HasText(m.version, Some(ws.version)) && HasText(m.description, ws.description)
    && HasText(m.license, ws.license) && HasText(m.repository, ws.repository)
    && forall dep :: dep in m.dependencies ==> EntryFields(tree, scope, dep)
  }

  ghost predicate ScopeFields(tree: Tree, scope: Scope) {
    && InventoryFields(tree.Of(scope)) && (scope == Blueprint ==> InventoryFields(tree.framework))
    && forall d :: d in tree.Of(scope).crates && "forklaunch-" <= tree.Of(scope).crates[d].name
                   && tree.Of(scope).crates[d].publish != Never ==>
         CrateFields(tree, scope, tree.Of(scope).crates[d])
  }

  lemma ValidNameIff(name: string)
    requires "forklaunch-" <= name
    ensures ValidName(name) <==> |name| > 11 && forall i :: 11 <= i < |name| ==> NameCharacter(name[i])
  {
  }

  lemma InventoryIff(ws: Workspace)
    ensures InventoryOk(ws) <==> InventoryFields(ws)
  {
    forall d | OwnedDir(ws, d)
      ensures ValidName(ws.crates[d].name) <==>
                var name := ws.crates[d].name; |name| > 11 && forall i :: 11 <= i < |name| ==> NameCharacter(name[i])
    {
      ValidNameIff(ws.crates[d].name);
    }
    if InventoryOk(ws) {
      forall d, e | d in ws.crates && e in ws.crates && d != e && "forklaunch-" <= ws.crates[d].name
        ensures ws.crates[d].name != ws.crates[e].name
      {
        assert OwnedDir(ws, d) && (OwnedDir(ws, e) || !("forklaunch-" <= ws.crates[e].name));
      }
    }
  }

  lemma FrameworkEntryIff(ws: Workspace, d: Dir, dep: Dependency)
    requires d in ws.crates && dep.spec.Detailed?
    ensures FrameworkLink(ws, ws.crates[d], dep).Some? <==> FrameworkEntry(ws, d, dep)
  {
    var version := VersionOf(ws, ws.crates[d]);
    assert forall v :: IsVersion(ws, ws.crates[d], v) <==> version == Some(v);
  }

  lemma SiblingEntryIff(ws: Workspace, d: Dir, dep: Dependency)
    requires d in ws.crates && dep.spec.Detailed?
    ensures SiblingLink(ws, ws.crates[d], dep).Some? <==> SiblingEntry(ws, d, dep)
  {
    var version := VersionOf(ws, ws.crates[d]);
    var written := GetOr(dep.spec.version, "");
    assert forall v :: IsVersion(ws, ws.crates[d], v) <==> version == Some(v);
    forall v ensures WithoutEquals(written) == v <==> Pins(dep, v) {
      if "=" <= written {
        assert written == "=" + written[1..];
      }
      assert ("=" + v)[1..] == v;
    }
  }

  lemma EntryIff(tree: Tree, scope: Scope, dep: Dependency)
    ensures LinkOf(tree, scope, dep).Some? <==> EntryFields(tree, scope, dep)
  {
    if dep.spec.Detailed? && dep.spec.path.Some? {
      var d := dep.spec.path.value;
      if d in tree.framework.crates {
        FrameworkEntryIff(tree.framework, d, dep);
      }
      if d in tree.Of(scope).crates {
        SiblingEntryIff(tree.Of(scope), d, dep);
      }
    }
  }

  lemma TextIff(field: Field, inherited: Option<string>)
    ensures Resolve(field, inherited) !in {None, Some("")} <==> HasText(field, inherited)
  {
  }

  lemma CrateIff(tree: Tree, scope: Scope, d: Dir)
    requires OwnedDir(tree.Of(scope), d) && tree.Of(scope).crates[d].publish != Never
    ensures CrateOk(tree, scope, d) <==> CrateFields(tree, scope, tree.Of(scope).crates[d])
  {
    var ws := tree.Of(scope);
    var m := ws.crates[d];
    TextIff(m.version, Some(ws.version));
    TextIff(m.description, ws.description);
    TextIff(m.license, ws.license);
    TextIff(m.repository, ws.repository);
    forall dep | dep in m.dependencies
      ensures LinkOf(tree, scope, dep).Some? <==> EntryFields(tree, scope, dep)
    {
      EntryIff(tree, scope, dep);
    }
  }

  /** A scope passes every check but the cycle check exactly when its manifests have these fields. */
  lemma ValidIffFields(tree: Tree, scope: Scope)
    ensures Valid(tree, scope) <==> ScopeFields(tree, scope)
  {
    InventoryIff(tree.Of(scope));
    InventoryIff(tree.framework);
    forall d | Published(tree.Of(scope), d)
      ensures CrateOk(tree, scope, d) <==> CrateFields(tree, scope, tree.Of(scope).crates[d])
    {
      CrateIff(tree, scope, d);
    }
  }

  /**
   Every planned crate is a public crate of the scope, at its own or the workspace's
   version, with acceptable entries.
   */
  lemma PlannedFields(tree: Tree, scope: Scope, plan: seq<Planned>, i: nat)
    requires IsPlan(tree, scope, plan) && i < |plan|
    ensures plan[i].dir in tree.Of(scope).crates
    ensures var m := tree.Of(scope).crates[plan[i].dir];
            && m.name == plan[i].name && "forklaunch-" <= m.name && m.publish in {Unspecified, CratesIo}
            && IsVersion(tree.Of(scope), m, plan[i].version) && plan[i].version != ""
            && CrateFields(tree, scope, m)
  {
    PlanEntry(tree, scope, plan, i);
    CrateIff(tree, scope, plan[i].dir);
  }

  // ----- Planning -----

  method ReadDependencies(tree: Tree, scope: Scope, m: Manifest)
    returns (ok: bool, dependencies: set<string>, external: set<Release>)
    ensures ok <==> Linked(tree, scope, m.dependencies)
    ensures ok ==> dependencies == Siblings(tree, scope, m.dependencies)
    ensures ok ==> external == Releases(tree, scope, m.dependencies)
  {
    dependencies, external := {}, {};
    for i := 0 to |m.dependencies|
      invariant Linked(tree, scope, m.dependencies[..i])
      invariant dependencies == Siblings(tree, scope, m.dependencies[..i])
      invariant external == Releases(tree, scope, m.dependencies[..i])
    {
      assert m.dependencies[..i + 1] == m.dependencies[..i] + [m.dependencies[i]];
      match LinkOf(tree, scope, m.dependencies[i]) {
        case None => return false, dependencies, external;
        case Some(OnSibling(name)) => dependencies := dependencies + {name};
        case Some(OnRelease(release)) => external := external + {release};
        case Some(Ignored) =>
      }
    }
    assert m.dependencies[..|m.dependencies|] == m.dependencies;
    ok := true;
  }

  method CheckInventory(ws: Workspace) returns (ok: bool)
    ensures ok <==> InventoryOk(ws)
  {
    var rest := ws.crates.Keys;
    var seen: set<string> := {};
    while rest != {}
      invariant rest <= ws.crates.Keys
      invariant forall n :: n in seen <==> exists d :: OwnedDir(ws, d) && d !in rest && ws.crates[d].name == n
      invariant forall d, e | OwnedDir(ws, d) && OwnedDir(ws, e) && d !in rest && e !in rest ::
                  ws.crates[d].name == ws.crates[e].name ==> d == e
      invariant forall d :: OwnedDir(ws, d) && d !in rest ==> ValidName(ws.crates[d].name) && Inherits(ws, ws.crates[d])
    {
      var d :| d in rest;
      rest := rest - {d};
      var m := ws.crates[d];
      if Owned(m) {
        assert OwnedDir(ws, d);
        if !ValidName(m.name) || m.name in seen || !Inherits(ws, m) {
          return false;
        }
        seen := seen + {m.name};
      }
    }
    ok := true;
  }

  /** `packages` holds exactly the planned crates outside `rest`. */
  ghost predicate Collected(tree: Tree, scope: Scope, rest: set<Dir>, packages: map<string, Planned>) {
    var ws := tree.Of(scope);
    && (forall d :: Published(ws, d) && d !in rest ==> CrateOk(tree, scope, d))
    && (forall d :: Published(ws, d) && d !in rest ==>
          ws.crates[d].name in packages && packages[ws.crates[d].name] == Plan(tree, scope, d))
    && (forall n :: n in packages ==> packages[n].dir !in rest && CrateNamed(ws, packages[n].dir, n))
  }

  lemma CollectedOne(tree: Tree, scope: Scope, rest: set<Dir>, packages: map<string, Planned>, d: Dir)
    requires UniqueNames(tree.Of(scope)) && Collected(tree, scope, rest, packages)
    requires d in rest && Published(tree.Of(scope), d) && CrateOk(tree, scope, d)
    ensures Collected(tree, scope, rest - {d}, packages[tree.Of(scope).crates[d].name := Plan(tree, scope, d)])
  {
    var ws := tree.Of(scope);
    forall e | Published(ws, e) && e !in rest ensures ws.crates[e].name != ws.crates[d].name {
      assert OwnedDir(ws, e) && OwnedDir(ws, d);
    }
  }

  lemma CollectedAll(tree: Tree, scope: Scope, packages: map<string, Planned>)
    requires Valid(tree, scope) && Collected(tree, scope, {}, packages)
    ensures packages == AllPackages(tree, scope)
  {
    var all := AllPackages(tree, scope);
    forall n ensures n in packages <==> n in all {
      if n in packages {
        PackageOfCrate(tree, scope, packages[n].dir);
      }
      if n in all {
        CrateOfPackage(tree, scope, n);
      }
    }
    forall n | n in all ensures packages[n] == all[n] {
      CrateOfPackage(tree, scope, n);
    }
  }

  method CollectPackages(tree: Tree, scope: Scope) returns (r: Option<map<string, Planned>>)
    ensures r.Some? <==> Valid(tree, scope)
    ensures r.Some? ==> r.value == AllPackages(tree, scope)
  {
    var ws := tree.Of(scope);
    var ok := CheckInventory(ws);
    if !ok { return None; }
    if scope == Blueprint {
      ok := CheckInventory(tree.framework);
      if !ok { return None; }
    }
    var packages: map<string, Planned> := map[];
    var rest := ws.crates.Keys;
    while rest != {}
      invariant rest <= ws.crates.Keys
      invariant Collected(tree, scope, rest, packages)
    {
      var d :| d in rest;
      if Published(ws, d) {
        var m := ws.crates[d];
        if !Described(ws, m) { return None; }
        var linked, dependencies, external := ReadDependencies(tree, scope, m);
        if !linked { return None; }
        CollectedOne(tree, scope, rest, packages, d);
        packages := packages[m.name := Planned(m.name, VersionOf(ws, m).value, d, dependencies, external)];
      }
      rest := rest - {d};
    }
    CollectedAll(tree, scope, packages);
    return Some(packages);
  }

  lemma OrderIsPlan(tree: Tree, scope: Scope, names: seq<string>, order: seq<Planned>)
    requires Valid(tree, scope) && Graphs.IsLayeredOrder(GraphOf(AllPackages(tree, scope)), names)
    requires |order| == |names|
    requires forall i :: 0 <= i < |names| ==>
             names[i] in AllPackages(tree, scope) && order[i] == AllPackages(tree, scope)[names[i]]
    ensures IsPlan(tree, scope, order)
  {
    assert Names(order) == names;
  }

  method ReleasePlan(tree: Tree, scope: Scope) returns (r: Result<seq<Planned>, Error>)
    ensures r.Ok? <==> Plans(tree, scope)
    ensures r.Ok? ==> IsPlan(tree, scope, r.value)
    ensures r.Err? && r.error.Invalid? <==> !ScopeFields(tree, scope)
    ensures r.Err? && r.error.Cycle? ==> Valid(tree, scope) && r.error.pending == CyclicNames(tree, scope)
  {
    ValidIffFields(tree, scope);
    var collected := CollectPackages(tree, scope);
    if collected.None? {
      return Err(Invalid);
    }
    var packages := collected.value;
    GraphClosed(tree, scope);
    var sorted := Graphs.LayeredSort(GraphOf(packages));
    if sorted.Err? {
      return Err(Cycle(sorted.error));
    }
    var names := sorted.value;
    assert forall i :: 0 <= i < |names| ==> names[i] in ToSet(names);
    var order := seq(|names|, i requires 0 <= i < |names| => packages[names[i]]);
    OrderIsPlan(tree, scope, names, order);
    return Ok(order);
  }
}
