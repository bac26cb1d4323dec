/**
 The development planner: the rewriting of native services so that one build
 precedes them all.
 */
module DevPlan {
  import opened Collections
  import opened Decimals
  import opened Services
  import opened CacheVolumes
  import opened Rebuild
  import Graphs

  datatype Compose = Compose(services: map<string, Service>, volumes: set<string>)

  datatype Reload = Off | Watch

  const NATIVE_BUILD := "forklaunch-native-build"

  // ----- Rewriting the native services -----

  function Components(path: string): seq<string> {
    Filter(Split(path, '/'), (part: string) => part != "" && part != ".")
  }

  /** The last component of a path; None for an empty path and for `..`. */
  function FileName(path: string): Option<string> {
    var parts := Components(path);
    if parts == [] || parts[|parts| - 1] == ".." then None else Some(parts[|parts| - 1])
  }

  function BinaryOf(service: Service): Option<string> {
    if service.command.None? || service.command.value == [] then None else FileName(service.command.value[0])
  }

  predicate Awaits(service: Service, name: string, condition: Condition) {
    service.dependsOn.Edges? && name in service.dependsOn.edges && service.dependsOn.edges[name] == condition
  }

  predicate OneShot(services: map<string, Service>, name: string)
    requires name in services
  {
    services[name].restart == "no"
    || exists n :: n in services && Awaits(services[n], name, Completed)
  }

  /** What the planner needs besides the Compose file. */
  datatype Setup = Setup(active: set<string>, native: map<string, string>, reload: Reload,
                         image: string, watchOptions: seq<string>, frameworkMounts: seq<Mount>)

  predicate IsNative(setup: Setup, services: map<string, Service>, name: string) {
    name in services && name in setup.active
    && BinaryOf(services[name]).Some? && BinaryOf(services[name]).value in setup.native
  }

  function Changed(setup: Setup, services: map<string, Service>): set<string> {
    set n | n in services && IsNative(setup, services, n)
  }

  predicate CustomEntrypoint(service: Service) {
    match service.entrypoint
    case Unset => false
    case Argv(args) => args != []
    case OtherForm => true
  }

  /** The planner refuses a native service that does not start a generated binary its own way. */
  predicate Plannable(setup: Setup, services: map<string, Service>, name: string)
    requires name in services
  {
    name in setup.active ==>
      if IsNative(setup, services, name) then !CustomEntrypoint(services[name]) else name !in setup.native
  }

  /**
   An active service that names a generated binary has no entrypoint of its own; one
   that names none is no generated one.
   */
  lemma PlannableIff(setup: Setup, services: map<string, Service>, name: string)
    requires name in services && name in setup.active
    ensures var service := services[name];
            Plannable(setup, services, name) <==>
              if service.command.Some? && service.command.value != []
                  && exists binary :: binary in setup.native && FileName(service.command.value[0]) == Some(binary)
              then service.entrypoint in {Unset, Argv([])}
              else name !in setup.native
  {
  }

  // ----- The one build of all native services -----

  /** What the planner works out first: the cache volumes, and the packages and binaries to build. */
  datatype Build = Build(target: string, registry: string, git: string, packages: seq<string>, binaries: seq<string>)

  function Caches(build: Build): seq<string> {
    [build.target, build.registry, build.git]
  }

  /** Package and binary of every native service. */
  function Selected(setup: Setup, services: map<string, Service>): set<(string, string)> {
    set n | n in services && IsNative(setup, services, n) ::
      (setup.native[BinaryOf(services[n]).value], BinaryOf(services[n]).value)
  }

  predicate PairLess(a: (string, string), b: (string, string)) {
    Less(a.0, b.0) || (a.0 == b.0 && Less(a.1, b.1))
  }

  lemma PairLessIsStrictTotal()
    ensures StrictTotal(PairLess)
  {
    LessIsStrictTotal();
    forall a: (string, string), b: (string, string) ensures PairLess(a, b) || a == b || PairLess(b, a) {
      assert Less(a.0, b.0) || a.0 == b.0 || Less(b.0, a.0);
      assert Less(a.1, b.1) || a.1 == b.1 || Less(b.1, a.1);
    }
  }

  function Packages(pairs: set<(string, string)>): set<string> {
    set pair | pair in pairs :: pair.0
  }

  function Binaries(pairs: seq<(string, string)>): seq<string> {
    seq(|pairs|, i requires 0 <= i < |pairs| => pairs[i].1)
  }

  /** The packages in order, and the binaries in the order of (package, binary). */
  ghost predicate IsSelection(setup: Setup, services: map<string, Service>, build: Build) {
    && SortedBy(build.packages, Less) && ToSet(build.packages) == Packages(Selected(setup, services))
    && exists pairs ::
         SortedBy(pairs, PairLess) && ToSet(pairs) == Selected(setup, services) && build.binaries == Binaries(pairs)
  }

  method Select(services: map<string, Service>, setup: Setup)
    returns (packages: seq<string>, pairs: seq<(string, string)>)
    ensures SortedBy(packages, Less) && ToSet(packages) == Packages(Selected(setup, services))
    ensures SortedBy(pairs, PairLess) && ToSet(pairs) == Selected(setup, services)
  {
    var selection: set<(string, string)> := {};
    var rest := services.Keys;
    while rest != {}
      invariant rest <= services.Keys
      invariant selection == set n | n in services && n !in rest && IsNative(setup, services, n) ::
                               (setup.native[BinaryOf(services[n]).value], BinaryOf(services[n]).value)
    {
      var name :| name in rest;
      rest := rest - {name};
      if name in setup.active {
        var binary := BinaryOf(services[name]);
        if binary.Some? && binary.value in setup.native {
          selection := selection + {(setup.native[binary.value], binary.value)};
        }
      }
    }
    packages := SortedNames(Packages(selection));
    PairLessIsStrictTotal();
    pairs := SortedSet(selection, PairLess);
  }

  function Command(build: Build): string {
    Join([BUILD] + Arguments(build.packages, build.binaries), " ")
  }

  /** The builder's arguments: the command again, cut at its spaces. */
  function RebuildArguments(build: Build): seq<string> {
    Split(Command(build), ' ')[1..]
  }

  function BuilderEntrypoint(setup: Setup, build: Build): seq<string> {
    if setup.reload == Off then ["sh", "-c", Command(build)]
    else ["watchexec"] + setup.watchOptions + ["--", "forklaunch-native-rebuild"] + RebuildArguments(build)
  }

  const RUN := "forklaunch-native-run"

  function NativeEntrypoint(setup: Setup, build: Build, oneShot: bool): seq<string> {
    match setup.reload
    case Off => ["sh", "-c", Command(build) + " && exec \"$@\"", "--"]
    case Watch => if oneShot then [RUN] else [RUN, "--watch"]
  }

  function Injected(setup: Setup, build: Build): seq<Mount>
  {
    [Mount("root", Some("/app")), Mount(build.target, Some("/app/target")),
     Mount(build.registry, Some("/usr/local/cargo/registry")), Mount(build.git, Some("/usr/local/cargo/git"))]
    + setup.frameworkMounts
  }

  function Environment(was: map<string, string>): map<string, string> {
    was["CARGO_TARGET_DIR" := "/app/target"]["SQLX_OFFLINE" := "true"]
  }

  /** A native service before it waits for the builder. */
  function Rewrite(setup: Setup, service: Service, binary: string, oneShot: bool, build: Build): Service
    requires service.command.Some? && service.command.value != []
  {
    service.(command := Some(service.command.value[0 := "/app/target/debug/" + binary]),
             entrypoint := Argv(NativeEntrypoint(setup, build, oneShot)),
             image := setup.image,
             volumes := InjectAll(service.volumes, Injected(setup, build)),
             environment := Environment(service.environment))
  }

  function BuilderCondition(setup: Setup): Condition {
    if setup.reload == Off then Completed else Healthy
  }

  /** The service waits for the builder; a `depends_on` that is not an object stays as it is. */
  function AwaitBuilder(setup: Setup, service: Service): Service {
    match service.dependsOn
    case Absent => service.(dependsOn := Edges(map[NATIVE_BUILD := BuilderCondition(setup)]))
    case Edges(edges) => service.(dependsOn := Edges(edges[NATIVE_BUILD := BuilderCondition(setup)]))
    case NotAnObject => service
  }

  function Builder(setup: Setup, build: Build): Service
  {
    Service(None,
            Argv(BuilderEntrypoint(setup, build)),
            Absent, if setup.reload == Off then "no" else "unless-stopped",
            setup.image, Injected(setup, build),
            map["CARGO_TARGET_DIR" := "/app/target", "SQLX_OFFLINE" := "true"], "")
  }

  function PlannedService(setup: Setup, services: map<string, Service>, name: string, build: Build): Service
    requires name in services
  {
    if IsNative(setup, services, name)
    then
      var binary := BinaryOf(services[name]).value;
      AwaitBuilder(setup, Rewrite(setup, services[name], binary, OneShot(services, name), build))
    else services[name]
  }

  /** The services of the planned file. */
  function PlannedServices(setup: Setup, services: map<string, Service>, build: Build): map<string, Service>
  {
    var rewritten := map n | n in services :: PlannedService(setup, services, n, build);
    if Changed(setup, services) == {} then rewritten else rewritten[NATIVE_BUILD := Builder(setup, build)]
  }

  /** Service `n` once the rewriting loop has passed it. */
  function Passed(setup: Setup, services: map<string, Service>, n: string, build: Build): Service
    requires n in services
  {
    if IsNative(setup, services, n)
    then Rewrite(setup, services[n], BinaryOf(services[n]).value, OneShot(services, n), build)
    else services[n]
  }

  /** Rewrites the native services one by one; fails on one the planner refuses. */
  method RewriteAll(original: map<string, Service>, setup: Setup, build: Build)
    returns (r: Option<map<string, Service>>, changes: set<string>)
    ensures r.Some? <==> forall n :: n in original ==> Plannable(setup, original, n)
    ensures r.Some? ==> r.value == map n | n in original :: Passed(setup, original, n, build)
    ensures r.Some? ==> changes == Changed(setup, original)
  {
    var services := original;
    var oneShots := set n | n in services && OneShot(services, n);
    changes := {};
    var rest := services.Keys;
    while rest != {}
      invariant rest <= original.Keys && services.Keys == original.Keys
      invariant forall n :: n in changes <==> n in original && n !in rest && IsNative(setup, original, n)
      invariant forall n :: n in original && n !in rest ==> Plannable(setup, original, n)
      invariant forall n :: n in original ==>
                services[n] == if n in rest then original[n] else Passed(setup, original, n, build)
    {
      var name :| name in rest;
      rest := rest - {name};
      if name in setup.active {
        var service := services[name];
        var binary := BinaryOf(service);
        if binary.None? || binary.value !in setup.native {
          if name in setup.native {
            return None, changes;
          }
        } else {
          if CustomEntrypoint(service) {
            return None, changes;
          }
          var volumes := MountAll(service.volumes, Injected(setup, build));
          var command := service.command.value[0 := "/app/target/debug/" + binary.value];
          service := service.(command := Some(command), image := setup.image, volumes := volumes,
                              entrypoint := Argv(NativeEntrypoint(setup, build, name in oneShots)),
                              environment := Environment(service.environment));
          services := services[name := service];
          changes := changes + {name};
        }
      }
    }
    r := Some(services);
  }

  /** Makes every changed service wait for the builder, and adds the builder. */
  method AddBuilder(rewritten: map<string, Service>, changes: set<string>, setup: Setup, build: Build)
    returns (services: map<string, Service>)
    requires changes <= rewritten.Keys
    ensures services
              == (map n | n in rewritten :: if n in changes then AwaitBuilder(setup, rewritten[n]) else rewritten[n])
                        [NATIVE_BUILD := Builder(setup, build)]
  {
    services := rewritten;
    var rest := changes;
    while rest != {}
      invariant rest <= changes && services.Keys == rewritten.Keys
      invariant forall n :: n in services ==>
                  services[n] == if n in changes && n !in rest then AwaitBuilder(setup, rewritten[n]) else rewritten[n]
    {
      var name :| name in rest;
      rest := rest - {name};
      services := services[name := AwaitBuilder(setup, services[name])];
    }
    services := services[NATIVE_BUILD := Builder(setup, build)];
  }

  lemma PlanAssembled(setup: Setup, original: map<string, Service>, build: Build, services: map<string, Service>)
    requires var passed := map n | n in original :: Passed(setup, original, n, build);
             var changes := Changed(setup, original);
             services == if changes == {} then passed
                         else (map n | n in passed ::
                                 if n in changes then AwaitBuilder(setup, passed[n]) else passed[n])
                              [NATIVE_BUILD := Builder(setup, build)]
    ensures services == PlannedServices(setup, original, build)
  {
    var planned := PlannedServices(setup, original, build);
    assert services.Keys == planned.Keys;
    forall n | n in planned ensures services[n] == planned[n] {
      if n in original && IsNative(setup, original, n) {
        assert n in Changed(setup, original);
      }
    }
  }

  lemma SelectedBinary(setup: Setup, services: map<string, Service>, pairs: seq<(string, string)>, b: string)
    requires ToSet(pairs) == Selected(setup, services)
    ensures b in Binaries(pairs) <==> exists n :: n in Changed(setup, services) && BinaryOf(services[n]) == Some(b)
    ensures b in Binaries(pairs) ==> b in setup.native
  {
    if b in Binaries(pairs) {
      var i :| 0 <= i < |pairs| && pairs[i].1 == b;
      assert pairs[i] in ToSet(pairs);
      var n :| n in services && IsNative(setup, services, n) && BinaryOf(services[n]).value == b;
      assert n in Changed(setup, services);
    }
    if n :| n in Changed(setup, services) && BinaryOf(services[n]) == Some(b) {
      assert (setup.native[b], b) in ToSet(pairs);
      var i :| 0 <= i < |pairs| && pairs[i] == (setup.native[b], b);
      assert Binaries(pairs)[i] == b;
    }
  }

  predicate PlainNames(setup: Setup) {
    && "--" !in setup.watchOptions
    && forall n :: n in setup.native ==> ' ' !in n && ' ' !in setup.native[n] && setup.native[n] != BIN
  }

  /** The command, cut at its spaces, is the build script with the packages and binaries. */
  lemma CommandWords(setup: Setup, services: map<string, Service>, build: Build)
    requires IsSelection(setup, services, build) && PlainNames(setup)
    ensures Split(Command(build), ' ') == [BUILD] + Arguments(build.packages, build.binaries)
    ensures BIN !in build.packages
  {
    var pairs :| SortedBy(pairs, PairLess) && ToSet(pairs) == Selected(setup, services)
        && build.binaries == Binaries(pairs);
    forall n | n in build.binaries ensures ' ' !in n {
      SelectedBinary(setup, services, pairs, n);
    }
    forall p | p in build.packages ensures ' ' !in p && p != BIN {
      assert p in ToSet(build.packages);
      var pair :| pair in Selected(setup, services) && pair.0 == p;
    }
    CommandSplits(build.packages, build.binaries);
  }

  /** The builder builds exactly the binaries of the rewritten services. */
  lemma BuilderBuildsTheNativeServices(setup: Setup, services: map<string, Service>, build: Build, b: string)
    requires IsSelection(setup, services, build) && PlainNames(setup)
    ensures b in Scan(RebuildArguments(build), "") <==>
              exists n :: n in Changed(setup, services) && BinaryOf(services[n]) == Some(b)
  {
    var pairs :| SortedBy(pairs, PairLess) && ToSet(pairs) == Selected(setup, services)
        && build.binaries == Binaries(pairs);
    CommandWords(setup, services, build);
    assert RebuildArguments(build) == Arguments(build.packages, build.binaries);
    SelectionRecovered(build.packages, build.binaries);
    assert b in Scan(RebuildArguments(build), "") <==> b in ToSet(build.binaries);
    SelectedBinary(setup, services, pairs, b);
  }

  /** The arguments name each package and each binary of a rewritten service, and nothing else. */
  lemma BuilderPackages(setup: Setup, services: map<string, Service>, build: Build, package: string)
    requires IsSelection(setup, services, build) && PlainNames(setup)
    ensures RebuildArguments(build) == Flagged("--package", build.packages) + Flagged("--bin", build.binaries)
    ensures package in build.packages <==>
              exists n :: n in services && IsNative(setup, services, n)
                && setup.native[BinaryOf(services[n]).value] == package
  {
    CommandWords(setup, services, build);
    assert package in build.packages <==> package in Packages(Selected(setup, services));
    if n :| n in services && IsNative(setup, services, n) && setup.native[BinaryOf(services[n]).value] == package {
      assert (package, BinaryOf(services[n]).value) in Selected(setup, services);
    }
  }

  /** The binaries of the services that are rewritten. */
  function NativeBinaries(setup: Setup, services: map<string, Service>): set<string> {
    set n | n in services && IsNative(setup, services, n) :: BinaryOf(services[n]).value
  }

  /** The builder watches and then rebuilds: behind its first `--` stands the rebuild script with these binaries. */
  predicate RebuildsExactly(args: seq<string>, dashes: nat, binaries: set<string>) {
    && dashes + 1 < |args| && "--" !in args[..dashes] && args[dashes] == "--"
    && args[0] == "watchexec" && args[dashes + 1] == "forklaunch-native-rebuild"
    && ToSet(Scan(args[dashes + 2..], "")) == binaries
  }

  /** The builder runs one shell command: the build script with these binaries. */
  predicate BuildsOnce(args: seq<string>, binaries: set<string>) {
    && |args| == 3 && args[0] == "sh" && args[1] == "-c"
    && Split(args[2], ' ')[0] == "forklaunch-native-build"
    && ToSet(Scan(Split(args[2], ' ')[1..], "")) == binaries
  }

  ghost predicate BuilderBuilds(setup: Setup, builder: Service, binaries: set<string>) {
    builder.entrypoint.Argv? &&
    match setup.reload
    case Off => BuildsOnce(builder.entrypoint.args, binaries)
    case Watch => exists dashes :: RebuildsExactly(builder.entrypoint.args, dashes, binaries)
  }

  lemma BuilderIsExact(setup: Setup, services: map<string, Service>, build: Build)
    requires IsSelection(setup, services, build) && PlainNames(setup)
    ensures BuilderBuilds(setup, Builder(setup, build), NativeBinaries(setup, services))
  {
    var arguments := RebuildArguments(build);
    forall b ensures b in Scan(arguments, "") <==> b in NativeBinaries(setup, services) {
      BuilderBuildsTheNativeServices(setup, services, build, b);
    }
    assert ToSet(Scan(arguments, "")) == NativeBinaries(setup, services);
    var args := BuilderEntrypoint(setup, build);
    if setup.reload == Watch {
      var dashes := 1 + |setup.watchOptions|;
      assert args[..dashes] == ["watchexec"] + setup.watchOptions && args[dashes + 2..] == arguments;
      assert RebuildsExactly(args, dashes, NativeBinaries(setup, services));
    } else {
      CommandWords(setup, services, build);
    }
  }

  /** Without reloads a rewritten service runs the builder's command and then, in its place, its own. */
  predicate BuildsThenExecs(builder: Service, service: Service) {
    && builder.entrypoint.Argv? && |builder.entrypoint.args| == 3
    && service.entrypoint == Argv(["sh", "-c", builder.entrypoint.args[2] + " && exec \"$@\"", "--"])
  }

  /**
   Rewrites the native services, then adds the builder, the edges to it and the
   cache volumes. Returns the new file and the changed services.
   */
  method PlanWith(compose: Compose, setup: Setup) returns (r: Option<(Compose, set<string>)>, ghost build: Build)
    ensures r.Some? <==> forall n :: n in compose.services ==> Plannable(setup, compose.services, n)
    ensures NoDuplicates(Caches(build)) && IsSelection(setup, compose.services, build)
    ensures forall i :: 0 <= i < 3 ==> FirstFree(Base(SUFFIXES[i]), compose.volumes, Caches(build)[i])
    ensures r.Some? ==> r.value.0.services == PlannedServices(setup, compose.services, build)
    ensures r.Some? ==> r.value.1 == Changed(setup, compose.services)
    ensures r.Some? && r.value.1 != {} ==> NATIVE_BUILD in r.value.0.services && r.value.1 <= r.value.0.services.Keys
    ensures r.Some? && r.value.1 != {} && PlainNames(setup) ==>
              BuilderBuilds(setup, r.value.0.services[NATIVE_BUILD], NativeBinaries(setup, compose.services))
    ensures r.Some? && setup.reload == Off ==> forall n :: n in r.value.1 && n != NATIVE_BUILD ==>
              BuildsThenExecs(r.value.0.services[NATIVE_BUILD], r.value.0.services[n])
    ensures r.Some? ==> r.value.0.volumes == compose.volumes + if r.value.1 == {} then {} else ToSet(Caches(build))
  {
    var caches := CacheNames(compose.volumes);
    var packages, pairs := Select(compose.services, setup);
    var made := Build(caches[0], caches[1], caches[2], packages, Binaries(pairs));
    build := made;
    assert Caches(build) == caches;
    var rewritten, changes := RewriteAll(compose.services, setup, made);
    if rewritten.None? {
      return None, build;
    }
    var services, volumes := rewritten.value, compose.volumes;
    if changes != {} {
      services := AddBuilder(services, changes, setup, made);
      volumes := volumes + ToSet(caches);
    }
    PlanAssembled(setup, compose.services, made, services);
    if PlainNames(setup) {
      BuilderIsExact(setup, compose.services, made);
    }
    return Some((Compose(services, volumes), changes)), build;
  }

  // ----- The start order stays sound -----

  lemma PlannedDependencies(setup: Setup, services: map<string, Service>, build: Build, n: string)
    requires n in services
    ensures DependenciesOf(PlannedService(setup, services, n, build)) <= DependenciesOf(services[n]) + {NATIVE_BUILD}
    ensures !IsNative(setup, services, n) ==> PlannedService(setup, services, n, build) == services[n]
  {
  }

  lemma BuilderHasNoDependencies(setup: Setup, services: map<string, Service>, build: Build, c: string)
    requires Changed(setup, services) != {}
    ensures !Graphs.Edge(DependsGraph(PlannedServices(setup, services, build)), NATIVE_BUILD, c)
  {
  }

  /** An edge of the plan whose target has dependencies itself was there before. */
  lemma EdgeOrigin(setup: Setup, services: map<string, Service>, build: Build, a: string, b: string, c: string)
    requires Graphs.Edge(DependsGraph(PlannedServices(setup, services, build)), a, b)
    requires Graphs.Edge(DependsGraph(PlannedServices(setup, services, build)), b, c)
    ensures Graphs.Edge(DependsGraph(services), a, b)
  {
    if Changed(setup, services) != {} {
      BuilderHasNoDependencies(setup, services, build, b);
      BuilderHasNoDependencies(setup, services, build, c);
    } else {
      assert !IsNative(setup, services, a) by {
        assert a !in Changed(setup, services);
      }
    }
    PlannedDependencies(setup, services, build, a);
  }

  /** Waiting for the builder closes no cycle: the builder itself waits for nothing. */
  lemma PlanStaysAcyclic(setup: Setup, services: map<string, Service>, build: Build)
    requires Graphs.Acyclic(DependsGraph(services))
    ensures Graphs.Acyclic(DependsGraph(PlannedServices(setup, services, build)))
  {
    var before := DependsGraph(services);
    var after := DependsGraph(PlannedServices(setup, services, build));
    forall w ensures !Graphs.ClosedWalk(after, w) {
      if Graphs.ClosedWalk(after, w) {
        forall i | 0 <= i < |w| - 1 ensures Graphs.Edge(before, w[i], w[i + 1]) {
          var next := if i + 1 < |w| - 1 then i + 1 else 0;
          assert Graphs.Edge(after, w[i], w[i + 1]);
          assert w[next] == w[i + 1] && Graphs.Edge(after, w[next], w[next + 1]);
          EdgeOrigin(setup, services, build, w[i], w[i + 1], w[next + 1]);
        }
        assert Graphs.ClosedWalk(before, w);
      }
    }
  }

  lemma AwaitsBuilder(setup: Setup, service: Service)
    ensures Awaits(AwaitBuilder(setup, service), NATIVE_BUILD, BuilderCondition(setup)) <==>
              !service.dependsOn.NotAnObject?
    ensures DependenciesOf(AwaitBuilder(setup, service)) - {NATIVE_BUILD} == DependenciesOf(service) - {NATIVE_BUILD}
  {
  }

  /** A rewritten service starts after the build exactly when its `depends_on` can take the edge. */
  lemma NativeServicesAwaitTheBuild(setup: Setup, services: map<string, Service>, build: Build, name: string)
    requires name in Changed(setup, services) && name != NATIVE_BUILD
    ensures var after := PlannedServices(setup, services, build);
            && NATIVE_BUILD in after && DependenciesOf(after[NATIVE_BUILD]) == {}
            && (Awaits(after[name], NATIVE_BUILD, if setup.reload == Watch then Healthy else Completed) <==>
                  !services[name].dependsOn.NotAnObject?)
            && DependenciesOf(after[name]) - {NATIVE_BUILD} == DependenciesOf(services[name]) - {NATIVE_BUILD}
  {
    var binary := BinaryOf(services[name]).value;
    AwaitsBuilder(setup, Rewrite(setup, services[name], binary, OneShot(services, name), build));
  }

  /** Where the source tree, the build output and Cargo's caches are mounted. */
  function SharedMounts(build: Build): seq<Mount> {
    [Mount("root", Some("/app")), Mount(build.target, Some("/app/target")),
     Mount(build.registry, Some("/usr/local/cargo/registry")), Mount(build.git, Some("/usr/local/cargo/git"))]
  }

  predicate NotShared(mount: Mount) {
    mount.target !in
      {Some("/app"), Some("/app/target"), Some("/usr/local/cargo/registry"), Some("/usr/local/cargo/git")}
  }

  lemma SharedMountsDiffer(setup: Setup, build: Build, k: nat, j: nat)
    requires k < 4 && j < |Injected(setup, build)|
    requires forall i :: 0 <= i < |setup.frameworkMounts| ==> NotShared(setup.frameworkMounts[i])
    ensures Injected(setup, build)[k] == SharedMounts(build)[k]
    ensures Injected(setup, build)[j].target == SharedMounts(build)[k].target <==> j == k
  {
    var injected := Injected(setup, build);
    if j < 4 {
      assert injected[j] == SharedMounts(build)[j];
    } else {
      assert injected[j] == setup.frameworkMounts[j - 4] && !NotShared(SharedMounts(build)[k]);
    }
  }

  /** A rewritten service in the plan is its rewriting, waiting for the builder. */
  lemma PlannedRewriting(setup: Setup, services: map<string, Service>, build: Build, name: string)
    requires name in Changed(setup, services) && name != NATIVE_BUILD
    ensures name in PlannedServices(setup, services, build)
    ensures PlannedServices(setup, services, build)[name]
            == AwaitBuilder(setup, Rewrite(setup, services[name], BinaryOf(services[name]).value,
                                           OneShot(services, name), build))
  {
  }

  lemma AwaitingChangesNothingElse(setup: Setup, service: Service)
    ensures AwaitBuilder(setup, service).(dependsOn := service.dependsOn) == service
  {
  }

  /** What the plan makes of the settings of a rewritten service. */
  lemma RewrittenSettings(setup: Setup, services: map<string, Service>, build: Build, name: string)
    requires name in Changed(setup, services) && name != NATIVE_BUILD
    ensures var was, after := services[name], PlannedServices(setup, services, build)[name];
            && after.volumes == InjectAll(was.volumes, Injected(setup, build)) && after.image == setup.image
            && after.environment == Environment(was.environment)
            && after.restart == was.restart && after.rest == was.rest
            && after.entrypoint == Argv(NativeEntrypoint(setup, build, OneShot(services, name)))
  {
    var rewritten := Rewrite(setup, services[name], BinaryOf(services[name]).value, OneShot(services, name), build);
    PlannedRewriting(setup, services, build, name);
    AwaitingChangesNothingElse(setup, rewritten);
  }

  /** Every rewritten service and the builder mount the source tree and the caches, each once. */
  lemma SharedWithTheBuilder(setup: Setup, services: map<string, Service>, build: Build, name: string, k: nat)
    requires Changed(setup, services) != {} && name in Changed(setup, services) + {NATIVE_BUILD} && k < 4
    requires forall i :: 0 <= i < |setup.frameworkMounts| ==> NotShared(setup.frameworkMounts[i])
    ensures Filter(PlannedServices(setup, services, build)[name].volumes, At(SharedMounts(build)[k].target))
            == [SharedMounts(build)[k]]
  {
    var injected := Injected(setup, build);
    forall j | 0 <= j < |injected|
      ensures injected[k] == SharedMounts(build)[k] && (injected[j].target == injected[k].target <==> j == k)
    {
      SharedMountsDiffer(setup, build, k, j);
    }
    if name == NATIVE_BUILD {
      FilterSingle(injected, At(injected[k].target), k);
    } else {
      RewrittenSettings(setup, services, build, name);
      InjectedOnce(services[name].volumes, injected, k);
    }
  }

  /** The rewritten services and the builder run in one image and build into the shared directory. */
  lemma SharedSettings(setup: Setup, services: map<string, Service>, build: Build, name: string)
    requires Changed(setup, services) != {} && name in Changed(setup, services) + {NATIVE_BUILD}
    ensures var after := PlannedServices(setup, services, build)[name];
            && after.image == setup.image
            && "CARGO_TARGET_DIR" in after.environment && after.environment["CARGO_TARGET_DIR"] == "/app/target"
            && "SQLX_OFFLINE" in after.environment && after.environment["SQLX_OFFLINE"] == "true"
  {
    if name != NATIVE_BUILD {
      RewrittenSettings(setup, services, build, name);
    }
  }

  /** A rewritten service keeps its other settings, its own environment and its own mounts in order. */
  lemma RewriteKeepsTheRest(setup: Setup, services: map<string, Service>, build: Build, name: string,
                            keep: Mount -> bool)
    requires name in Changed(setup, services) && name != NATIVE_BUILD
    requires forall v, i :: 0 <= i < |Injected(setup, build)| && keep(v) ==>
             v.target != Injected(setup, build)[i].target
    ensures var was, after := services[name], PlannedServices(setup, services, build)[name];
            && after.restart == was.restart && after.rest == was.rest
            && Filter(after.volumes, keep) == Filter(was.volumes, keep)
            && was.environment.Keys <= after.environment.Keys <= was.environment.Keys
                + {"CARGO_TARGET_DIR", "SQLX_OFFLINE"}
            && forall key :: key in was.environment && key !in {"CARGO_TARGET_DIR", "SQLX_OFFLINE"} ==>
                 after.environment[key] == was.environment[key]
  {
    RewrittenSettings(setup, services, build, name);
    OthersKeepOrder(services[name].volumes, Injected(setup, build), keep);
  }

  /** The builder is a one-shot job without reloads and stays up with them. */
  lemma BuilderRestarts(setup: Setup, services: map<string, Service>, build: Build)
    requires Changed(setup, services) != {}
    ensures PlannedServices(setup, services, build)[NATIVE_BUILD].restart
            == if setup.reload == Watch then "unless-stopped" else "no"
  {
  }

  /** The process restarts itself and is not expected to end. */
  predicate NeverExits(service: Service) {
    service.entrypoint == Argv([RUN, "--watch"])
    || (service.entrypoint.Argv? && |service.entrypoint.args| > 0 && service.entrypoint.args[0] == "watchexec")
  }

  /** Some service that is not rewritten waits for the builder's completion. */
  predicate ForeignWait(setup: Setup, services: map<string, Service>) {
    exists n :: n in services && n !in Changed(setup, services) && n != NATIVE_BUILD
        && Awaits(services[n], NATIVE_BUILD, Completed)
  }

  lemma AwaitedEnds(setup: Setup, services: map<string, Service>, build: Build, n: string, t: string)
    requires Changed(setup, services) != {}
    requires setup.reload == Off || !ForeignWait(setup, services)
    requires n in PlannedServices(setup, services, build) && t in Changed(setup, services) + {NATIVE_BUILD}
    requires Awaits(PlannedServices(setup, services, build)[n], t, Completed)
    ensures !NeverExits(PlannedServices(setup, services, build)[t])
  {
    if t != NATIVE_BUILD {
      assert n != NATIVE_BUILD && Awaits(services[n], t, Completed);
      assert OneShot(services, t);
    }
  }

  /**
   Among the processes the planner starts, none that never exits is awaited to
   complete, exactly when no untouched service already named the watching builder.
   */
  lemma CompletionAwaitedOnlyOfJobs(setup: Setup, services: map<string, Service>, build: Build)
    requires Changed(setup, services) != {}
    ensures var after := PlannedServices(setup, services, build);
            (forall n, t :: n in after && t in Changed(setup, services) + {NATIVE_BUILD}
                && Awaits(after[n], t, Completed)
               ==> !NeverExits(after[t]))
            <==> (setup.reload == Off || !ForeignWait(setup, services))
  {
    var after := PlannedServices(setup, services, build);
    if setup.reload == Off || !ForeignWait(setup, services) {
      forall n, t | n in after && t in Changed(setup, services) + {NATIVE_BUILD} && Awaits(after[n], t, Completed)
        ensures !NeverExits(after[t])
      {
        AwaitedEnds(setup, services, build, n, t);
      }
    } else {
      var n :| n in services && n !in Changed(setup, services) && n != NATIVE_BUILD
          && Awaits(services[n], NATIVE_BUILD, Completed);
      assert !IsNative(setup, services, n);
      assert n in after && after[n] == services[n] && NeverExits(after[NATIVE_BUILD]);
    }
  }

  /** Services outside the changes stay as they were, unless one of them has the builder's name. */
  lemma OthersUntouched(setup: Setup, services: map<string, Service>, build: Build, name: string)
    requires name in services && name !in Changed(setup, services)
    ensures name in PlannedServices(setup, services, build)
    ensures PlannedServices(setup, services, build)[name] == services[name]
            <==> (name != NATIVE_BUILD || Changed(setup, services) == {} || services[name] == Builder(setup, build))
  {
  }

  /** One-shot jobs run once: they never get the restarting entrypoint. */
  lemma OneShotsAreNotWatched(setup: Setup, services: map<string, Service>, build: Build, name: string)
    requires name in Changed(setup, services) && name != NATIVE_BUILD
    ensures NeverExits(PlannedServices(setup, services, build)[name]) <==>
              setup.reload == Watch && !OneShot(services, name)
    ensures setup.reload == Watch ==>
              PlannedServices(setup, services, build)[name].entrypoint == Argv(
                if services[name].restart == "no"
                   || exists n ::
                        n in services && services[n].dependsOn.Edges? && name in services[n].dependsOn.edges
                        && services[n].dependsOn.edges[name] == Completed
                then ["forklaunch-native-run"] else ["forklaunch-native-run", "--watch"])
  {
    RewrittenSettings(setup, services, build, name);
    assert OneShot(services, name) <==>
             services[name].restart == "no"
             || exists n ::
                  n in services && services[n].dependsOn.Edges? && name in services[n].dependsOn.edges
                  && services[n].dependsOn.edges[name] == Completed;
  }

  /** A path with one more part, or with a slash at its end. */
  lemma ComponentsBelow(root: string, name: string)
    requires '/' !in name
    ensures Components(root + "/" + name) == Components(root) + if name in {"", "."} then [] else [name]
  {
    SplitBelow(root, '/', name);
    assert root + "/" + name == root + ['/'] + name;
    FilterAppended(Split(root, '/'), name, (part: string) => part != "" && part != ".");
  }

  /** The file name is the last part of a path; a slash or a dot behind it changes nothing. */
  lemma FileNameEnds(directory: string, name: string)
    requires '/' !in name && name !in {"", "."}
    ensures var path := directory + "/" + name;
            FileName(path) == FileName(path + "/" + "") == FileName(path + "/" + ".")
            == if name == ".." then None else Some(name)
  {
    var path := directory + "/" + name;
    ComponentsBelow(directory, name);
    ComponentsBelow(path, "");
    ComponentsBelow(path, ".");
  }

  lemma FileNameIsAPart(path: string)
    requires FileName(path).Some?
    ensures '/' !in FileName(path).value && FileName(path).value !in {"", "."}
  {
    var parts := Components(path);
    var last := parts[|parts| - 1];
    FilterMembers(Split(path, '/'), (part: string) => part != "" && part != ".", last);
    SplitParts(path, '/', last);
  }

  /** A file name keeps its meaning below any directory. */
  lemma FileNameBelow(directory: string, path: string)
    requires FileName(path).Some?
    ensures FileName(directory + "/" + FileName(path).value) == FileName(path)
  {
    var name := FileName(path).value;
    FileNameIsAPart(path);
    SplitEndsWith(directory, '/', name);
    assert directory + "/" + name == directory + ['/'] + name;
    FilterEndsWith(Split(directory + "/" + name, '/'), (part: string) => part != "" && part != ".");
  }

  /** A rewritten service still runs the binary it named, from the build directory, with its own arguments. */
  lemma RewriteKeepsBinary(setup: Setup, service: Service, binary: string, oneShot: bool, build: Build)
    requires BinaryOf(service) == Some(binary)
    ensures BinaryOf(Rewrite(setup, service, binary, oneShot, build)) == Some(binary)
    ensures Rewrite(setup, service, binary, oneShot, build).command.value[1..] == service.command.value[1..]
  {
    FileNameBelow("/app/target/debug", service.command.value[0]);
    assert "/app/target/debug" + "/" + binary == "/app/target/debug/" + binary;
  }

  lemma RewrittenBinary(setup: Setup, services: map<string, Service>, build: Build, name: string)
    requires name in Changed(setup, services) && name != NATIVE_BUILD
    ensures BinaryOf(PlannedServices(setup, services, build)[name]) == BinaryOf(services[name])
  {
    var binary := BinaryOf(services[name]).value;
    var rewritten := Rewrite(setup, services[name], binary, OneShot(services, name), build);
    RewriteKeepsBinary(setup, services[name], binary, OneShot(services, name), build);
    PlannedRewriting(setup, services, build, name);
    AwaitingChangesNothingElse(setup, rewritten);
  }

  lemma PlannedBuilder(setup: Setup, services: map<string, Service>, build: Build)
    requires Changed(setup, services) != {}
    ensures PlannedServices(setup, services, build)[NATIVE_BUILD] == Builder(setup, build)
  {
  }

  /**
   The stamp a rewritten service waits for is one the planned builder's rebuild writes:
   it builds the service's binary.
   */
  lemma EveryNativeServiceIsBuilt(setup: Setup, services: map<string, Service>, build: Build, name: string)
    requires IsSelection(setup, services, build) && name in Changed(setup, services) && name != NATIVE_BUILD
    requires PlainNames(setup)
    ensures var after := PlannedServices(setup, services, build);
            && BuilderBuilds(setup, after[NATIVE_BUILD], NativeBinaries(setup, services))
            && BinaryOf(after[name]).Some? && BinaryOf(after[name]).value in NativeBinaries(setup, services)
  {
    RewrittenBinary(setup, services, build, name);
    PlannedBuilder(setup, services, build);
    BuilderIsExact(setup, services, build);
  }

  // ----- A service that waits for the builder by name -----

  function Plain(command: Option<seq<string>>, dependsOn: DependsOn): Service {
    Service(command, Unset, dependsOn, "unless-stopped", "image", [], map[], "")
  }

  /** One native service, a builder of the application's own, and a tool that waits for that builder to complete. */
  function NamesakeServices(): map<string, Service> {
    map["api" := Plain(Some(["api"]), Absent),
        NATIVE_BUILD := Plain(None, Absent),
        "tool" := Plain(None, Edges(map[NATIVE_BUILD := Completed]))]
  }

  lemma PlainName()
    ensures FileName("api") == Some("api")
  {
    IndexOfFirst("api", '/', "");
    assert Split("api", '/') == ["api"];
    FilterCons("api", [], (part: string) => part != "" && part != ".");
    assert ["api"] == ["api"] + [];
  }

  function NamesakeSetup(image: string): Setup {
    Setup({"api", "tool"}, map["api" := "api"], Watch, image, [], [])
  }

  lemma NamesakePlannable(image: string)
    ensures forall n :: n in NamesakeServices() ==> Plannable(NamesakeSetup(image), NamesakeServices(), n)
    ensures IsNative(NamesakeSetup(image), NamesakeServices(), "api")
    ensures !IsNative(NamesakeSetup(image), NamesakeServices(), "tool")
  {
    PlainName();
  }

  /** In watch mode the plan keeps the tool waiting for a process that never exits. */
  lemma NamesakeBuilderNeverCompletes(build: Build, image: string)
    ensures var after := PlannedServices(NamesakeSetup(image), NamesakeServices(), build);
            Awaits(after["tool"], NATIVE_BUILD, Completed) && NeverExits(after[NATIVE_BUILD])
  {
    NamesakePlannable(image);
    assert "api" in Changed(NamesakeSetup(image), NamesakeServices());
  }
}
