/**
 Compose services as the development planner reads them, and the services that
 take part in a run: the selection and everything it depends on.
 */
module Services {
  import opened Collections
  import Graphs

  datatype Condition = Started | Healthy | Completed

  datatype DependsOn = Absent | Edges(edges: map<string, Condition>) | NotAnObject

  datatype Entrypoint = Unset | Argv(args: seq<string>) | OtherForm

  datatype Mount = Mount(source: string, target: Option<string>)

  /** A Compose service; `rest` stands for the settings the planner leaves alone. */
  datatype Service = Service(command: Option<seq<string>>, entrypoint: Entrypoint, dependsOn: DependsOn,
                             restart: string, image: string, volumes: seq<Mount>,
                             environment: map<string, string>, rest: string)

  // ----- The services that take part -----

  function DependenciesOf(service: Service): set<string> {
    if service.dependsOn.Edges? then service.dependsOn.edges.Keys else {}
  }

  function DependsGraph(services: map<string, Service>): Graphs.Graph {
    map n | n in services :: DependenciesOf(services[n])
  }

  /** A chain of `depends_on` leads from a start to `n`. */
  ghost predicate Reachable(g: Graphs.Graph, starts: set<string>, n: string) {
    exists w :: Graphs.Walk(g, w) && w[0] in starts && w[|w| - 1] == n
  }

  ghost predicate ClosedUnder(g: Graphs.Graph, active: set<string>) {
    forall n :: n in active && n in g ==> g[n] <= active
  }

  /** Whatever an active service waits for, under any condition, is active. */
  ghost predicate AwaitsOnly(services: map<string, Service>, active: set<string>) {
    forall n, d :: n in active && n in services && services[n].dependsOn.Edges? && d in services[n].dependsOn.edges ==>
      d in active
  }

  lemma {:induction false} ClosedContainsWalk(g: Graphs.Graph, active: set<string>, w: seq<string>)
    requires ClosedUnder(g, active) && Graphs.Walk(g, w) && w[0] in active
    ensures w[|w| - 1] in active
  {
    if |w| > 1 {
      var k := |w| - 2;
      assert Graphs.Walk(g, w[..k + 1]);
      ClosedContainsWalk(g, active, w[..k + 1]);
      assert Graphs.Edge(g, w[k], w[k + 1]);
    }
  }

  lemma ReachableStep(g: Graphs.Graph, starts: set<string>, n: string, d: string)
    requires Reachable(g, starts, n) && Graphs.Edge(g, n, d)
    ensures Reachable(g, starts, d)
  {
    var w :| Graphs.Walk(g, w) && w[0] in starts && w[|w| - 1] == n;
    var v := w + [d];
    forall i | 0 <= i < |v| - 1 ensures Graphs.Edge(g, v[i], v[i + 1]) {
      if i < |w| - 1 {
        assert Graphs.Edge(g, w[i], w[i + 1]);
      }
    }
    assert Graphs.Walk(g, v) && v[0] in starts && v[|v| - 1] == d;
  }

  lemma StartsReachable(g: Graphs.Graph, starts: set<string>, n: string)
    requires n in starts
    ensures Reachable(g, starts, n)
  {
    var w := [n];
    assert Graphs.Walk(g, w) && w[0] in starts && w[|w| - 1] == n;
  }

  /** `active` holds exactly the names reachable from `starts`. */
  ghost predicate IsReachableSet(g: Graphs.Graph, starts: set<string>, active: set<string>) {
    forall n :: n in active <==> Reachable(g, starts, n)
  }

  /** The reachable names are the least set that holds the starts and is closed under `depends_on`. */
  lemma ReachableIsLeastClosed(g: Graphs.Graph, starts: set<string>, reached: set<string>, other: set<string>)
    requires IsReachableSet(g, starts, reached)
    ensures starts <= reached && ClosedUnder(g, reached)
    ensures starts <= other && ClosedUnder(g, other) ==> reached <= other
  {
    forall n | n in starts ensures n in reached { StartsReachable(g, starts, n); }
    forall n, d | n in reached && n in g && d in g[n] ensures d in reached { ReachableStep(g, starts, n, d); }
    if starts <= other && ClosedUnder(g, other) {
      forall n | n in reached ensures n in other {
        var w :| Graphs.Walk(g, w) && w[0] in starts && w[|w| - 1] == n;
        ClosedContainsWalk(g, other, w);
      }
    }
  }

  ghost predicate AllReachable(g: Graphs.Graph, starts: set<string>, active: set<string>) {
    forall n :: n in active ==> Reachable(g, starts, n)
  }

  lemma DependenciesReachable(services: map<string, Service>, starts: set<string>, active: set<string>, name: string)
    requires AllReachable(DependsGraph(services), starts, active) && name in active && name in services
    ensures AllReachable(DependsGraph(services), starts, active + DependenciesOf(services[name]))
  {
    var g := DependsGraph(services);
    forall d | d in DependenciesOf(services[name]) ensures Reachable(g, starts, d) {
      assert Graphs.Edge(g, name, d);
      ReachableStep(g, starts, name, d);
    }
  }

  ghost function Names(services: map<string, Service>): set<string> {
    services.Keys + set n, d | n in services && d in DependenciesOf(services[n]) :: d
  }

  /** One pass over the active names, adding what each depends on. */
  method AddDependencies(services: map<string, Service>, before: set<string>, ghost starts: set<string>)
    returns (active: set<string>)
    requires before <= Names(services) && AllReachable(DependsGraph(services), starts, before)
    ensures before <= active <= Names(services)
    ensures AllReachable(DependsGraph(services), starts, active)
    ensures forall n :: n in before && n in services ==> DependenciesOf(services[n]) <= active
  {
    active := before;
    var rest := before;
    while rest != {}
      invariant rest <= before <= active <= Names(services)
      invariant AllReachable(DependsGraph(services), starts, active)
      invariant forall n :: n in before && n !in rest && n in services ==> DependenciesOf(services[n]) <= active
    {
      var name :| name in rest;
      rest := rest - {name};
      if name in services {
        DependenciesReachable(services, starts, active, name);
        active := active + DependenciesOf(services[name]);
      }
    }
  }

  lemma ClosedAndReachable(g: Graphs.Graph, starts: set<string>, active: set<string>)
    requires starts <= active && ClosedUnder(g, active) && AllReachable(g, starts, active)
    ensures IsReachableSet(g, starts, active)
  {
    forall n | Reachable(g, starts, n) ensures n in active {
      var w :| Graphs.Walk(g, w) && w[0] in starts && w[|w| - 1] == n;
      ClosedContainsWalk(g, active, w);
    }
  }

  lemma ClosedMeansAwaited(services: map<string, Service>, active: set<string>)
    requires ClosedUnder(DependsGraph(services), active)
    ensures AwaitsOnly(services, active)
  {
    forall n, d | n in active && n in services && services[n].dependsOn.Edges? && d in services[n].dependsOn.edges
      ensures d in active
    {
      assert d in DependsGraph(services)[n];
    }
  }

  lemma ClosedMeansReachable(services: map<string, Service>, starts: set<string>, active: set<string>)
    requires starts <= active && AllReachable(DependsGraph(services), starts, active)
    requires forall n :: n in active && n in services ==> DependenciesOf(services[n]) <= active
    ensures IsReachableSet(DependsGraph(services), starts, active) && AwaitsOnly(services, active)
  {
    assert ClosedUnder(DependsGraph(services), active);
    ClosedAndReachable(DependsGraph(services), starts, active);
    ClosedMeansAwaited(services, active);
  }

  lemma SameSize(a: set<string>, b: set<string>)
    requires a <= b && |a| == |b|
    ensures a == b
  {
    assert |b| == |a| + |b - a|;
  }

  lemma GrowthShrinksRest(universe: set<string>, before: set<string>, active: set<string>)
    requires before <= active <= universe && |active| != |before|
    ensures |universe - active| < |universe - before|
  {
    assert |universe| == |universe - active| + |active|;
    assert |universe| == |universe - before| + |before|;
    assert |active| == |before| + |active - before|;
  }

  /**
   The selected services (all of them without a selection) and, on request,
   everything they depend on. Fails exactly when a selected name is unknown.
   */
  method ActiveServices(services: map<string, Service>, selected: seq<string>, dependencies: bool)
    returns (r: Result<set<string>, string>)
    ensures r.Ok? <==> ToSet(selected) <= services.Keys
    ensures r.Err? ==> r.error in selected && r.error !in services
    ensures r.Ok? && !dependencies ==> r.value == if selected == [] then services.Keys else ToSet(selected)
    ensures r.Ok? && dependencies ==>
              IsReachableSet(DependsGraph(services), if selected == [] then services.Keys else ToSet(selected), r.value)
    ensures r.Ok? && dependencies ==> AwaitsOnly(services, r.value)
  {
    for i := 0 to |selected|
      invariant forall k :: 0 <= k < i ==> selected[k] in services
    {
      if selected[i] !in services {
        assert selected[i] in ToSet(selected);
        return Err(selected[i]);
      }
    }
    var active := if selected == [] then services.Keys else ToSet(selected);
    if !dependencies {
      return Ok(active);
    }

    ghost var starts := active;
    forall n | n in active ensures Reachable(DependsGraph(services), starts, n) {
      StartsReachable(DependsGraph(services), starts, n);
    }
    while true
      invariant starts <= active <= Names(services)
      invariant AllReachable(DependsGraph(services), starts, active)
      decreases |Names(services) - active|
    {
      var before := active;
      active := AddDependencies(services, before, starts);
      if |active| == |before| {
        SameSize(before, active);
        break;
      }
      GrowthShrinksRest(Names(services), before, active);
    }
    ClosedMeansReachable(services, starts, active);
    return Ok(active);
  }
}
