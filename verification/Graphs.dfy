/**
 Dependency graphs: walks, cycles, and the layered topological sort that
 orders a release.
 */
module Graphs {
  import opened Collections

  /** The direct dependencies of every node. */
  type Graph = map<string, set<string>>

  ghost predicate Closed(g: Graph) {
    forall n :: n in g ==> g[n] <= g.Keys
  }

  predicate Edge(g: Graph, a: string, b: string) {
    a in g && b in g[a]
  }

  ghost predicate Walk(g: Graph, w: seq<string>) {
    |w| > 0 && forall i :: 0 <= i < |w| - 1 ==> Edge(g, w[i], w[i + 1])
  }

  /** Some chain of dependencies leaves `n` and comes back to a node it has visited. */
  ghost predicate ReachesCycle(g: Graph, n: string) {
    exists w, i :: Walk(g, w) && w[0] == n && 0 <= i < |w| - 1 && w[i] == w[|w| - 1]
  }

  ghost predicate ClosedWalk(g: Graph, w: seq<string>) {
    Walk(g, w) && |w| >= 2 && w[0] == w[|w| - 1]
  }

  ghost predicate Acyclic(g: Graph) {
    forall w :: !ClosedWalk(g, w)
  }

  /** A chain of `k` dependencies starts at `n`. */
  ghost predicate Deep(g: Graph, n: string, k: nat) {
    exists w :: Walk(g, w) && w[0] == n && |w| == k + 1
  }

  /** The longest chain of dependencies that starts at `n` has `h` steps. */
  ghost predicate HasHeight(g: Graph, n: string, h: nat) {
    Deep(g, n, h) && !Deep(g, n, h + 1)
  }

  /** Release order: shorter dependency chains first, names break ties. */
  ghost predicate Before(g: Graph, a: string, b: string) {
    exists i: nat, j: nat ::
      HasHeight(g, a, i) && HasHeight(g, b, j) && (i < j || (i == j && Less(a, b)))
  }

  /** `order` lists every node once, strictly increasing in (longest chain, name). */
  ghost predicate IsLayeredOrder(g: Graph, order: seq<string>) {
    && ToSet(order) == g.Keys
    && (forall n :: n in order ==> exists h: nat :: HasHeight(g, n, h))
    && SortedBy(order, (a, b) => Before(g, a, b))
  }

  // ----- Depth -----

  lemma DeepZero(g: Graph, n: string)
    ensures Deep(g, n, 0)
  {
    assert Walk(g, [n]);
  }

  lemma DeepStep(g: Graph, n: string, k: nat)
    ensures Deep(g, n, k + 1) <==> exists d :: Edge(g, n, d) && Deep(g, d, k)
  {
    if Deep(g, n, k + 1) {
      var w :| Walk(g, w) && w[0] == n && |w| == k + 2;
      assert Edge(g, w[0], w[1]);
      assert Walk(g, w[1..]) by {
        forall i | 0 <= i < |w[1..]| - 1 ensures Edge(g, w[1..][i], w[1..][i + 1]) {
          assert Edge(g, w[i + 1], w[i + 2]);
        }
      }
      assert Deep(g, w[1], k);
    }
    if d :| Edge(g, n, d) && Deep(g, d, k) {
      var w :| Walk(g, w) && w[0] == d && |w| == k + 1;
      assert Walk(g, [n] + w);
    }
  }

  lemma DeepDown(g: Graph, n: string, j: nat, k: nat)
    requires Deep(g, n, k) && j <= k
    ensures Deep(g, n, j)
  {
    var w :| Walk(g, w) && w[0] == n && |w| == k + 1;
    assert Walk(g, w[..j + 1]);
  }

  lemma HeightUnique(g: Graph, n: string, i: nat, j: nat)
    requires HasHeight(g, n, i) && HasHeight(g, n, j)
    ensures i == j
  {
    if i < j {
      DeepDown(g, n, i + 1, j);
    } else if j < i {
      DeepDown(g, n, j + 1, i);
    }
  }

  lemma {:induction false} CycleIsDeep(g: Graph, w: seq<string>, back: nat, at: nat, k: nat)
    requires Walk(g, w) && back < |w| - 1 && w[back] == w[|w| - 1] && at < |w| - 1
    ensures Deep(g, w[at], k)
    decreases k
  {
    if k == 0 {
      DeepZero(g, w[at]);
    } else {
      CycleIsDeep(g, w, back, if at + 1 == |w| - 1 then back else at + 1, k - 1);
      assert Edge(g, w[at], w[at + 1]);
      DeepStep(g, w[at], k - 1);
    }
  }

  lemma WalkStaysInside(g: Graph, w: seq<string>)
    requires Closed(g) && Walk(g, w) && w[0] in g
    ensures ToSet(w) <= g.Keys
  {
    forall i | 0 <= i < |w| ensures w[i] in g {
      if i > 0 {
        assert Edge(g, w[i - 1], w[i]);
      }
    }
  }

  /** A chain longer than the graph repeats a node. */
  lemma LongChainsCycle(g: Graph, n: string)
    requires Closed(g) && n in g
    requires Deep(g, n, |g|)
    ensures ReachesCycle(g, n)
  {
    var w :| Walk(g, w) && w[0] == n && |w| == |g| + 1;
    WalkStaysInside(g, w);
    assert |g.Keys| == |g|;
    Pigeonhole(w, g.Keys);
    var i, j :| 0 <= i < j < |w| && w[i] == w[j];
    var v := w[..j + 1];
    assert Walk(g, v) && v[0] == n && v[i] == v[|v| - 1];
  }

  /** Chains of every length start at `n` exactly when `n` reaches a cycle. */
  lemma CycleReachedByAllDepths(g: Graph, n: string, k: nat)
    requires ReachesCycle(g, n)
    ensures Deep(g, n, k) && n in g
  {
    var w, i :| Walk(g, w) && w[0] == n && 0 <= i < |w| - 1 && w[i] == w[|w| - 1];
    CycleIsDeep(g, w, i, 0, k);
    assert Edge(g, w[0], w[1]);
  }

  lemma CyclicIffReached(g: Graph)
    ensures Acyclic(g) <==> forall n :: n in g ==> !ReachesCycle(g, n)
  {
    if n :| n in g && ReachesCycle(g, n) {
      var w, i :| Walk(g, w) && w[0] == n && 0 <= i < |w| - 1 && w[i] == w[|w| - 1];
      var v := w[i..];
      forall j | 0 <= j < |v| - 1 ensures Edge(g, v[j], v[j + 1]) {
        assert Edge(g, w[i + j], w[i + j + 1]);
      }
      assert ClosedWalk(g, v);
    }
    if !Acyclic(g) {
      var w :| ClosedWalk(g, w);
      assert Edge(g, w[0], w[1]);
      assert Walk(g, w) && w[0] == w[0] && 0 <= 0 < |w| - 1 && w[0] == w[|w| - 1];
      assert ReachesCycle(g, w[0]);
    }
  }

  // ----- The layered order is determined by the graph -----

  lemma BeforeAsymmetric(g: Graph, a: string, b: string)
    requires Before(g, a, b)
    ensures !Before(g, b, a)
  {
    if Before(g, b, a) {
      var i: nat, j: nat :| HasHeight(g, a, i) && HasHeight(g, b, j) && (i < j || (i == j && Less(a, b)));
      var j': nat, i': nat :| HasHeight(g, b, j') && HasHeight(g, a, i') && (j' < i' || (j' == i' && Less(b, a)));
      HeightUnique(g, a, i, i');
      HeightUnique(g, b, j, j');
      LessTransitive(a, b, a);
      LessIrreflexive(a);
    }
  }

  lemma LayeredOrderUnique(g: Graph, a: seq<string>, b: seq<string>)
    requires IsLayeredOrder(g, a) && IsLayeredOrder(g, b)
    ensures a == b
  {
    forall x, y | Before(g, x, y) ensures !Before(g, y, x) {
      BeforeAsymmetric(g, x, y);
    }
    StrictOrderUnique(a, b, (x, y) => Before(g, x, y));
  }

  lemma DependenciesAreBefore(g: Graph, n: string, d: string, i: nat, j: nat)
    requires Edge(g, n, d) && HasHeight(g, n, i) && HasHeight(g, d, j)
    ensures j < i
  {
    DeepStep(g, n, j);
    if i <= j {
      DeepDown(g, n, i + 1, j + 1);
    }
  }

  lemma LayeredOrderMeansAcyclic(g: Graph, order: seq<string>)
    requires IsLayeredOrder(g, order)
    ensures Acyclic(g)
  {
    forall n | n in g ensures !ReachesCycle(g, n) {
      assert n in ToSet(order);
      var h: nat :| HasHeight(g, n, h);
      if ReachesCycle(g, n) {
        CycleReachedByAllDepths(g, n, h + 1);
      }
    }
    CyclicIffReached(g);
  }

  /** In a layered order nothing is listed twice and every dependency is listed earlier. */
  lemma LayeredOrderIsTopological(g: Graph, order: seq<string>)
    requires Closed(g) && IsLayeredOrder(g, order)
    ensures NoDuplicates(order)
    ensures forall i, d :: 0 <= i < |order| && Edge(g, order[i], d) ==> d in order[..i]
  {
    forall i, j | 0 <= i < j < |order| ensures order[i] != order[j] {
      BeforeAsymmetric(g, order[i], order[j]);
    }
    forall i, d | 0 <= i < |order| && Edge(g, order[i], d) ensures d in order[..i] {
      assert d in ToSet(order);
      var j :| 0 <= j < |order| && order[j] == d;
      if i < j {
        assert Before(g, order[i], d);
        var hi: nat, hd: nat :| HasHeight(g, order[i], hi) && HasHeight(g, d, hd)
            && (hi < hd || (hi == hd && Less(order[i], d)));
        DependenciesAreBefore(g, order[i], d, hi, hd);
      } else if i == j {
        var h: nat :| HasHeight(g, d, h);
        DependenciesAreBefore(g, d, d, h, h);
      }
      assert order[..i][j] == d;
    }
  }

  // ----- The algorithm -----

  /** What is left after `k` layers: the nodes with a chain of `k` steps, and their unplaced dependencies. */
  ghost predicate Remaining(g: Graph, k: nat, pending: Graph) {
    && (forall n :: n in pending <==> n in g && Deep(g, n, k))
    && (forall n :: n in pending ==> pending[n] == g[n] * pending.Keys)
  }

  ghost predicate Placed(g: Graph, k: nat, order: seq<string>) {
    && (forall n :: n in order ==> exists h: nat :: h < k && HasHeight(g, n, h))
    && SortedBy(order, (a, b) => Before(g, a, b))
  }

  function Ready(pending: Graph): set<string> {
    set n | n in pending && pending[n] == {}
  }

  function Remove(pending: Graph, ready: set<string>): Graph {
    map n | n in pending && n !in ready :: pending[n] - ready
  }

  lemma ReadyIsALayer(g: Graph, k: nat, pending: Graph, n: string)
    requires Closed(g) && Remaining(g, k, pending) && n in pending
    ensures n in Ready(pending) <==> HasHeight(g, n, k)
  {
    DeepStep(g, n, k);
    if Deep(g, n, k + 1) {
      var d :| Edge(g, n, d) && Deep(g, d, k);
      assert d in pending[n];
    } else if d :| d in pending[n] {
      assert Edge(g, n, d) && Deep(g, d, k);
    }
  }

  lemma LayerRemoved(g: Graph, k: nat, pending: Graph)
    requires Closed(g) && Remaining(g, k, pending)
    ensures Remaining(g, k + 1, Remove(pending, Ready(pending)))
  {
    var next := Remove(pending, Ready(pending));
    forall n ensures n in next <==> n in g && Deep(g, n, k + 1) {
      if n in pending {
        ReadyIsALayer(g, k, pending, n);
      } else if n in g && Deep(g, n, k + 1) {
        DeepDown(g, n, k, k + 1);
      }
    }
  }

  lemma LayerPair(g: Graph, k: nat, order: seq<string>, ready: seq<string>, i: nat, j: nat)
    requires Placed(g, k, order)
    requires SortedBy(ready, Less) && forall n :: n in ready ==> HasHeight(g, n, k)
    requires i < j < |order + ready|
    ensures Before(g, (order + ready)[i], (order + ready)[j])
  {
    if j < |order| {
      assert Before(g, order[i], order[j]);
    } else {
      var b := ready[j - |order|];
      assert HasHeight(g, b, k);
      if i < |order| {
        assert order[i] in order;
        var h: nat :| h < k && HasHeight(g, order[i], h);
        assert Before(g, order[i], b);
      } else {
        var a := ready[i - |order|];
        assert HasHeight(g, a, k) && Less(a, b);
        assert Before(g, a, b);
      }
    }
  }

  lemma LayerHeights(g: Graph, k: nat, order: seq<string>, ready: seq<string>, n: string)
    requires Placed(g, k, order)
    requires forall n :: n in ready ==> HasHeight(g, n, k)
    requires n in order + ready
    ensures exists h: nat :: h < k + 1 && HasHeight(g, n, h)
  {
    if n in order {
      var h: nat :| h < k && HasHeight(g, n, h);
      assert h < k + 1;
    } else {
      assert n in ready && k < k + 1;
    }
  }

  lemma LayerAppends(g: Graph, k: nat, order: seq<string>, ready: seq<string>)
    requires Placed(g, k, order)
    requires SortedBy(ready, Less) && forall n :: n in ready ==> HasHeight(g, n, k)
    ensures Placed(g, k + 1, order + ready)
  {
    forall i, j | 0 <= i < j < |order + ready| ensures Before(g, (order + ready)[i], (order + ready)[j]) {
      LayerPair(g, k, order, ready, i, j);
    }
    forall n | n in order + ready ensures exists h: nat :: h < k + 1 && HasHeight(g, n, h) {
      LayerHeights(g, k, order, ready, n);
    }
  }

  /** When no node is ready, every remaining node starts chains of any length. */
  lemma {:induction false} StuckIsDeep(g: Graph, k: nat, pending: Graph, n: string, m: nat)
    requires Closed(g) && Remaining(g, k, pending) && Ready(pending) == {}
    requires n in pending
    ensures Deep(g, n, k + m)
    decreases m
  {
    if m > 0 {
      assert n !in Ready(pending);
      var d :| d in pending[n];
      StuckIsDeep(g, k, pending, d, m - 1);
      assert Edge(g, n, d);
      DeepStep(g, n, k + m - 1);
    }
  }

  lemma StuckMeansCyclic(g: Graph, k: nat, pending: Graph)
    requires Closed(g) && Remaining(g, k, pending) && Ready(pending) == {}
    ensures forall n :: n in pending <==> n in g && ReachesCycle(g, n)
  {
    forall n ensures n in pending <==> n in g && ReachesCycle(g, n) {
      if n in pending {
        StuckIsDeep(g, k, pending, n, |g|);
        DeepDown(g, n, |g|, k + |g|);
        LongChainsCycle(g, n);
      } else if ReachesCycle(g, n) {
        CycleReachedByAllDepths(g, n, k);
      }
    }
  }

  lemma SmallerKeys(a: Graph, b: Graph)
    requires a.Keys < b.Keys
    ensures |a| < |b|
  {
    assert |b.Keys| == |a.Keys| + |b.Keys - a.Keys|;
    assert |a.Keys| == |a| && |b.Keys| == |b|;
  }

  /** One turn of the loop: the ready nodes, in name order, make the next layer. */
  lemma LayerPlaced(g: Graph, k: nat, pending: Graph, order: seq<string>, ready: seq<string>)
    requires Closed(g) && Remaining(g, k, pending) && Placed(g, k, order)
    requires ToSet(order) == g.Keys - pending.Keys
    requires SortedBy(ready, Less) && ToSet(ready) == Ready(pending) && ready != []
    ensures Placed(g, k + 1, order + ready)
    ensures Remaining(g, k + 1, Remove(pending, Ready(pending)))
    ensures ToSet(order + ready) == g.Keys - Remove(pending, Ready(pending)).Keys
    ensures |Remove(pending, Ready(pending))| < |pending|
  {
    forall n | n in ready ensures HasHeight(g, n, k) {
      assert n in ToSet(ready);
      ReadyIsALayer(g, k, pending, n);
    }
    LayerAppends(g, k, order, ready);
    LayerRemoved(g, k, pending);
    assert ToSet(order + ready) == ToSet(order) + ToSet(ready);
    assert pending.Keys <= g.Keys;
    assert ready[0] in ToSet(ready);
    SmallerKeys(Remove(pending, Ready(pending)), pending);
  }

  lemma NothingLeftMeansAcyclic(g: Graph, k: nat)
    requires Remaining(g, k, map[])
    ensures Acyclic(g)
  {
    var left: Graph := map[];
    forall n | n in g ensures !ReachesCycle(g, n) {
      assert n in left <==> Deep(g, n, k);
      if ReachesCycle(g, n) {
        CycleReachedByAllDepths(g, n, k);
      }
    }
    CyclicIffReached(g);
  }

  lemma StuckSet(g: Graph, k: nat, pending: Graph)
    requires Closed(g) && Remaining(g, k, pending) && Ready(pending) == {} && pending != map[]
    ensures pending.Keys == set n | n in g && ReachesCycle(g, n)
    ensures !Acyclic(g)
  {
    StuckMeansCyclic(g, k, pending);
    CyclicIffReached(g);
    var some :| some in pending;
  }

  lemma PlacedEverything(g: Graph, k: nat, order: seq<string>)
    requires Placed(g, k, order) && ToSet(order) == g.Keys
    ensures IsLayeredOrder(g, order)
  {
    forall n | n in order ensures exists h: nat :: HasHeight(g, n, h) {
      var h: nat :| h < k && HasHeight(g, n, h);
    }
  }

  /**
   Repeatedly takes the nodes with no dependency left, in name order. Fails with
   the nodes that reach a cycle, exactly when there is one.
   */
  method LayeredSort(g: Graph) returns (r: Result<seq<string>, set<string>>)
    requires Closed(g)
    ensures r.Ok? <==> Acyclic(g)
    ensures r.Ok? ==> IsLayeredOrder(g, r.value)
    ensures r.Err? ==> r.error == set n | n in g && ReachesCycle(g, n)
  {
    var pending := g;
    var order := [];
    ghost var k := 0;
    assert Remaining(g, 0, g) by {
      forall n ensures Deep(g, n, 0) { DeepZero(g, n); }
    }
    while pending != map[]
      invariant Remaining(g, k, pending) && Placed(g, k, order)
      invariant ToSet(order) == g.Keys - pending.Keys
      decreases |pending|
    {
      var ready := SortedNames(Ready(pending));
      EmptySet(ready);
      if ready == [] {
        StuckSet(g, k, pending);
        return Err(pending.Keys);
      }
      LayerPlaced(g, k, pending, order, ready);
      order := order + ready;
      pending := Remove(pending, Ready(pending));
      k := k + 1;
    }
    NothingLeftMeansAcyclic(g, k);
    PlacedEverything(g, k, order);
    return Ok(order);
  }
}
