/**
 The cache volumes of the native build: fresh names for them, and their place
 among the mounts a service already has.
 */
module CacheVolumes {
  import opened Collections
  import opened Decimals
  import opened Services

  // ----- Names for the cache volumes -----

  function Candidate(base: string, index: nat): string {
    if index == 0 then base else base + "-" + Decimal(index)
  }

  lemma CandidatesDiffer(base: string, i: nat, j: nat)
    requires Candidate(base, i) == Candidate(base, j)
    ensures i == j
  {
    var a, b := Candidate(base, i), Candidate(base, j);
    assert i > 0 ==> |a| > |base| && a[|base| + 1..] == Decimal(i);
    assert j > 0 ==> |b| > |base| && b[|base| + 1..] == Decimal(j);
  }

  /** The candidates with an index below `k`. */
  function Tried(base: string, k: nat): set<string> {
    set i | 0 <= i < k :: Candidate(base, i)
  }

  lemma TriedGrows(base: string, k: nat, taken: set<string>)
    requires Tried(base, k) <= taken && Candidate(base, k) in taken
    ensures Tried(base, k + 1) <= taken
    ensures |taken - Tried(base, k + 1)| < |taken - Tried(base, k)|
  {
    if Candidate(base, k) in Tried(base, k) {
      var i :| 0 <= i < k && Candidate(base, k) == Candidate(base, i);
      CandidatesDiffer(base, i, k);
    }
    assert Tried(base, k + 1) == Tried(base, k) + {Candidate(base, k)};
    assert |taken - Tried(base, k)| == |taken - Tried(base, k + 1)| + |{Candidate(base, k)}| by {
      assert taken - Tried(base, k) == (taken - Tried(base, k + 1)) + {Candidate(base, k)};
    }
  }

  /** The first of base, base-1, base-2, ... that is not taken. */
  method FreeName(base: string, taken: set<string>) returns (name: string, ghost index: nat)
    ensures name == Candidate(base, index) && name !in taken
    ensures forall i :: 0 <= i < index ==> Candidate(base, i) in taken
  {
    name := base;
    var k := 0;
    while name in taken
      invariant name == Candidate(base, k) && Tried(base, k) <= taken
      decreases |taken - Tried(base, k)|
    {
      TriedGrows(base, k, taken);
      k := k + 1;
      name := base + "-" + Decimal(k);
    }
    index := k;
    forall i | 0 <= i < k ensures Candidate(base, i) in taken {
      assert Candidate(base, i) in Tried(base, k);
    }
  }

  const SUFFIXES := ["target", "registry", "git"]

  function Base(suffix: string): string {
    "forklaunch-native-" + suffix
  }

  /** The first candidate for `base` that is not taken. */
  ghost predicate FirstFree(base: string, taken: set<string>, name: string) {
    name !in taken
    && exists index: nat :: name == Candidate(base, index) && forall i :: 0 <= i < index ==> Candidate(base, i) in taken
  }

  /** Three cache volumes nobody declared yet, each the first free name of its kind. */
  method CacheNames(taken: set<string>) returns (names: seq<string>)
    ensures |names| == 3 && NoDuplicates(names)
    ensures forall i :: 0 <= i < 3 ==> FirstFree(Base(SUFFIXES[i]), taken, names[i])
  {
    names := [];
    for s := 0 to 3
      invariant |names| == s
      invariant forall i :: 0 <= i < s ==>
                FirstFree(Base(SUFFIXES[i]), taken, names[i]) && Base(SUFFIXES[i]) <= names[i]
    {
      var name, _ := FreeName(Base(SUFFIXES[s]), taken);
      names := names + [name];
    }
    forall i, j | 0 <= i < j < 3 ensures names[i] != names[j] {
      assert Base(SUFFIXES[i])[18] != Base(SUFFIXES[j])[18];
      assert names[i][18] == Base(SUFFIXES[i])[18] && names[j][18] == Base(SUFFIXES[j])[18];
    }
  }

  // ----- Mounts -----

  function Replace(volumes: seq<Mount>, mount: Mount): seq<Mount> {
    Filter(volumes, (v: Mount) => v.target != mount.target) + [mount]
  }

  function InjectAll(volumes: seq<Mount>, injected: seq<Mount>): seq<Mount> {
    if injected == [] then volumes
    else Replace(InjectAll(volumes, injected[..|injected| - 1]), injected[|injected| - 1])
  }

  function At(target: Option<string>): Mount -> bool {
    (v: Mount) => v.target == target
  }

  lemma {:induction false} FilterAppend(a: seq<Mount>, b: seq<Mount>, keep: Mount -> bool)
    ensures Filter(a + b, keep) == Filter(a, keep) + Filter(b, keep)
  {
    if a == [] {
      assert a + b == b;
    } else {
      assert (a + b)[1..] == a[1..] + b;
      FilterAppend(a[1..], b, keep);
    }
  }

  lemma {:induction false} FilterImplied(a: seq<Mount>, p: Mount -> bool, q: Mount -> bool)
    requires forall v :: q(v) ==> p(v)
    ensures Filter(Filter(a, p), q) == Filter(a, q)
  {
    if a != [] {
      FilterImplied(a[1..], p, q);
      FilterCons(a[0], Filter(a[1..], p), q);
    }
  }

  lemma {:induction false} FilterExcluded(a: seq<Mount>, p: Mount -> bool, q: Mount -> bool)
    requires forall v :: p(v) ==> !q(v)
    ensures Filter(Filter(a, p), q) == []
  {
    if a != [] {
      FilterExcluded(a[1..], p, q);
      FilterCons(a[0], Filter(a[1..], p), q);
    }
  }

  /** An injected target ends up mounted exactly once, by the last mount injected there. */
  lemma {:induction false} InjectedOnce(volumes: seq<Mount>, injected: seq<Mount>, k: nat)
    requires k < |injected|
    requires forall j :: k < j < |injected| ==> injected[j].target != injected[k].target
    ensures Filter(InjectAll(volumes, injected), At(injected[k].target)) == [injected[k]]
  {
    var n := |injected| - 1;
    var last := injected[n];
    var before := InjectAll(volumes, injected[..n]);
    var keep := At(injected[k].target);
    var other := (v: Mount) => v.target != last.target;
    FilterAppend(Filter(before, other), [last], keep);
    assert [last][1..] == [];
    if k < n {
      FilterImplied(before, other, keep);
      InjectedOnce(volumes, injected[..n], k);
    } else {
      FilterExcluded(before, other, keep);
    }
  }

  /** Every other mount stays, in order. */
  lemma {:induction false} OthersKeepOrder(volumes: seq<Mount>, injected: seq<Mount>, keep: Mount -> bool)
    requires forall v, k :: 0 <= k < |injected| && keep(v) ==> v.target != injected[k].target
    ensures Filter(InjectAll(volumes, injected), keep) == Filter(volumes, keep)
  {
    if injected != [] {
      var n := |injected| - 1;
      var last := injected[n];
      var before := InjectAll(volumes, injected[..n]);
      var other := (v: Mount) => v.target != last.target;
      assert forall k :: 0 <= k < n ==> injected[..n][k] == injected[k];
      OthersKeepOrder(volumes, injected[..n], keep);
      FilterAppend(Filter(before, other), [last], keep);
      FilterImplied(before, other, keep);
      assert [last][1..] == [];
    }
  }

  method MountAll(volumes: seq<Mount>, injected: seq<Mount>) returns (r: seq<Mount>)
    ensures r == InjectAll(volumes, injected)
  {
    r := volumes;
    for i := 0 to |injected|
      invariant r == InjectAll(volumes, injected[..i])
    {
      var mount := injected[i];
      assert injected[..i + 1][..i] == injected[..i];
      r := Filter(r, (v: Mount) => v.target != mount.target);
      r := r + [mount];
    }
    assert injected[..|injected|] == injected;
  }
}
