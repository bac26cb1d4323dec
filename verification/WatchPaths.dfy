/**
 The reload builder's watch list: source paths are added in front of the
 builder's own command.
 */
module WatchPaths {
  import opened Collections
  import opened Decimals
  import opened Services
  import opened DevPlan

  /** `path` lies at or below `root`, component by component. */
  predicate StartsWith(path: string, root: string) {
    && ("/" <= path <==> "/" <= root)
    && Components(root) <= Components(path)
  }

  /** The path is the root followed by further components. */
  lemma StartsWithIff(path: string, root: string)
    ensures StartsWith(path, root) <==>
              && (path != "" && path[0] == '/' <==> root != "" && root[0] == '/')
              && exists below :: Components(path) == Components(root) + below
  {
    if Components(root) <= Components(path) {
      assert Components(path) == Components(root) + Components(path)[|Components(root)|..];
    }
    assert "/" <= path <==> path != "" && path[0] == '/';
    assert "/" <= root <==> root != "" && root[0] == '/';
  }

  /** A directory covers what lies below it, and not the other way round. */
  lemma OnlyCoversBelow(root: string, name: string)
    requires '/' !in name && name !in {"", "."} && root != ""
    ensures StartsWith(root + "/" + name, root) && !StartsWith(root, root + "/" + name)
  {
    var path := root + "/" + name;
    ComponentsBelow(root, name);
    assert Components(root) + [name] == Components(path);
    assert path[0] == root[0];
    StartsWithIff(path, root);
  }

  predicate Covers(entrypoint: seq<string>, target: string) {
    exists i :: 0 <= i < |entrypoint| - 1 && entrypoint[i] == "-w" && StartsWith(target, entrypoint[i + 1])
  }

  /** Where the builder's own command starts. */
  function Separator(entrypoint: seq<string>): (k: nat)
    ensures k <= |entrypoint| && "--" !in entrypoint[..k] && (k < |entrypoint| ==> entrypoint[k] == "--")
  {
    if entrypoint == [] || entrypoint[0] == "--" then 0
    else
      assert forall k | 0 <= k <= |entrypoint[1..]| :: entrypoint[..k + 1] == [entrypoint[0]] + entrypoint[1..][..k];
      1 + Separator(entrypoint[1..])
  }

  /** The entrypoint with `target` watched: a new `-w` pair in front of the builder's command. */
  function Watching(entrypoint: seq<string>, target: string): seq<string> {
    if Covers(entrypoint, target) then entrypoint
    else entrypoint[..Separator(entrypoint)] + ["-w", target] + entrypoint[Separator(entrypoint)..]
  }

  /** The reload builder's entrypoint, extended in place. */
  class WatchList {
    var entrypoint: seq<string>

    constructor (entrypoint: seq<string>)
      ensures this.entrypoint == entrypoint
    {
      this.entrypoint := entrypoint;
    }

    /** Watches `target` too, unless a watched path covers it; false when there is no reload builder. */
    method WatchNativePath(target: string) returns (builder: bool)
      modifies this
      ensures builder <==> |old(entrypoint)| > 0 && old(entrypoint)[0] == "watchexec"
      ensures entrypoint == if builder then Watching(old(entrypoint), target) else old(entrypoint)
    {
      if entrypoint == [] || entrypoint[0] != "watchexec" {
        return false;
      }
      var watched := false;
      for i := 0 to |entrypoint| - 1
        invariant entrypoint == old(entrypoint)
        invariant watched <==> exists k :: 0 <= k < i && entrypoint[k] == "-w" && StartsWith(target, entrypoint[k + 1])
      {
        if entrypoint[i] == "-w" && StartsWith(target, entrypoint[i + 1]) {
          watched := true;
        }
      }
      if !watched {
        var separator := Separator(entrypoint);
        entrypoint := entrypoint[..separator] + [target] + entrypoint[separator..];
        entrypoint := entrypoint[..separator] + ["-w"] + entrypoint[separator..];
      }
      return true;
    }
  }

  function WatchingAll(entrypoint: seq<string>, targets: seq<string>): seq<string>
    decreases |targets|
  {
    if targets == [] then entrypoint else WatchingAll(Watching(entrypoint, targets[0]), targets[1..])
  }

  lemma SeparatorAt(e: seq<string>, k: nat)
    requires k <= |e| && "--" !in e[..k] && (k < |e| ==> e[k] == "--")
    ensures Separator(e) == k
  {
    var j := Separator(e);
    assert forall i :: 0 <= i < j ==> e[..j][i] == e[i];
    assert forall i :: 0 <= i < k ==> e[..k][i] == e[i];
  }

  ghost predicate Absolute(path: string) {
    "/" <= path
  }

  /** The command behind the separator stays, at most the target is added in front of it; it is covered from now on. */
  lemma WatchingKeepsCommand(e: seq<string>, target: string)
    requires Absolute(target)
    ensures Watching(e, target)[Separator(Watching(e, target))..] == e[Separator(e)..]
    ensures Watching(e, target)[..Separator(Watching(e, target))]
            == e[..Separator(e)] + if Covers(e, target) then [] else ["-w", target]
    ensures Covers(Watching(e, target), target)
    ensures Watching(Watching(e, target), target) == Watching(e, target)
  {
    var k := Separator(e);
    assert e[..k] + [] == e[..k];
    var added := e[..k] + ["-w", target] + e[k..];
    assert added[..k + 2] == e[..k] + ["-w", target] && added[k + 2..] == e[k..];
    assert target[0] == '/' && "--"[0] == '-';
    assert forall i :: 0 <= i < k ==> e[..k][i] != "--";
    SeparatorAt(added, k + 2);
    assert added[k] == "-w" && added[k + 1] == target;
  }

  lemma CoverSurvives(e: seq<string>, target: string, other: string)
    requires Absolute(other) && Covers(e, other)
    ensures Covers(Watching(e, target), other)
  {
    var k := Separator(e);
    var after := Watching(e, target);
    var i :| 0 <= i < |e| - 1 && e[i] == "-w" && StartsWith(other, e[i + 1]);
    assert e[i + 1] != "--";
    if !Covers(e, target) {
      var j := if i < k then i else i + 2;
      assert after[j] == e[i] && after[j + 1] == e[i + 1];
    }
  }

  /** After any sequence of calls: same command, every requested path covered, nothing left to add. */
  lemma {:induction false} WatchingAllCovers(e: seq<string>, targets: seq<string>)
    requires forall t :: t in targets ==> Absolute(t)
    ensures var after := WatchingAll(e, targets);
            && after[Separator(after)..] == e[Separator(e)..]
            && (forall t :: t in targets ==> Covers(after, t))
            && (forall t :: Absolute(t) && Covers(e, t) ==> Covers(after, t))
    decreases |targets|
  {
    if targets != [] {
      var next := Watching(e, targets[0]);
      WatchingKeepsCommand(e, targets[0]);
      WatchingAllCovers(next, targets[1..]);
      forall t | Absolute(t) && Covers(e, t) ensures Covers(next, t) {
        CoverSurvives(e, targets[0], t);
      }
      assert targets == [targets[0]] + targets[1..];
    }
  }

  lemma {:induction false} NothingLeftToWatch(e: seq<string>, targets: seq<string>)
    requires forall t :: t in targets ==> Covers(e, t)
    ensures WatchingAll(e, targets) == e
    decreases |targets|
  {
    if targets != [] {
      NothingLeftToWatch(e, targets[1..]);
    }
  }

  lemma WatchingAllIdempotent(e: seq<string>, targets: seq<string>)
    requires forall t :: t in targets ==> Absolute(t)
    ensures WatchingAll(WatchingAll(e, targets), targets) == WatchingAll(e, targets)
  {
    WatchingAllCovers(e, targets);
    NothingLeftToWatch(WatchingAll(e, targets), targets);
  }
}
