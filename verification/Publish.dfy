/**
 Publishing a prepared release: a resumable run of check, upload, wait and
 verify steps against an append-only registry whose index lags behind the
 uploads it has accepted. One publisher runs at a time; it may stop between any
 two steps and be started again, for either scope.
 */
module Publish {
  import opened Collections
  import opened ReleasePlan
  import Archives

  /** One package of the release report: its plan entry and its archive. */
  datatype Item = Item(planned: Planned, package: Archives.Package) {
    function Release(): ReleasePlan.Release {
      ReleasePlan.Release(planned.name, planned.version)
    }
  }

  /** A release directory with its report. */
  datatype Prepared = Prepared(directory: Archives.Path, disk: Archives.Disk, items: seq<Item>)

  /** What the registry keeps of an upload: the archive and the exact releases it depends on. */
  datatype Entry = Entry(archive: Archives.Published, needs: set<Release>)

  datatype Receipt = Receipt(release: Release, registrySha256: Archives.Digest, reused: bool)

  datatype Progress = Progress(receipts: seq<Receipt>, complete: bool)

  datatype Phase = Checking | Uploading | Waiting | Verifying(reused: bool)

  datatype Run = Idle | Running(release: Prepared, at: nat, phase: Phase, receipts: seq<Receipt>)

  /**
   The registry (`accepted` uploads, the part of them the index shows, yanked
   versions), the publisher's run, the receipt file of every release directory,
   and three logs: accepted uploads, refused uploads, and index checks that
   missed an upload the registry had already accepted.
   */
  datatype World = World(accepted: map<Release, Entry>, visible: set<Release>, yanked: set<Release>, run: Run,
                         progress: map<Prepared, Progress>,
                         uploads: seq<Release>, refusals: seq<Release>, missed: seq<Release>)

  // ----- Plans as lists of items -----

  function PlanOf(items: seq<Item>): seq<Planned> {
    seq(|items|, i requires 0 <= i < |items| => items[i].planned)
  }

  /** The exact releases item `i` depends on: siblings at their planned version, and external pins. */
  function Needs(items: seq<Item>, i: nat): set<Release>
    requires i < |items|
  {
    (set j | 0 <= j < |items| && items[j].planned.name in items[i].planned.dependencies :: items[j].Release())
    + items[i].planned.external
  }

  function Externals(items: seq<Item>): set<Release> {
    set i, e | 0 <= i < |items| && e in items[i].planned.external :: e
  }

  ghost predicate ItemBefore(items: seq<Item>, i: nat, x: string)
    requires i <= |items|
  {
    exists j :: 0 <= j < i && items[j].planned.name == x
  }

  /** The names differ, and every dependency is an earlier item. */
  ghost predicate Ordered(items: seq<Item>) {
    && (forall i, j :: 0 <= i < j < |items| ==> items[i].planned.name != items[j].planned.name)
    && (forall i, x :: 0 <= i < |items| && x in items[i].planned.dependencies ==> ItemBefore(items, i, x))
  }

  lemma TopologicalItems(items: seq<Item>)
    requires NoDuplicates(Names(PlanOf(items)))
    requires forall i, x :: 0 <= i < |PlanOf(items)| && x in PlanOf(items)[i].dependencies
              ==> exists j :: 0 <= j < i && PlanOf(items)[j].name == x
    ensures Ordered(items)
  {
    var plan := PlanOf(items);
    forall i, j | 0 <= i < j < |items| ensures items[i].planned.name != items[j].planned.name {
      assert Names(plan)[i] != Names(plan)[j];
    }
    forall i, x | 0 <= i < |items| && x in items[i].planned.dependencies ensures ItemBefore(items, i, x) {
      assert plan[i] == items[i].planned;
      var k :| 0 <= k < i && plan[k].name == x;
      assert items[k].planned.name == x;
    }
  }

  lemma PlannedItemsOrdered(tree: Tree, scope: Scope, items: seq<Item>)
    requires IsPlan(tree, scope, PlanOf(items))
    ensures Ordered(items)
  {
    PlanIsInDependencyOrder(tree, scope, PlanOf(items));
    TopologicalItems(items);
  }

  // ----- The steps of a run -----

  /** What the publication preflight establishes before the first step. */
  ghost predicate CanStart(w: World, p: Prepared) {
    && (exists tree, scope :: IsPlan(tree, scope, PlanOf(p.items)))
    && Externals(p.items) <= w.visible
    && forall i :: 0 <= i < |p.items| ==> Archives.Accepted(p.disk, p.directory, p.items[i].package)
  }

  function Start(w: World, p: Prepared): World {
    w.(run := Running(p, 0, Checking, []))
  }

  predicate At(w: World, phase: Phase) {
    w.run.Running? && w.run.at < |w.run.release.items| && w.run.phase == phase
  }

  function Current(w: World): Release
    requires w.run.Running? && w.run.at < |w.run.release.items|
  {
    w.run.release.items[w.run.at].Release()
  }

  /** Any way a run ends: an error, a crash, or the end of the plan. */
  function Stopped(w: World): World {
    w.(run := Idle)
  }

  /** The index shows the version: verify it (or refuse a yanked one); otherwise upload. */
  function Check(w: World): World
    requires At(w, Checking)
  {
    var r := Current(w);
    if r in w.visible then
      if r in w.yanked then Stopped(w) else w.(run := w.run.(phase := Verifying(true)))
    else
      w.(run := w.run.(phase := Uploading), missed := if r in w.accepted then w.missed + [r] else w.missed)
  }

  /** What the registry keeps of the current package. */
  function NewEntry(w: World, bytes: Archives.Bytes): Entry
    requires w.run.Running? && w.run.at < |w.run.release.items|
  {
    Entry(Archives.Published(Archives.Sha256(bytes), bytes), Needs(w.run.release.items, w.run.at))
  }

  /** The registry accepts a new version for good and refuses a second upload of it. */
  function Upload(w: World, bytes: Archives.Bytes): World
    requires At(w, Uploading)
  {
    var r := Current(w);
    if r in w.accepted then Stopped(w).(refusals := w.refusals + [r])
    else
      w.(run := w.run.(phase := Waiting),
         accepted := w.accepted[r := NewEntry(w, bytes)],
         uploads := w.uploads + [r])
  }

  /** One look at the index while waiting. */
  function Poll(w: World): World
    requires At(w, Waiting)
  {
    var r := Current(w);
    if r !in w.visible then w
    else if r in w.yanked then Stopped(w)
    else w.(run := w.run.(phase := Verifying(false)))
  }

  /** Compare the registry's archive with the prepared one; on success write the receipt file. */
  function Verify(w: World, reused: bool): World
    requires At(w, Verifying(reused)) && Current(w) in w.accepted
  {
    var p, k := w.run.release, w.run.at;
    var entry := w.accepted[Current(w)];
    if !Archives.MatchesPublished(p.disk, p.directory, p.items[k].package, entry.archive) then Stopped(w)
    else
      var receipts := w.run.receipts + [Receipt(Current(w), entry.archive.cksum, reused)];
      w.(run := Running(p, k + 1, Checking, receipts),
         progress := w.progress[p := Progress(receipts, |receipts| == |p.items|)])
  }

  /** The index only catches up; it never shows what the registry has not accepted. */
  predicate CatchesUp(w: World, w': World) {
    w.visible <= w'.visible <= w.accepted.Keys && w' == w.(visible := w'.visible)
  }

  ghost predicate Next(w: World, w': World) {
    || (w.run.Idle? && exists p :: CanStart(w, p) && w' == Start(w, p))
    || (At(w, Checking) && w' == Check(w))
    || (At(w, Uploading) && exists bytes :: w' == Upload(w, bytes))
    || (At(w, Waiting) && w' == Poll(w))
    || (exists reused :: At(w, Verifying(reused)) && Current(w) in w.accepted && w' == Verify(w, reused))
    || w' == Stopped(w)
    || CatchesUp(w, w')
    || w' == w.(yanked := w'.yanked)
  }

  // ----- What holds in every reachable state -----

  /** A published crate's dependencies are published, at the versions it pins. */
  ghost predicate DependencyClosed(accepted: map<Release, Entry>) {
    forall r :: r in accepted ==> accepted[r].needs <= accepted.Keys
  }

  ghost predicate Receipted(w: World, p: Prepared, k: nat, receipt: Receipt)
    requires k < |p.items|
  {
    && receipt.release == p.items[k].Release()
    && receipt.release in w.visible && receipt.release in w.accepted
    && receipt.registrySha256 == w.accepted[receipt.release].archive.cksum
    && Archives.MatchesPublished(p.disk, p.directory, p.items[k].package, w.accepted[receipt.release].archive)
  }

  /** The receipts are verified packages of the plan, in order, and `complete` says whether they are all of them. */
  ghost predicate Truthful(w: World, p: Prepared, progress: Progress) {
    && 0 < |progress.receipts| <= |p.items|
    && (progress.complete <==> |progress.receipts| == |p.items|)
    && forall k :: 0 <= k < |progress.receipts| ==> Receipted(w, p, k, progress.receipts[k])
  }

  ghost predicate RunOk(w: World) {
    w.run.Running? ==>
      var p := w.run.release;
      && w.run.at <= |p.items|
      && Ordered(p.items)
      && Externals(p.items) <= w.visible
      && |w.run.receipts| == w.run.at
      && (forall k :: 0 <= k < w.run.at ==> Receipted(w, p, k, w.run.receipts[k]))
      && (w.run.at > 0 ==> p in w.progress && w.progress[p] == Progress(w.run.receipts, w.run.at == |p.items|))
      && (w.run.phase.Uploading? && w.run.at < |p.items| && Current(w) in w.accepted ==> Current(w) in w.missed)
      && (w.run.phase.Verifying? && w.run.at < |p.items| ==> Current(w) in w.visible)
  }

  ghost predicate Invariant(w: World) {
    && w.visible <= w.accepted.Keys
    && DependencyClosed(w.accepted)
    && NoDuplicates(w.uploads) && ToSet(w.uploads) <= w.accepted.Keys
    && ToSet(w.refusals) <= ToSet(w.missed)
    && RunOk(w)
    && forall p :: p in w.progress ==> Truthful(w, p, w.progress[p])
  }

  ghost predicate Init(w: World) {
    && w.visible <= w.accepted.Keys && DependencyClosed(w.accepted)
    && w.run.Idle? && w.progress == map[] && w.uploads == [] && w.refusals == [] && w.missed == []
  }

  /** The registry grows: what it accepted stays as it was, what the index showed stays shown. */
  ghost predicate Grows(w: World, w': World) {
    && w.visible <= w'.visible
    && forall r :: r in w.accepted ==> r in w'.accepted && w'.accepted[r] == w.accepted[r]
  }

  lemma ReceiptsSurvive(w: World, w': World, p: Prepared, progress: Progress)
    requires Grows(w, w') && Truthful(w, p, progress)
    ensures Truthful(w', p, progress)
  {
    forall k | 0 <= k < |progress.receipts| ensures Receipted(w', p, k, progress.receipts[k]) {
      assert Receipted(w, p, k, progress.receipts[k]);
    }
  }

  lemma ProgressSurvives(w: World, w': World)
    requires Invariant(w) && Grows(w, w') && w'.progress == w.progress
    ensures forall p :: p in w'.progress ==> Truthful(w', p, w'.progress[p])
  {
    forall p | p in w'.progress ensures Truthful(w', p, w'.progress[p]) {
      ReceiptsSurvive(w, w', p, w.progress[p]);
    }
  }

  lemma RunReceiptsSurvive(w: World, w': World)
    requires w.run.Running? && RunOk(w) && Grows(w, w')
    ensures forall k :: 0 <= k < w.run.at ==> Receipted(w', w.run.release, k, w.run.receipts[k])
  {
    forall k | 0 <= k < w.run.at ensures Receipted(w', w.run.release, k, w.run.receipts[k]) {
      assert Receipted(w, w.run.release, k, w.run.receipts[k]);
    }
  }

  lemma StartKeeps(w: World, p: Prepared)
    requires Invariant(w) && CanStart(w, p)
    ensures Invariant(Start(w, p)) && Grows(w, Start(w, p))
  {
    var tree, scope :| IsPlan(tree, scope, PlanOf(p.items));
    PlannedItemsOrdered(tree, scope, p.items);
    ProgressSurvives(w, Start(w, p));
  }

  lemma StopKeeps(w: World)
    requires Invariant(w)
    ensures Invariant(Stopped(w)) && Grows(w, Stopped(w))
  {
    ProgressSurvives(w, Stopped(w));
  }

  lemma CheckKeeps(w: World)
    requires Invariant(w) && At(w, Checking)
    ensures Invariant(Check(w)) && Grows(w, Check(w))
  {
    ProgressSurvives(w, Check(w));
    RunReceiptsSurvive(w, Check(w));
  }

  lemma PollKeeps(w: World)
    requires Invariant(w) && At(w, Waiting)
    ensures Invariant(Poll(w)) && Grows(w, Poll(w))
  {
    ProgressSurvives(w, Poll(w));
    RunReceiptsSurvive(w, Poll(w));
  }

  /** When item `k` is uploaded, everything it needs has been seen in the index. */
  lemma NeedsAreVisible(w: World)
    requires Invariant(w) && w.run.Running? && w.run.at < |w.run.release.items|
    ensures Needs(w.run.release.items, w.run.at) <= w.visible
  {
    var items, k := w.run.release.items, w.run.at;
    forall r | r in Needs(items, k) ensures r in w.visible {
      if r in items[k].planned.external {
        assert r in Externals(items);
      } else {
        var j :| 0 <= j < |items| && items[j].planned.name in items[k].planned.dependencies && items[j].Release() == r;
        assert ItemBefore(items, k, items[j].planned.name);
        assert Receipted(w, w.run.release, j, w.run.receipts[j]);
      }
    }
  }

  lemma UploadKeeps(w: World, bytes: Archives.Bytes)
    requires Invariant(w) && At(w, Uploading)
    ensures Invariant(Upload(w, bytes)) && Grows(w, Upload(w, bytes))
  {
    var w' := Upload(w, bytes);
    NeedsAreVisible(w);
    ProgressSurvives(w, w');
    RunReceiptsSurvive(w, w');
    if Current(w) !in w.accepted {
      assert Current(w) !in ToSet(w.uploads);
      assert ToSet(w'.uploads) == ToSet(w.uploads) + {Current(w)};
    } else {
      assert ToSet(w'.refusals) == ToSet(w.refusals) + {Current(w)};
    }
  }

  lemma VerifyKeeps(w: World, reused: bool)
    requires Invariant(w) && At(w, Verifying(reused)) && Current(w) in w.accepted
    ensures Invariant(Verify(w, reused)) && Grows(w, Verify(w, reused))
  {
    var w' := Verify(w, reused);
    RunReceiptsSurvive(w, w');
    forall p | p in w.progress ensures Truthful(w', p, w.progress[p]) {
      ReceiptsSurvive(w, w', p, w.progress[p]);
    }
    if w'.run.Running? {
      var p := w.run.release;
      assert Receipted(w', p, w.run.at, w'.run.receipts[w.run.at]);
      assert Truthful(w', p, w'.progress[p]);
    }
  }

  lemma EnvironmentKeeps(w: World, w': World)
    requires Invariant(w) && (CatchesUp(w, w') || w' == w.(yanked := w'.yanked))
    ensures Invariant(w') && Grows(w, w')
  {
    ProgressSurvives(w, w');
    if w.run.Running? {
      RunReceiptsSurvive(w, w');
    }
  }

  lemma NextKeeps(w: World, w': World)
    requires Invariant(w) && Next(w, w')
    ensures Invariant(w') && Grows(w, w')
  {
    if w.run.Idle? && exists p :: CanStart(w, p) && w' == Start(w, p) {
      var p :| CanStart(w, p) && w' == Start(w, p);
      StartKeeps(w, p);
    } else if At(w, Checking) && w' == Check(w) {
      CheckKeeps(w);
    } else if At(w, Uploading) && exists bytes :: w' == Upload(w, bytes) {
      var bytes :| w' == Upload(w, bytes);
      UploadKeeps(w, bytes);
    } else if At(w, Waiting) && w' == Poll(w) {
      PollKeeps(w);
    } else if reused :| At(w, Verifying(reused)) && Current(w) in w.accepted && w' == Verify(w, reused) {
      VerifyKeeps(w, reused);
    } else if w' == Stopped(w) {
      StopKeeps(w);
    } else {
      EnvironmentKeeps(w, w');
    }
  }

  // ----- Histories -----

  ghost predicate NextAt(t: seq<World>, i: int)
    requires 0 <= i < |t| - 1
  {
    Next(t[i], t[i + 1])
  }

  ghost predicate History(t: seq<World>) {
    |t| > 0 && Init(t[0]) && forall i :: 0 <= i < |t| - 1 ==> NextAt(t, i)
  }

  lemma {:induction false} HistoryKeeps(t: seq<World>, i: nat)
    requires History(t) && i < |t|
    ensures Invariant(t[i])
  {
    if i == 0 {
      assert ToSet(t[0].uploads) == {} && ToSet(t[0].refusals) == {};
    } else {
      HistoryKeeps(t, i - 1);
      assert NextAt(t, i - 1);
      NextKeeps(t[i - 1], t[i]);
    }
  }

  lemma StepGrows(t: seq<World>, i: nat)
    requires History(t) && i < |t| - 1
    ensures Grows(t[i], t[i + 1])
  {
    HistoryKeeps(t, i);
    assert NextAt(t, i);
    NextKeeps(t[i], t[i + 1]);
  }

  lemma GrowsTransitive(a: World, b: World, c: World)
    requires Grows(a, b) && Grows(b, c)
    ensures Grows(a, c)
  {
  }

  lemma {:induction false} HistoryGrows(t: seq<World>, i: nat, j: nat)
    requires History(t) && i <= j < |t|
    ensures Grows(t[i], t[j])
  {
    if i < j {
      HistoryGrows(t, i, j - 1);
      StepGrows(t, j - 1);
      GrowsTransitive(t[i], t[j - 1], t[j]);
    }
  }

  /** At every moment of every history, everything published has its dependencies published. */
  lemma RegistryAlwaysClosed(t: seq<World>, i: nat, r: Release, need: Release)
    requires History(t) && i < |t|
    requires r in t[i].accepted && need in t[i].accepted[r].needs
    ensures need in t[i].accepted
  {
    HistoryKeeps(t, i);
  }

  /** Step `i` makes the registry accept `r`. */
  ghost predicate AcceptedAt(t: seq<World>, i: nat, r: Release) {
    i < |t| - 1 && r in t[i + 1].accepted && r !in t[i].accepted
  }

  /** Only the current package of the run is accepted, by an upload. */
  lemma AcceptedIsCurrent(t: seq<World>, i: nat, r: Release)
    requires History(t) && AcceptedAt(t, i, r)
    ensures At(t[i], Uploading) && Current(t[i]) == r
    ensures exists bytes :: t[i + 1] == Upload(t[i], bytes)
  {
    assert NextAt(t, i);
  }

  /** The release of `planned` is accepted and one the entry needs. */
  ghost predicate AcceptedNeed(w: World, entry: Entry, planned: Planned) {
    var need := Release(planned.name, planned.version);
    need in w.accepted && need in entry.needs
  }

  /** `n` is the release of an earlier item that item `k` depends on. */
  ghost predicate NeededSibling(items: seq<Item>, k: nat, n: Release)
    requires k < |items|
  {
    exists j :: 0 <= j < k && items[j].planned.name in items[k].planned.dependencies
                && n == Release(items[j].planned.name, items[j].planned.version)
  }

  /**
   When a step makes the registry accept a crate, it is the current one of the
   run, and its entry names exactly the crates it depends on: for every planned
   dependency the release of an earlier item with that name, and every external
   pin. All of them have been accepted before.
   */
  lemma AcceptedWithItsDependencies(t: seq<World>, i: nat, r: Release)
    requires History(t) && AcceptedAt(t, i, r)
    ensures t[i].run.Running? && t[i].run.at < |t[i].run.release.items|
    ensures var items, k := t[i].run.release.items, t[i].run.at;
            var entry := t[i + 1].accepted[r];
            && r.name == items[k].planned.name && r.version == items[k].planned.version
            && (forall x :: x in items[k].planned.dependencies ==>
                  exists j :: 0 <= j < k && items[j].planned.name == x && AcceptedNeed(t[i], entry, items[j].planned))
            && (forall e :: e in items[k].planned.external ==> e in t[i].accepted && e in entry.needs)
            && (forall n :: n in entry.needs ==>
                  n in items[k].planned.external || NeededSibling(items, k, n))
  {
    AcceptedIsCurrent(t, i, r);
    HistoryKeeps(t, i);
    NeedsAreVisible(t[i]);
    var items, k := t[i].run.release.items, t[i].run.at;
    var bytes :| t[i + 1] == Upload(t[i], bytes);
    forall x | x in items[k].planned.dependencies
      ensures exists j :: 0 <= j < k && items[j].planned.name == x
                          && AcceptedNeed(t[i], t[i + 1].accepted[r], items[j].planned)
    {
      assert ItemBefore(items, k, x);
      var j :| 0 <= j < k && items[j].planned.name == x;
      assert items[j].Release() in Needs(items, k);
    }
    forall n | n in t[i + 1].accepted[r].needs && n !in items[k].planned.external ensures NeededSibling(items, k, n) {
      var j :| 0 <= j < |items| && items[j].planned.name in items[k].planned.dependencies && items[j].Release() == n;
      assert ItemBefore(items, k, items[j].planned.name);
    }
  }

  /** No version is ever accepted twice, and what was accepted never changes. */
  lemma UploadedOnce(t: seq<World>, i: nat, j: nat, r: Release)
    requires History(t) && i <= j < |t|
    ensures NoDuplicates(t[j].uploads)
    ensures r in t[i].accepted ==> r in t[j].accepted && t[j].accepted[r] == t[i].accepted[r]
  {
    HistoryKeeps(t, j);
    HistoryGrows(t, i, j);
  }

  /** Every receipt file, whenever it is read, lists verified packages in plan order. */
  lemma ReceiptFileTruthful(t: seq<World>, i: nat, p: Prepared)
    requires History(t) && i < |t| && p in t[i].progress
    ensures Truthful(t[i], p, t[i].progress[p])
  {
    HistoryKeeps(t, i);
  }

  /** While a run is past its first package, the file holds exactly the receipts of this run. */
  lemma ReceiptFileFollowsRun(t: seq<World>, i: nat)
    requires History(t) && i < |t| && t[i].run.Running? && t[i].run.at > 0
    ensures t[i].run.release in t[i].progress
    ensures t[i].progress[t[i].run.release].receipts == t[i].run.receipts
    ensures t[i].progress[t[i].run.release].complete <==> t[i].run.at == |t[i].run.release.items|
  {
    HistoryKeeps(t, i);
  }

  // ----- What a receipt says about reuse -----

  /** The run in progress at `i` began at `s`. */
  ghost predicate RunSince(t: seq<World>, s: nat, i: nat) {
    && s <= i < |t| && t[s].run.Running? && t[s].run == Running(t[s].run.release, 0, Checking, [])
    && forall j :: s <= j <= i ==> t[j].run.Running?
  }

  predicate UploadedCurrent(run: Run) {
    run.Running? && run.phase in {Waiting, Verifying(false)}
  }

  predicate TouchedItem(run: Run, k: nat)
    requires run.Running?
  {
    k < run.at || (k == run.at && UploadedCurrent(run))
  }

  /** `r` is the release of a package that is done, or of the current one once it is uploaded. */
  ghost predicate Touched(run: Run, r: Release)
    requires run.Running?
  {
    exists k :: 0 <= k < |run.release.items| && TouchedItem(run, k) && run.release.items[k].Release() == r
  }

  /** Which packages were in the registry before the run is what the receipts and the phase say. */
  ghost predicate TellsReuse(run: Run, accepted: set<Release>, before: set<Release>, p: Prepared) {
    && run.Running? && run.release == p && run.at <= |p.items| && |run.receipts| == run.at
    && (forall r :: r in accepted ==> r in before || Touched(run, r))
    && (forall k :: 0 <= k < run.at ==> (run.receipts[k].reused <==> p.items[k].Release() in before))
    && (run.at < |p.items| && UploadedCurrent(run) ==> p.items[run.at].Release() !in before)
    && (run.at < |p.items| && run.phase == Verifying(true) ==> p.items[run.at].Release() in before)
  }

  lemma UntouchedCurrent(run: Run)
    requires run.Running? && run.at < |run.release.items| && Ordered(run.release.items)
    ensures Touched(run, run.release.items[run.at].Release()) <==> UploadedCurrent(run)
  {
    if UploadedCurrent(run) {
      assert TouchedItem(run, run.at);
    }
  }

  lemma TouchedStays(run: Run, next: Run, r: Release)
    requires run.Running? && next.Running? && next.release == run.release && Touched(run, r)
    requires next.at > run.at || (next.at == run.at && (UploadedCurrent(run) ==> UploadedCurrent(next)))
    ensures Touched(next, r)
  {
    var k :| 0 <= k < |run.release.items| && TouchedItem(run, k) && run.release.items[k].Release() == r;
    assert TouchedItem(next, k);
  }

  lemma AllTouchedStay(run: Run, next: Run)
    requires run.Running? && next.Running? && next.release == run.release
    requires next.at > run.at || (next.at == run.at && (UploadedCurrent(run) ==> UploadedCurrent(next)))
    ensures forall r :: Touched(run, r) ==> Touched(next, r)
  {
    forall r | Touched(run, r) ensures Touched(next, r) {
      TouchedStays(run, next, r);
    }
  }

  /** The current package gets a new phase; only an upload adds to the registry, and only the current release. */
  lemma PhaseTellsReuse(run: Run, phase: Phase, accepted: set<Release>, accepted': set<Release>,
                        before: set<Release>, p: Prepared)
    requires TellsReuse(run, accepted, before, p) && before <= accepted && Ordered(p.items) && run.at < |p.items|
    requires var r := p.items[run.at].Release();
             || (run.phase == Checking && phase == Verifying(true) && accepted' == accepted && r in accepted)
             || (run.phase == Checking && phase == Uploading && accepted' == accepted)
             || (run.phase == Uploading && phase == Waiting && accepted' == accepted + {r} && r !in accepted)
             || (run.phase == Waiting && phase == Verifying(false) && accepted' == accepted)
    ensures TellsReuse(run.(phase := phase), accepted', before, p)
  {
    UntouchedCurrent(run);
    UntouchedCurrent(run.(phase := phase));
    AllTouchedStay(run, run.(phase := phase));
  }

  lemma VerifiedTellsReuse(run: Run, next: Run, accepted: set<Release>, before: set<Release>, p: Prepared)
    requires TellsReuse(run, accepted, before, p) && run.at < |p.items| && run.phase.Verifying?
    requires next.Running? && next.release == p && next.at == run.at + 1 && next.phase == Checking
    requires |next.receipts| == |run.receipts| + 1 && next.receipts[..run.at] == run.receipts
    requires next.receipts[run.at].reused <==> run.phase.reused
    ensures TellsReuse(next, accepted, before, p)
  {
    AllTouchedStay(run, next);
    forall k | 0 <= k < next.at ensures next.receipts[k].reused <==> p.items[k].Release() in before {
      if k < run.at {
        assert next.receipts[k] == next.receipts[..run.at][k];
      }
    }
  }

  lemma RunVerified(w: World, w': World)
    requires Next(w, w') && w.run.Running? && w'.run.Running? && w'.run != w.run && w.run.phase.Verifying?
    requires |w.run.receipts| == w.run.at
    ensures w'.accepted == w.accepted && w.run.at < |w.run.release.items|
    ensures w'.run.release == w.run.release && w'.run.at == w.run.at + 1 && w'.run.phase == Checking
    ensures |w'.run.receipts| == |w.run.receipts| + 1 && w'.run.receipts[..w.run.at] == w.run.receipts
    ensures w'.run.receipts[w.run.at].reused <==> w.run.phase.reused
  {
  }

  lemma RunPhased(w: World, w': World)
    requires Next(w, w') && w.run.Running? && w'.run.Running? && w'.run != w.run && !w.run.phase.Verifying?
    requires w.visible <= w.accepted.Keys
    ensures w.run.at < |w.run.release.items| && w'.run == w.run.(phase := w'.run.phase)
    ensures var r := Current(w);
            || (w.run.phase == Checking && w'.run.phase == Verifying(true) && w'.accepted == w.accepted
                && r in w.accepted)
            || (w.run.phase == Checking && w'.run.phase == Uploading && w'.accepted == w.accepted)
            || (w.run.phase == Uploading && w'.run.phase == Waiting
                && w'.accepted.Keys == w.accepted.Keys + {r} && r !in w.accepted)
            || (w.run.phase == Waiting && w'.run.phase == Verifying(false) && w'.accepted == w.accepted)
  {
  }

  lemma RunUnmoved(w: World, w': World)
    requires Next(w, w') && w.run.Running? && w'.run == w.run
    ensures w'.accepted == w.accepted
  {
  }

  /** What a step does to a run that goes on. */
  lemma StepTellsReuse(w: World, w': World, before: set<Release>, p: Prepared)
    requires w.visible <= w.accepted.Keys && Ordered(p.items) && Next(w, w') && w'.run.Running?
    requires TellsReuse(w.run, w.accepted.Keys, before, p) && before <= w.accepted.Keys
    ensures TellsReuse(w'.run, w'.accepted.Keys, before, p)
  {
    if w'.run == w.run {
      RunUnmoved(w, w');
    } else if w.run.phase.Verifying? {
      RunVerified(w, w');
      VerifiedTellsReuse(w.run, w'.run, w.accepted.Keys, before, p);
    } else {
      RunPhased(w, w');
      PhaseTellsReuse(w.run, w'.run.phase, w.accepted.Keys, w'.accepted.Keys, before, p);
    }
  }

  lemma RunContinues(t: seq<World>, i: nat)
    requires History(t) && i < |t| - 1 && t[i].run.Running? && t[i + 1].run.Running?
    ensures t[i].visible <= t[i].accepted.Keys && Ordered(t[i].run.release.items) && Next(t[i], t[i + 1])
  {
    HistoryKeeps(t, i);
    assert NextAt(t, i);
  }

  lemma {:induction false} RunTellsReuse(t: seq<World>, s: nat, i: nat)
    requires History(t) && RunSince(t, s, i)
    ensures TellsReuse(t[i].run, t[i].accepted.Keys, t[s].accepted.Keys, t[s].run.release)
  {
    if s < i {
      RunTellsReuse(t, s, i - 1);
      RunContinues(t, i - 1);
      HistoryGrows(t, s, i - 1);
      StepTellsReuse(t[i - 1], t[i], t[s].accepted.Keys, t[s].run.release);
    }
  }

  /**
   A receipt says `reused` exactly when the registry had the version before the
   run began, that is, when this run did not upload it.
   */
  lemma ReceiptTellsReuse(t: seq<World>, s: nat, i: nat, k: nat)
    requires History(t) && RunSince(t, s, i) && k < |t[i].run.receipts|
    ensures k < |t[i].run.release.items|
    ensures t[i].run.receipts[k].reused <==> t[i].run.release.items[k].Release() in t[s].accepted
  {
    RunTellsReuse(t, s, i);
  }

  // ----- Second uploads -----

  lemma NothingMissed(w: World, w': World)
    requires Next(w, w')
    requires At(w, Checking) && Current(w) in w.accepted ==> Current(w) in w.visible
    ensures w'.missed == w.missed
  {
  }

  /**
   A refused second upload is always preceded by an index check that missed the
   first one. So when the index shows every accepted version at each check,
   rerunning never tries to upload a version again.
   */
  lemma {:induction false} NoRefusalWithoutLag(t: seq<World>)
    requires History(t)
    requires forall i :: 0 <= i < |t| && At(t[i], Checking) && Current(t[i]) in t[i].accepted ==>
             Current(t[i]) in t[i].visible
    ensures t[|t| - 1].missed == [] && t[|t| - 1].refusals == []
  {
    var n := |t| - 1;
    if n > 0 {
      assert forall i :: 0 <= i < n ==> t[..n][i] == t[i];
      forall i | 0 <= i < n - 1 ensures NextAt(t[..n], i) {
        assert NextAt(t, i);
      }
      NoRefusalWithoutLag(t[..n]);
      assert NextAt(t, n - 1);
      NothingMissed(t[n - 1], t[n]);
      HistoryKeeps(t, n);
      EmptySet(t[n].refusals);
      EmptySet(t[n].missed);
    }
  }

  /** Step `i` uploads a version the registry already has. */
  ghost predicate SecondAttempt(t: seq<World>, i: nat, r: Release) {
    && i < |t| - 1 && At(t[i], Uploading) && Current(t[i]) == r && r in t[i].accepted
    && exists bytes :: t[i + 1] == Upload(t[i], bytes)
  }

  /** Step `i` looks at the index and misses a version the registry already has. */
  predicate MissedCheck(t: seq<World>, i: nat, r: Release) {
    && i < |t| - 1 && At(t[i], Checking) && Current(t[i]) == r && r in t[i].accepted && r !in t[i].visible
    && t[i + 1] == Check(t[i])
  }

  lemma RefusalsGrow(w: World, w': World, r: Release)
    requires Next(w, w')
    ensures r in w'.refusals <==>
              r in w.refusals
              || (At(w, Uploading) && Current(w) == r && r in w.accepted && exists bytes :: w' == Upload(w, bytes))
  {
  }

  lemma MissesGrow(w: World, w': World, r: Release)
    requires Next(w, w')
    ensures r in w'.missed <==>
              r in w.missed
              || (At(w, Checking) && Current(w) == r && r in w.accepted && r !in w.visible && w' == Check(w))
  {
  }

  /** The registry has refused a version exactly when some step uploaded it although it was accepted already. */
  lemma {:induction false} RefusedIffSecondAttempt(t: seq<World>, j: nat, r: Release)
    requires History(t) && j < |t|
    ensures r in t[j].refusals <==> exists i :: 0 <= i < j && SecondAttempt(t, i, r)
  {
    if j > 0 {
      RefusedIffSecondAttempt(t, j - 1, r);
      assert NextAt(t, j - 1);
      RefusalsGrow(t[j - 1], t[j], r);
      if r in t[j].refusals && r !in t[j - 1].refusals {
        assert SecondAttempt(t, j - 1, r);
      }
    }
  }

  lemma {:induction false} MissedIffMissedCheck(t: seq<World>, j: nat, r: Release)
    requires History(t) && j < |t|
    ensures r in t[j].missed <==> exists i :: 0 <= i < j && MissedCheck(t, i, r)
  {
    if j > 0 {
      MissedIffMissedCheck(t, j - 1, r);
      assert NextAt(t, j - 1);
      MissesGrow(t[j - 1], t[j], r);
      if r in t[j].missed && r !in t[j - 1].missed {
        assert MissedCheck(t, j - 1, r);
      }
    }
  }

  /** Every second attempt comes after an index check that missed the version. */
  lemma RefusalFollowsMissedCheck(t: seq<World>, j: nat, r: Release)
    requires History(t) && j < |t| && r in t[j].refusals
    ensures exists i :: 0 <= i < j && MissedCheck(t, i, r)
  {
    HistoryKeeps(t, j);
    assert r in ToSet(t[j].refusals);
    MissedIffMissedCheck(t, j, r);
  }

  lemma {:induction false} UploadsAreNew(t: seq<World>, j: nat, r: Release)
    requires History(t) && j < |t| && r in t[0].accepted
    ensures r !in t[j].uploads
  {
    if j > 0 {
      UploadsAreNew(t, j - 1, r);
      HistoryGrows(t, 0, j - 1);
      assert NextAt(t, j - 1);
    }
  }

  lemma {:induction false} DistinctCount<T>(s: seq<T>, x: T)
    requires NoDuplicates(s)
    ensures multiset(s)[x] == if x in s then 1 else 0
  {
    if s != [] {
      var n := |s| - 1;
      DistinctCount(s[..n], x);
      assert s == s[..n] + [s[n]];
    }
  }

  /**
   The command attempts to upload a version at most once over any crashes and
   reruns, and not at all if the registry had it before, unless an index check
   missed it.
   */
  lemma AttemptedOnceUnlessMissed(t: seq<World>, j: nat, r: Release)
    requires History(t) && j < |t| && forall i :: 0 <= i < j ==> !MissedCheck(t, i, r)
    ensures multiset(t[j].uploads + t[j].refusals)[r] <= 1
    ensures r in t[0].accepted ==> r !in t[j].uploads + t[j].refusals
  {
    HistoryKeeps(t, j);
    if r in t[j].refusals {
      RefusalFollowsMissedCheck(t, j, r);
    }
    if r in t[0].accepted {
      UploadsAreNew(t, j, r);
    }
    DistinctCount(t[j].uploads, r);
    assert multiset(t[j].uploads + t[j].refusals) == multiset(t[j].uploads) + multiset(t[j].refusals);
  }

  /** Conversely, after a check that missed a version every upload of it, in this run or a later one, is refused. */
  lemma LagMeansRefusal(t: seq<World>, i: nat, j: nat, r: Release, bytes: Archives.Bytes)
    requires History(t) && MissedCheck(t, i, r) && i <= j < |t|
    requires At(t[j], Uploading) && Current(t[j]) == r
    ensures Upload(t[j], bytes) == Stopped(t[j]).(refusals := t[j].refusals + [r])
  {
    HistoryGrows(t, i, j);
  }

  /** Without the condition it happens: the wait times out, the rerun checks too early. */
  lemma RerunBeforeIndexIsRefused(p: Prepared, bytes: Archives.Bytes, w: World) returns (t: seq<World>)
    requires Init(w) && w.accepted == map[] && CanStart(w, p) && |p.items| > 0
    ensures History(t) && t[0] == w && t[|t| - 1].refusals == [p.items[0].Release()]
  {
    var r := p.items[0].Release();
    var started := Start(w, p);
    var uploaded := Upload(Check(started), bytes);
    var again := Start(Stopped(uploaded), p);
    t := [w, started, Check(started), uploaded, Stopped(uploaded), again, Check(again), Upload(Check(again), bytes)];
    assert CanStart(Stopped(uploaded), p);
  }

  // ----- Carrying the registry's own archive -----

  /** The registry shows the package's version, with the files of the prepared archive. */
  ghost predicate CarriesShown(w: World, p: Prepared, k: nat)
    requires k < |p.items|
  {
    var r := p.items[k].Release();
    r in w.visible && r in w.accepted
    && Archives.MatchesPublished(p.disk, p.directory, p.items[k].package, w.accepted[r].archive)
  }

  /** It is the turn of package `k`. */
  predicate TurnOf(w: World, p: Prepared, k: nat) {
    At(w, Checking) && w.run.release == p && w.run.at == k
  }

  /** The check finds the version and the verification passes, without an upload; a yanked version stops the run. */
  ghost predicate PassesWithoutUpload(w: World)
    requires At(w, Checking)
  {
    if Current(w) in w.yanked then Check(w) == Stopped(w)
    else
      && At(Check(w), Verifying(true)) && Current(w) in w.accepted
      && var next := Verify(Check(w), true);
         next.run.Running? && next.run.at == w.run.at + 1 && next.uploads == w.uploads && next.refusals == w.refusals
  }

  /** A package that carries what the registry shows is never uploaded again, in whatever later state its turn comes. */
  lemma CarriedPackagePassesWithoutUpload(t: seq<World>, i: nat, j: nat, p: Prepared, k: nat)
    requires History(t) && i <= j < |t| && k < |p.items| && CarriesShown(t[i], p, k) && TurnOf(t[j], p, k)
    ensures PassesWithoutUpload(t[j])
  {
    HistoryGrows(t, i, j);
  }

  // ----- The command -----

  const FRAMEWORK_TAG := "rust-v"
  const BLUEPRINT_TAG := "rust-blueprint-v"

  function TagOf(tree: Tree, scope: Scope): string {
    (if scope == Framework then FRAMEWORK_TAG else BLUEPRINT_TAG) + tree.Of(scope).version
  }

  /** What git and the release report say about where they come from. */
  datatype Provenance = Provenance(scope: Scope, clean: bool, receipt: bool,
                                   reportCommit: string, head: string, tagged: string)

  datatype Outcome = Refused | Failed | Done

  /** No tag publishes both scopes. */
  lemma TagsDiffer(a: Tree, b: Tree)
    ensures TagOf(a, Framework) != TagOf(b, Blueprint)
  {
    assert TagOf(a, Framework)[5] == 'v' && TagOf(b, Blueprint)[5] == 'b';
  }

  /** What the publication preflight demands. */
  ghost predicate Passes(w: World, p: Prepared, tree: Tree, tag: string, from: Provenance) {
    && from.clean && from.receipt && from.reportCommit == from.head == from.tagged
    && IsPlan(tree, from.scope, PlanOf(p.items))
    && (from.scope == Framework ==> tag == "rust-v" + tree.framework.version)
    && (from.scope == Blueprint ==> tag == "rust-blueprint-v" + tree.blueprint.version)
    && Externals(p.items) <= w.visible && Externals(p.items) !! w.yanked
    && forall i :: 0 <= i < |p.items| ==> Archives.Accepted(p.disk, p.directory, p.items[i].package)
  }

  /** Item `i` is in the index, not yanked, and the registry's archive is the prepared one. */
  ghost predicate Released(w: World, p: Prepared, i: nat)
    requires i < |p.items|
  {
    var r := p.items[i].Release();
    && r in w.visible && r !in w.yanked && r in w.accepted
    && Archives.MatchesPublished(p.disk, p.directory, p.items[i].package, w.accepted[r].archive)
  }

  function Key(r: Release): (string, string) {
    (r.name, r.version)
  }

  /** The index shows the package's version and no earlier release provides it. */
  ghost predicate Carries(w: World, previous: Archives.PriorReleaseInfo, p: Prepared, k: nat)
    requires k < |p.items|
  {
    p.items[k].Release() in w.visible
    && !Archives.HasPrior(previous, p.items[k].planned.name, p.items[k].planned.version)
  }

  /** In every continuation of the history, the package passes at its turn without an upload. */
  ghost predicate NeverUploadedAgain(trace: seq<World>, p: Prepared, k: nat) {
    forall t, j :: History(t) && trace <= t && |trace| <= j < |t| && TurnOf(t[j], p, k) ==> PassesWithoutUpload(t[j])
  }

  lemma CarriedIsNeverUploadedAgain(trace: seq<World>, p: Prepared, k: nat)
    requires History(trace) && k < |p.items| && CarriesShown(trace[|trace| - 1], p, k)
    ensures NeverUploadedAgain(trace, p, k)
  {
    forall t, j | History(t) && trace <= t && |trace| <= j < |t| && TurnOf(t[j], p, k)
      ensures PassesWithoutUpload(t[j])
    {
      CarriedPackagePassesWithoutUpload(t, |trace| - 1, j, p, k);
    }
  }

  lemma NoDotInNames(name: string)
    requires ValidName(name)
    ensures Archives.CargoName(name)
  {
    var prefix := "forklaunch-";
    assert '.' !in prefix;
    forall i | 0 <= i < |name| ensures name[i] != '.' {
      if i < |prefix| {
        assert name[i] == prefix[i];
      }
    }
  }

  /** The names and versions of a plan are fit for archive names. */
  lemma PlannedNames(tree: Tree, scope: Scope, plan: seq<Planned>)
    requires IsPlan(tree, scope, plan)
    ensures forall i :: 0 <= i < |plan| ==> Archives.CargoName(plan[i].name)
    ensures forall i :: 0 <= i < |plan| ==>
              Published(tree.Of(scope), plan[i].dir) && CrateOk(tree, scope, plan[i].dir)
              && Some(plan[i].version) == VersionOf(tree.Of(scope), tree.Of(scope).crates[plan[i].dir])
    ensures forall i, j :: 0 <= i < j < |plan| ==> plan[i].name != plan[j].name
  {
    PlanIsInDependencyOrder(tree, scope, plan);
    forall i | 0 <= i < |plan|
      ensures Archives.CargoName(plan[i].name)
      ensures Published(tree.Of(scope), plan[i].dir) && CrateOk(tree, scope, plan[i].dir)
      ensures Some(plan[i].version) == VersionOf(tree.Of(scope), tree.Of(scope).crates[plan[i].dir])
    {
      PlanEntry(tree, scope, plan, i);
      NoDotInNames(plan[i].name);
    }
    forall i, j | 0 <= i < j < |plan| ensures plan[i].name != plan[j].name {
      assert Names(plan)[i] != Names(plan)[j];
    }
  }

  ghost predicate Finished(w: World, p: Prepared) {
    && w.run.Running? && w.run.release == p && w.run.at == |p.items|
    && forall i :: 0 <= i < |p.items| ==> p.items[i].Release() !in w.yanked
  }

  lemma FinishedReleases(w: World, p: Prepared)
    requires Invariant(w) && Finished(w, p)
    ensures forall i :: 0 <= i < |p.items| ==> Released(Stopped(w), p, i)
    ensures |p.items| > 0 ==> p in w.progress && w.progress[p].complete
  {
    forall i | 0 <= i < |p.items| ensures Released(Stopped(w), p, i) {
      assert Receipted(w, p, i, w.run.receipts[i]);
    }
  }

  /** What the index shows, and which of it is yanked. */
  function IndexOf(w: World): Archives.Index {
    Archives.Index(map r | r in w.visible && r in w.accepted :: Key(r) := w.accepted[r].archive,
                   set r | r in w.yanked :: Key(r))
  }

  /** The index shows the accepted releases it has caught up with, with their archives, and every yank. */
  lemma IndexShows(w: World, r: Release)
    ensures Key(r) in IndexOf(w).shown <==> r in w.visible && r in w.accepted
    ensures r in w.visible && r in w.accepted ==> IndexOf(w).shown[(r.name, r.version)] == w.accepted[r].archive
    ensures (r.name, r.version) in IndexOf(w).yanked <==> r in w.yanked
  {
    assert Key(r) == (r.name, r.version);
  }

  ghost predicate AllPreparable(plan: seq<Planned>, repacked: nat -> Archives.Bytes,
                                previous: Archives.PriorReleaseInfo, index: Option<Archives.Index>)
  {
    forall i :: 0 <= i < |plan| ==> Archives.Preparable(previous, index, plan[i].name, plan[i].version, repacked(i))
  }

  /** Every package that is to carry the registry's archive matches it. */
  ghost predicate PublishedAreMatched(plan: seq<Planned>, previous: Archives.PriorReleaseInfo,
                                      index: Option<Archives.Index>, p: Prepared)
    requires |p.items| == |plan|
  {
    forall k | 0 <= k < |plan| && Archives.CarriesPublished(previous, index, plan[k].name, plan[k].version) ::
      Archives.MatchesPublished(p.disk, p.directory, p.items[k].package,
                                index.value.shown[(plan[k].name, plan[k].version)])
  }

  lemma PreparedCarries(trace: seq<World>, plan: seq<Planned>, previous: Archives.PriorReleaseInfo, p: Prepared)
    requires History(trace) && PlanOf(p.items) == plan && Invariant(trace[|trace| - 1])
    requires PublishedAreMatched(plan, previous, Some(IndexOf(trace[|trace| - 1])), p)
    ensures forall k :: 0 <= k < |p.items| && Carries(trace[|trace| - 1], previous, p, k) ==>
              NeverUploadedAgain(trace, p, k)
  {
    var w := trace[|trace| - 1];
    forall k | 0 <= k < |p.items| && Carries(w, previous, p, k) ensures NeverUploadedAgain(trace, p, k) {
      assert PlanOf(p.items)[k] == plan[k];
      assert Key(p.items[k].Release()) in IndexOf(w).shown;
      CarriedIsNeverUploadedAgain(trace, p, k);
    }
  }

  /** Prepares the planned packages in a new directory. */
  method PrepareItems(plan: seq<Planned>, directory: Archives.Path, repacked: nat -> Archives.Bytes,
                      previous: Archives.PriorReleaseInfo, index: Option<Archives.Index>) returns (r: Option<Prepared>)
    requires Archives.Plain(directory)
    requires forall i :: 0 <= i < |plan| ==> Archives.CargoName(plan[i].name) && Archives.CargoVersion(plan[i].version)
    requires forall i, j :: 0 <= i < j < |plan| ==> plan[i].name != plan[j].name
    ensures r.Some? <==> AllPreparable(plan, repacked, previous, index)
    ensures r.Some? ==> PlanOf(r.value.items) == plan && r.value.directory == directory
    ensures r.Some? ==> forall k :: 0 <= k < |r.value.items| ==>
              Archives.Accepted(r.value.disk, directory, r.value.items[k].package)
    ensures r.Some? ==> PublishedAreMatched(plan, previous, index, r.value)
  {
    var releases := seq(|plan|, i requires 0 <= i < |plan| => (plan[i].name, plan[i].version));
    var archives := seq(|plan|, i requires 0 <= i < |plan| => repacked(i));
    var preparation := new Archives.Preparation(directory, map[]);
    var ok := preparation.Prepare(releases, archives, previous, index);
    if !ok {
      return None;
    }
    var packages := preparation.packages;
    var items := seq(|plan|, i requires 0 <= i < |plan| => Item(plan[i], packages[i]));
    assert PlanOf(items) == plan;
    r := Some(Prepared(directory, preparation.disk, items));
  }

  class Publisher {
    var world: World
    ghost var trace: seq<World>

    ghost predicate Valid()
      reads this
    {
      History(trace) && trace[|trace| - 1] == world
    }

    constructor (world: World)
      requires Init(world)
      ensures Valid() && this.world == world && trace == [world]
    {
      this.world := world;
      trace := [world];
    }

    /** The world moved on by one step. */
    ghost method Record()
      requires History(trace) && Next(trace[|trace| - 1], world)
      modifies this`trace
      ensures Valid() && trace == old(trace) + [world]
    {
      trace := trace + [world];
      forall i | 0 <= i < |trace| - 1 ensures NextAt(trace, i) {
        if i < |trace| - 2 {
          assert NextAt(old(trace), i);
        }
      }
    }

    /** The registry index, looked at now: it may have caught up in the meantime. */
    method Look(shown: set<Release>) returns (visible: set<Release>)
      requires Valid()
      modifies this
      ensures Valid() && old(trace) <= trace
      ensures world == old(world).(visible := old(world).visible + shown * old(world).accepted.Keys)
      ensures visible == world.visible
    {
      HistoryKeeps(trace, |trace| - 1);
      world := world.(visible := world.visible + (shown * world.accepted.Keys));
      Record();
      return world.visible;
    }

    /**
     Plans a scope and prepares its archives in a new release directory. What it
     prepares passes the archive checks of the preflight, and a package whose
     version the index showed, and that no earlier release provides, is never
     uploaded again, whatever happens from now on.
     */
    method PrepareRelease(tree: Tree, scope: Scope, directory: Archives.Path, repacked: nat -> Archives.Bytes,
                          previous: Archives.PriorReleaseInfo, reusePublished: bool) returns (r: Option<Prepared>)
      requires Valid() && Archives.Plain(directory)
      requires forall d :: Published(tree.Of(scope), d) && CrateOk(tree, scope, d) ==>
                 Archives.CargoVersion(VersionOf(tree.Of(scope), tree.Of(scope).crates[d]).value)
      ensures var index := if reusePublished then Some(IndexOf(world)) else None;
              r.Some? <==> exists plan :: IsPlan(tree, scope, plan) && AllPreparable(plan, repacked, previous, index)
      ensures r.Some? ==> IsPlan(tree, scope, PlanOf(r.value.items))
      ensures r.Some? ==> forall k :: 0 <= k < |r.value.items| ==>
                Archives.Accepted(r.value.disk, r.value.directory, r.value.items[k].package)
      ensures r.Some? && reusePublished ==>
                forall k :: 0 <= k < |r.value.items| && Carries(world, previous, r.value, k) ==>
                NeverUploadedAgain(trace, r.value, k)
    {
      var planned := ReleasePlan.ReleasePlan(tree, scope);
      if planned.Err? {
        AnyPlanMeansPlans(tree, scope);
        return None;
      }
      var plan := planned.value;
      PlannedNames(tree, scope, plan);
      forall other | IsPlan(tree, scope, other) ensures other == plan {
        PlanUnique(tree, scope, plan, other);
      }
      r := PrepareItems(plan, directory, repacked, previous, if reusePublished then Some(IndexOf(world)) else None);
      if r.Some? && reusePublished {
        HistoryKeeps(trace, |trace| - 1);
        PreparedCarries(trace, plan, previous, r.value);
      }
    }

    /** The checks before the first step; nothing changes. */
    method Preflight(p: Prepared, tree: Tree, tag: string, from: Provenance) returns (ok: bool)
      requires Valid()
      ensures ok <==> Passes(world, p, tree, tag, from)
      ensures ok ==> CanStart(world, p)
    {
      if !from.clean || !from.receipt {
        return false;
      }
      var plan := ReleasePlan.ReleasePlan(tree, from.scope);
      if plan.Err? || plan.value != PlanOf(p.items) {
        if IsPlan(tree, from.scope, PlanOf(p.items)) {
          PlannedMeansPlans(tree, from.scope, PlanOf(p.items));
          PlanUnique(tree, from.scope, plan.value, PlanOf(p.items));
        }
        return false;
      }
      if tag != TagOf(tree, from.scope) {
        return false;
      }
      var rest := Externals(p.items);
      while rest != {}
        invariant rest <= Externals(p.items)
        invariant Externals(p.items) - rest <= world.visible && (Externals(p.items) - rest) !! world.yanked
      {
        var e :| e in rest;
        if e !in world.visible || e in world.yanked {
          return false;
        }
        rest := rest - {e};
      }
      if from.head != from.reportCommit || from.tagged != from.head {
        return false;
      }
      for i := 0 to |p.items|
        invariant forall k :: 0 <= k < i ==> Archives.Accepted(p.disk, p.directory, p.items[k].package)
      {
        if !Archives.Accepted(p.disk, p.directory, p.items[i].package) {
          return false;
        }
      }
      return true;
    }

    /** Looks at the index until the version shows up or the deadline passes. */
    method WaitForVersion(looks: seq<set<Release>>) returns (found: bool)
      requires Valid() && At(world, Waiting) && Current(world) !in world.visible
      modifies this
      ensures Valid() && old(trace) <= trace
      ensures found ==> world.run == old(world.run).(phase := Verifying(false))
      ensures found <==> old(Current(world)) in world.visible && old(Current(world)) !in world.yanked
      ensures found <==> old(Current(world)) !in world.yanked
                         && exists i :: 0 <= i < |looks| && old(Current(world)) in looks[i] * world.accepted.Keys
      ensures world.progress == old(world.progress) && world.accepted == old(world.accepted)
                && world.yanked == old(world.yanked)
    {
      ghost var release := Current(world);
      for i := 0 to |looks|
        invariant Valid() && old(trace) <= trace
        invariant world.run == old(world.run) && world.progress == old(world.progress)
                  && world.accepted == old(world.accepted)
        invariant world.yanked == old(world.yanked) && release !in world.visible
        invariant forall k :: 0 <= k < i ==> release !in looks[k] * world.accepted.Keys
      {
        var _ := Look(looks[i]);
        world := Poll(world);
        Record();
        if !At(world, Waiting) {
          return At(world, Verifying(false));
        }
      }
      return false;
    }

    /** Uploads the current package, which the registry refuses if it has it already, and waits for the index. */
    method UploadAndWait(bytes: Archives.Bytes, looks: seq<set<Release>>) returns (ok: bool)
      requires Valid() && At(world, Uploading) && Current(world) !in world.visible
      modifies this
      ensures Valid() && old(trace) <= trace
      ensures ok ==> world.run == old(world.run).(phase := Verifying(false))
      ensures ok <==> old(Current(world)) in world.visible && old(Current(world)) !in world.yanked
      ensures world.yanked == old(world.yanked)
      ensures world.accepted ==
              if old(Current(world)) in old(world).accepted then old(world).accepted
              else old(world).accepted[old(Current(world)) := NewEntry(old(world), bytes)]
    {
      world := Upload(world, bytes);
      Record();
      if world.run.Idle? {
        return false;
      }
      ok := WaitForVersion(looks);
    }

    /** Looks the current package up and uploads it when the index does not show it. */
    method FindOrUpload(bytes: Archives.Bytes, looks: seq<set<Release>>) returns (ok: bool)
      requires Valid() && At(world, Checking)
      modifies this
      ensures Valid() && old(trace) <= trace
      ensures ok ==>
                world.run.Running? && world.run.phase.Verifying?
                    && world.run == old(world.run).(phase := world.run.phase)
      ensures ok <==> old(Current(world)) in world.visible && old(Current(world)) !in world.yanked
      ensures world.yanked == old(world.yanked)
      ensures world.accepted ==
              if old(Current(world)) in old(world).visible + old(world).accepted.Keys then old(world).accepted
              else old(world).accepted[old(Current(world)) := NewEntry(old(world), bytes)]
    {
      HistoryKeeps(trace, |trace| - 1);
      world := Check(world);
      Record();
      if world.run.Idle? {
        return false;
      }
      if world.run.phase.Verifying? {
        return true;
      }
      ok := UploadAndWait(bytes, looks);
    }

    /** Check, upload if missing, wait, verify: one package of the plan. */
    method PublishOne(bytes: Archives.Bytes, looks: seq<set<Release>>) returns (ok: bool)
      requires Valid() && At(world, Checking)
      modifies this
      ensures Valid() && old(trace) <= trace
      ensures ok ==> world.run.Running? && world.run.release == old(world.run.release)
                     && world.run.at == old(world.run.at) + 1 && world.run.phase == Checking
      ensures ok <==> Released(world, old(world.run.release), old(world.run.at))
      ensures world.yanked == old(world.yanked)
    {
      ok := FindOrUpload(bytes, looks);
      if !ok {
        return false;
      }
      HistoryKeeps(trace, |trace| - 1);
      world := Verify(world, world.run.phase.reused);
      Record();
      return world.run.Running?;
    }

    /** Package after package, until one cannot be released. */
    method PublishAll(p: Prepared, uploads: nat -> Archives.Bytes, looks: nat -> seq<set<Release>>) returns (ok: bool)
      requires Valid() && world.run == Running(p, 0, Checking, [])
      modifies this
      ensures Valid() && old(trace) <= trace
      ensures ok ==> Finished(world, p)
      ensures !ok ==> exists i :: 0 <= i < |p.items| && !Released(world, p, i)
    {
      for k := 0 to |p.items|
        invariant Valid() && old(trace) <= trace
        invariant world.run.Running? && world.run.release == p && world.run.at == k && world.run.phase == Checking
        invariant forall i :: 0 <= i < k ==> p.items[i].Release() !in world.yanked
      {
        var _ := Look({});
        ok := PublishOne(uploads(k), looks(k));
        if !ok {
          return false;
        }
      }
      return true;
    }

    /** The end of the plan. */
    method Finish(p: Prepared)
      requires Valid() && Finished(world, p)
      modifies this
      ensures Valid() && old(trace) <= trace
      ensures forall i :: 0 <= i < |p.items| ==> Released(world, p, i)
      ensures |p.items| > 0 ==> p in world.progress && world.progress[p].complete
    {
      HistoryKeeps(trace, |trace| - 1);
      FinishedReleases(world, p);
      world := Stopped(world);
      Record();
    }

    /**
     Publishes the planned packages in order. Every state the command goes
     through is a state of the protocol, whatever the uploads and the index do.
     It refuses exactly what the preflight refuses, and it finishes exactly when
     every package has been released; then the receipt file says so.
     */
    method Publish(p: Prepared, tree: Tree, tag: string, from: Provenance, upload: bool,
                   uploads: nat -> Archives.Bytes, looks: nat -> seq<set<Release>>) returns (outcome: Outcome)
      requires Valid() && world.run.Idle?
      modifies this
      ensures Valid() && old(trace) <= trace
      ensures outcome == Refused <==> !Passes(old(world), p, tree, tag, from)
      ensures outcome == Refused || !upload ==> world == old(world) && outcome != Failed
      ensures outcome != Refused && upload ==>
                (outcome == Done <==> forall i :: 0 <= i < |p.items| ==> Released(world, p, i))
      ensures outcome == Done && upload && |p.items| > 0 ==> p in world.progress && world.progress[p].complete
    {
      var ok := Preflight(p, tree, tag, from);
      if !ok {
        return Refused;
      }
      if !upload {
        return Done;
      }
      world := Start(world, p);
      Record();
      ok := PublishAll(p, uploads, looks);
      if !ok {
        return Failed;
      }
      Finish(p);
      return Done;
    }
  }
}
