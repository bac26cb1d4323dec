# ForkLaunch: verified models of the release, development and worker cores

A Dafny 4.11 project that models the parts of ForkLaunch that carry real
invariants and proves what they promise. `dafny verify dfyconfig.toml` checks
all of it; there are no axioms and no body-less members.

| module | what it models |
|---|---|
| `Graphs`, `ReleasePlan` | which Rust crates are published, with which pins, in which order |
| `Bump` | moving both workspaces to one new version and repinning every manifest |
| `Archives` | prepared crate archives, reuse of earlier archives, and the checks that accept them |
| `Publish` | the resumable publication against crates.io, as a state machine over all interleavings |
| `Services`, `CacheVolumes`, `DevPlan`, `WatchPaths` | the `forklaunch dev` planner over Compose services |
| `Rebuild` | the in-container rebuild: one command line, and restart stamps over a clock |
| `Supervise` | interrupt forwarding and escalation of the development stack |
| `OrderWorker` | order events, stock transactions, retries and stock conservation |
| `TomlText`, `TomlLegal`, `Decimals` | the manifest printer, a reader that inverts it, and when its text is legal TOML |
| `EmojiRanges` | canonical merging of code point ranges |
| `Eject` | collision-free ejection and `index.ts` merging |
| `Score` | severity order and grouping of report findings |
| `Collections` | options, results, the order on strings, stable sorting, pigeonhole |

Code that updates state in place is a class or a method with loops, proved
against functions on values; the laws are lemmas about those functions. Whole
runs are sequences of states (`Publish.History`, `OrderWorker.History`,
`Bump.BumpRun`), and the invariants hold at every position of every run. The
`Publisher` class additionally keeps a ghost trace, so each of its methods is
proved to take only steps of the publication state machine.

What is not computed here is a parameter or an assumption:

- SHA-256 is a tag around the hashed value, so equal digests mean equal contents.
- crates.io is append-only; its index shows a subset of the accepted uploads and
  only grows. One publisher runs at a time and may stop between any two steps.
- Clocks, process exits, the bytes Cargo uploads, the binaries a build relinks
  and database faults are inputs of the operations that read them.
- `Bump.Separate`: a crate directory lies in one of the two workspaces
  (`framework-rs/crates`, `blueprint-rs/crates`), not in both.
- `DevPlan.PlainNames`: Cargo package and binary names hold no space, no package is
  called `--bin`, and no watch option is `--`.
- Prepared packages have distinct names without a dot and versions that start
  with digits and a dot. Both hold of a release plan of crates Cargo accepts.

## Findings

Where the code does not meet the law one would expect, the model keeps the code,
a lemma gives a concrete case, and the exact condition is proved.

- A blueprint plan accepts pins on framework crates that are never published
  (`ReleasePlan.PrivatePinIsPlanned`); the release such a pin names is planned
  exactly when the crate is public (`ReleasePlan.ExternalReleaseIsPlannedIffPublic`).
  The publication preflight refuses it unless that release is public all the same.
- A rerun that starts before the index shows the last upload uploads it again
  and is refused by the registry (`Publish.RerunBeforeIndexIsRefused`). Second
  attempts happen exactly as `Publish.RefusedIffSecondAttempt` says, only after an
  index check that missed the version (`Publish.RefusalFollowsMissedCheck`), and
  are then always refused (`Publish.LagMeansRefusal`).
- A relink at the very timestamp of the previous stamp is lost
  (`Rebuild.TieLosesRelink`); file times miss a restart exactly in that case
  (`Rebuild.StaleIffDirty`).
- A tool that waits for a service of the builder's own name to complete waits
  forever once the builder is a watcher (`DevPlan.NamesakeBuilderNeverCompletes`);
  `DevPlan.CompletionAwaitedOnlyOfJobs` has the exact condition.
- The order controller reads the status before the transition and reports that
  older status: a paid order cancelled with a report of `pending` never gives its
  stock back (`OrderWorker.StaleReportExample`). The books are off by exactly the
  sum of such shifts (`OrderWorker.DriftIsShifts`), which only loses stock
  (`OrderWorker.PastReportsOnlyLose`).
- A manifest that holds U+007F cannot be printed (`TomlLegal.DeleteInDescription`):
  JSON escaping leaves that character raw and TOML forbids it. For a dictionary the
  text is legal exactly without it (`TomlLegal.LegalIff`).
- A passed collision check can still fail while copying, when one dependency's
  file lies on the way to another's (`Eject.PassedCheckMayBlock`);
  `Eject.Project.EjectDependencies` gives the exact condition.

## Model

| member | source | states |
|---|---|---|
| `Graphs.LayeredSort` | scripts/rust_release.py:119-130 | The loop that takes ready crates succeeds exactly on acyclic graphs, returns the layered order, and on failure reports exactly the names that reach a cycle; it terminates. |
| `Graphs.LayeredOrderUnique` | scripts/rust_release.py:119-130 | Only one list is strictly increasing in (longest dependency chain, name). |
| `Graphs.LayeredOrderIsTopological` | scripts/rust_release.py:119-130 | A layered order lists nothing twice and every dependency earlier. |
| `Graphs.LayeredOrderMeansAcyclic` | scripts/rust_release.py:123-124 | A graph that has a layered order has no cycle. |
| `Graphs.LongChainsCycle` | scripts/rust_release.py:123-124 | A chain as long as the graph is large repeats a node. |
| `Graphs.CyclicIffReached` | scripts/rust_release.py:123-124 | There is a cycle exactly when some node leads into one. |
| `Graphs.StuckMeansCyclic` | scripts/rust_release.py:121-124 | When nothing is ready, the pending names are exactly those that lead into a cycle. |
| `Graphs.HeightUnique` | scripts/rust_release.py:121-130 | The longest chain of a node has one length. |
| `Graphs.DependenciesAreBefore` | scripts/rust_release.py:121-130 | A dependency has a shorter longest chain. |
| `ReleasePlan.CheckInventory` | scripts/rust_release.py:39-51 | The inventory is refused exactly for an invalid or duplicate name or a key inherited from nowhere, private crates included. |
| `ReleasePlan.ReadDependencies` | scripts/rust_release.py:79-112 | The scan of the dependency tables succeeds exactly when every entry is publishable, and collects the sibling names and the framework pins; `ReleasePlan.EntryIff` spells out which entries are. |
| `ReleasePlan.EntryIff` | scripts/rust_release.py:81-112 | An entry is publishable exactly when it has no `git` and its path, if any, leads to a framework crate at its exact `=` pin or to a public crate of the scope under its name, at its version unless it is an unversioned development entry. |
| `ReleasePlan.InventoryIff` | scripts/rust_release.py:39-51 | An inventory is accepted exactly when every owned crate's name is `forklaunch-` and then lower-case letters, digits and dashes, no other crate has it, and no key is inherited from nowhere. |
| `ReleasePlan.CrateIff` | scripts/rust_release.py:71-80 | A crate may be published exactly when its registry is crates.io, its version, description, license and repository are non-empty texts of its own or the workspace's, and all its entries are publishable. |
| `ReleasePlan.CollectPackages` | scripts/rust_release.py:62-118 | Collecting succeeds exactly when every check but the cycle check passes, and yields every published crate. |
| `ReleasePlan.ReleasePlan` | scripts/rust_release.py:62-130 | Planning succeeds exactly for valid acyclic scopes and returns the plan; it is refused as invalid exactly when the fields of some manifest break a rule, and a cycle error names exactly the crates that lead into a cycle. |
| `ReleasePlan.ValidIffFields` | scripts/rust_release.py:62-118 | The checks before the cycle check pass exactly when the manifests' fields obey the rules, stated without the planner's functions. |
| `ReleasePlan.PlannedFields` | scripts/rust_release.py:62-118 | Every planned crate is a public crate of the scope at its version, and none of its entries has `git` or a path that is not an exact framework pin or a public sibling. |
| `ReleasePlan.PlanUnique` | scripts/rust_release.py:119-130 | A scope has one release plan. |
| `ReleasePlan.PlannedMeansPlans` | scripts/rust_release.py:119-130 | Whatever is a plan is one that planning returns: the scope plans. |
| `ReleasePlan.GraphClosed` | scripts/rust_release.py:98-112 | Every dependency of a planned crate is itself planned. |
| `ReleasePlan.PlanIsInDependencyOrder` | scripts/rust_release.py:119-130 | The plan is a permutation of the published crates, each after all its dependencies. |
| `ReleasePlan.DependenciesAreThePinnedPaths` | scripts/rust_release.py:97-112 | A crate depends on another exactly when a path entry resolves to it, unversioned development entries apart; each such entry names its target and pins its planned version. |
| `ReleasePlan.ExternalsAreTheExactPins` | scripts/rust_release.py:90-97 | External releases are exactly the non-development paths into the framework, pinned with `=` at the framework crate's version. |
| `ReleasePlan.PlannedIffPublic` | scripts/rust_release.py:72-75 | The framework plan publishes a crate's release exactly when the crate is not private. |
| `ReleasePlan.ExternalReleaseIsPlannedIffPublic` | scripts/rust_release.py:90-97 | The framework release a blueprint pins is one the framework plan publishes exactly when the crate is not private. |
| `ReleasePlan.PrivatePinIsPlanned` | scripts/rust_release.py:90-97 | A tree with a private framework crate that a public blueprint crate pins: both scopes plan, and the pinned release is not in the framework plan. |
| `Bump.VersionKeyParts` | scripts/rust_release.py:144-145 | A version has a key exactly when every part between its dots is a number, and the key is those numbers in order. |
| `Bump.VersionKeyRoundTrip` | scripts/rust_release.py:144-145 | Numbers written between dots are read back. |
| `Bump.ReleaseIff` | scripts/rust_release.py:136 | A release version is three non-empty groups of digits between two dots. |
| `Bump.TripleAbove` | scripts/rust_release.py:157-162 | A version of three numbers is above another exactly when it has the larger number where the two first differ. |
| `Bump.KeyLessIff` | scripts/rust_release.py:157-162 | Of two keys of any lengths the smaller is the one with the smaller number at the first difference, or the one that ends there. |
| `Bump.MarkerKept` | scripts/rust_release.py:198-206 | Repinning keeps the `=` marker and pins the new version; an empty pin stays empty. |
| `Bump.RepinIdempotent` | scripts/rust_release.py:198-216 | Repinning a manifest twice is repinning it once. |
| `Bump.OnlyMovingPinsChange` | scripts/rust_release.py:188-211 | A bump changes exactly the version pins on crates that inherit a workspace version, each to the new version behind the `=` it had, and nothing else in a manifest. |
| `Bump.MovingCratesInherit` | scripts/rust_release.py:188-195 | The moving crates are exactly those that inherit a workspace version. |
| `Bump.LinkMoves` | scripts/rust_release.py:81-112 | A dependency entry the plan accepts is accepted after the bump and means the same target, at the moved version. |
| `Bump.CrateMoves` | scripts/rust_release.py:148-181 | A publishable crate stays publishable, with the same dependencies and moved versions. |
| `Bump.PackagesMove` | scripts/rust_release.py:148-181 | The packages after the bump are those before it with their versions moved. |
| `Bump.BumpKeepsValid` | scripts/rust_release.py:148-181 | Every planning check that passed passes after the bump. |
| `Bump.BumpKeepsReleasePlannable` | scripts/rust_release.py:148-181 | From a tree that plans, an allowed bump leads to a tree that plans. |
| `Bump.BumpKeepsReleaseOrder` | scripts/rust_release.py:148-181 | The plan after the bump is the plan before it, entry by entry, with moved versions. |
| `Bump.EveryPackageMovedOrVendored` | scripts/rust_release.py:176-180 | After any bump a planned crate is at the new version or has a version of its own. |
| `Bump.VersionsIncrease` | scripts/rust_release.py:157-162 | Over any run of bumps both versions increase, with the larger number where they first differ, and end equal. |
| `Bump.NoVersionReturns` | scripts/rust_release.py:157-162 | No version comes back in a run of bumps. |
| `Bump.Checkout.Repin` | scripts/rust_release.py:198-211 | The rewritten manifest, and whether it differs. |
| `Bump.Checkout.RepinWorkspace` | scripts/rust_release.py:172-175 | All manifests of a workspace repinned, and exactly which changed. |
| `Bump.Checkout.Bump` | scripts/rust_release.py:148-181 | A refused version changes nothing; otherwise the tree is the bumped one and the command succeeds exactly when both scopes plan, which they do if they did before; the "did not move" error never occurs; the changed manifests are reported. |
| `Archives.ReadComparableFiles` | scripts/rust_release.py:322-343 | Reading an archive member by member refuses exactly the unreadable archives and yields the compared files. |
| `Archives.FilesOfMember` | scripts/rust_release.py:329-338 | The compared files are exactly the archive's regular files, with contents and permission bits, save the two generated ones. |
| `Archives.ReadableIff` | scripts/rust_release.py:322-343 | An archive is readable exactly when it is a tarball of files and directories with relative paths without `..`, each once and below the package's root, one of them the manifest with the package's name and version. |
| `Archives.CheckedArchiveIff` | scripts/rust_registry.py:43-50 | An archive is found exactly at its resolved path, inside the release directory, with the recorded checksum. |
| `Archives.EscapeRefused` | scripts/rust_registry.py:43-50 | A path that climbs out of the release directory is refused, whatever lies there. |
| `Archives.PackagesIffListed` | scripts/rust_release.py:329-338 | An archive packages a file exactly when the compared files list it. |
| `Archives.AcceptedReuseAgrees` | scripts/rust_release.py:379-392 | Acceptance of a reuse means the carried and the fresh archive agree on every compared file and mode. |
| `Archives.AcceptedIff` | scripts/rust_release.py:379-392 | The checks accept a package exactly when its archive is intact and a recorded reuse is true of an intact fresh archive that packages the same files. |
| `Archives.SamePackageIff` | scripts/rust_release.py:322-343 | Two archives have equal compared files exactly when both are readable and package the same files with the same contents and permission bits, the two generated ones apart. |
| `Archives.ReuseIsAccepted` | scripts/rust_release.py:346-392 | What a reuse writes, both archive checks accept. |
| `Archives.AcceptedProvenanceDetermined` | scripts/rust_release.py:379-392 | For one fresh archive, acceptance fixes everything a reuse records but where it came from: the source checksum, the compared files and their digest, and the ignored files. |
| `Archives.RegistryArchiveMatches` | scripts/rust_release.py:533-585 | A carried registry archive passes the comparison with the registry. |
| `Archives.UploadedFile` | scripts/rust_release.py:575-579 | The compared registry files are, for each path but the lock file, the last member's contents. |
| `Archives.MatchMeansSameFiles` | scripts/rust_release.py:569-585 | Passing the comparison means the registry serves exactly the carried files, the lock file apart. |
| `Archives.MatchesIffSameRelease` | scripts/rust_release.py:569-585 | The comparison with the registry passes exactly when the registry's archive has its checksum, the carried one is intact, both hold ordinary members, and both extract to the same files, the lock file apart. |
| `Archives.CrateFilesDiffer` | scripts/rust_release.py:411 | Different packages get different archive file names. |
| `Archives.OtherStaysAccepted` | scripts/rust_release.py:404-422 | Preparing one package leaves every other package accepted. |
| `Archives.Preparation.Reuse` | scripts/rust_release.py:352-376 | A reuse happens exactly for equal packaged contents; then the package carries the other archive and is accepted; otherwise nothing changes. |
| `Archives.Preparation.ReuseVerified` | scripts/rust_release.py:346-376 | The step succeeds exactly when a prior release of this version, if any, has intact and equal contents; without one it changes nothing. |
| `Archives.Preparation.ReuseRegistry` | scripts/rust_release.py:533-566 | The same against the registry, refused for a yanked version and skipped for a package that already reuses; a reused archive matches the registry. |
| `Archives.Preparation.AddPackage` | scripts/rust_release.py:404-412 | The fresh archive is recorded with its checksum and touches no other package's files. |
| `Archives.Preparation.PrepareOne` | scripts/rust_release.py:404-422 | One package is prepared exactly when its packaged manifest keeps no path dependency and its reuses agree with the fresh contents, and is then accepted. |
| `Archives.PreparableIff` | scripts/rust_release.py:346-376 | A package can be prepared exactly when its manifest keeps no path dependency and the archive it is to carry, an earlier release's or else the published one, is intact, not yanked and packages the same files as the fresh one. |
| `Archives.PathFreeIff` | scripts/rust_release.py:413-418 | A package keeps no path dependency exactly when the last member at its manifest's path is a manifest without one. |
| `Archives.Preparation.Prepare` | scripts/rust_release.py:395-422 | Preparation succeeds exactly when every packaged manifest is there without a path dependency, no published version it would carry is yanked, and every reused archive agrees with fresh packaging; then both checks accept every package, and carried registry archives match the registry. |
| `Publish.PlannedItemsOrdered` | scripts/rust_release.py:467-472 | Items equal to the plan have distinct names, and every dependency of an item is an earlier item. |
| `Publish.NeedsAreVisible` | scripts/rust_release.py:588-615 | When a crate is about to be uploaded, everything it needs has been seen in the index. |
| `Publish.AcceptedWithItsDependencies` | scripts/rust_release.py:593-603 | When a step makes the registry accept a crate, every planned dependency is an earlier item of the release, accepted, and named in the new entry; so is every framework pin; and the entry names nothing else. |
| `Publish.NextKeeps` | scripts/rust_release.py:434-615 | Every step of a run, a crash, an index update or a yank keeps the invariant, and the registry only grows. |
| `Publish.HistoryKeeps` | scripts/rust_release.py:434-615 | The invariant holds at every moment of every history of runs of both scopes, crashes and reruns. |
| `Publish.RegistryAlwaysClosed` | scripts/rust_release.py:467-480 | A published crate's dependencies and framework pins are published, always. |
| `Publish.UploadedOnce` | scripts/rust_release.py:588-604 | In any history what the registry accepted stays as it was, and it accepted each version once. |
| `Publish.AttemptedOnceUnlessMissed` | scripts/rust_release.py:598-603 | Over any crashes and reruns the command attempts to upload a version at most once, and never one the registry had before, unless an index check missed it. |
| `Publish.RefusedIffSecondAttempt` | scripts/rust_release.py:598-603 | The registry has refused a version exactly when some step of the history uploaded it although it was accepted already. |
| `Publish.MissedIffMissedCheck` | scripts/rust_release.py:598-601 | The log of missed versions holds exactly those that some index check missed. |
| `Publish.RefusalFollowsMissedCheck` | scripts/rust_release.py:598-603 | Every refused upload comes after an index check that missed the version. |
| `Publish.ReceiptFileTruthful` | scripts/rust_release.py:605-611 | Every receipt file lists verified packages in plan order; `complete` holds exactly when it lists all. |
| `Publish.ReceiptFileFollowsRun` | scripts/rust_release.py:592-611 | Past its first package, a run's receipts are exactly those in the file. |
| `Publish.ReceiptTellsReuse` | scripts/rust_release.py:599-606 | A receipt says `reused` exactly when the registry had the version before the run, that is, when the run did not upload it. |
| `Publish.NoRefusalWithoutLag` | scripts/rust_release.py:598-603 | If every index check sees what was accepted, no second upload is attempted in any history. |
| `Publish.LagMeansRefusal` | scripts/rust_release.py:598-603 | After an index check that missed an accepted version, every upload of it is refused, in that run or any later one. |
| `Publish.RerunBeforeIndexIsRefused` | scripts/rust_release.py:512-520 | A history in which the wait times out and the rerun is refused. |
| `Publish.CarriedPackagePassesWithoutUpload` | scripts/rust_release.py:533-540 | A package that carries what the registry shows is found and verified at its turn, without an upload, in any later state; a yanked one stops the run. |
| `Publish.CarriedIsNeverUploadedAgain` | scripts/rust_release.py:533-540 | The same in every continuation of a history. |
| `Publish.IndexShows` | scripts/rust_release.py:493-509 | The index shows exactly the accepted releases it has caught up with, with their archives, and exactly the yanks. |
| `Publish.PrepareItems` | scripts/rust_release.py:395-432 | The report's items are the plan's, prepared and accepted, exactly when every package can be prepared. |
| `Publish.Publisher.PrepareRelease` | scripts/rust_release.py:395-432 | Succeeds exactly when the scope plans and every package can be prepared against the index read now; a package whose version that index shows is then never uploaded again, in any continuation. |
| `Publish.Publisher.Preflight` | scripts/rust_release.py:434-490 | The preflight accepts exactly a clean, verified, tagged report equal to the checked-out plan, with its framework pins public and its archives accepted. |
| `Publish.TagsDiffer` | scripts/rust_release.py:474-475 | No tag publishes both scopes, whatever their versions. |
| `Publish.Publisher.Look` | scripts/rust_release.py:493-509 | A look shows everything accepted that has reached the index by then. |
| `Publish.Publisher.WaitForVersion` | scripts/rust_release.py:512-520 | Waiting succeeds exactly when a look shows the version and it is not yanked. |
| `Publish.Publisher.UploadAndWait` | scripts/rust_release.py:602-603 | Uploads once; the registry keeps a version it has; succeeds exactly when the version is then shown and not yanked. |
| `Publish.Publisher.FindOrUpload` | scripts/rust_release.py:598-603 | Uploads exactly a version neither shown nor accepted; succeeds exactly when the version is then shown and not yanked. |
| `Publish.Publisher.PublishOne` | scripts/rust_release.py:593-611 | One package succeeds exactly when the registry shows it, not yanked, with the prepared files. |
| `Publish.Publisher.PublishAll` | scripts/rust_release.py:593-613 | The loop ends past the last package, or at one that is not released. |
| `Publish.Publisher.Finish` | scripts/rust_release.py:605-615 | At the end of the plan every package is released and the receipt file is complete. |
| `Publish.Publisher.Publish` | scripts/rust_release.py:588-615 | The command takes only protocol steps, refuses exactly what the preflight refuses, changes nothing without `--upload`, and finishes exactly when every package is released, with a complete receipt file. |
| `Services.ActiveServices` | cli/src/dev.rs:607-644 | Fails exactly for an unknown selected name; with dependencies it returns exactly the names reachable through `depends_on`, also on cyclic graphs, and whatever an active service waits for is active. |
| `Services.AddDependencies` | cli/src/dev.rs:628-636 | One pass adds the dependencies of every active service and nothing unreachable. |
| `Services.ReachableIsLeastClosed` | cli/src/dev.rs:626-641 | The reachable names are the least closed superset of the selection. |
| `CacheVolumes.CandidatesDiffer` | cli/src/dev.rs:1070-1081 | Suffixed candidates are pairwise different, which makes the search end. |
| `CacheVolumes.FreeName` | cli/src/dev.rs:1070-1081 | The first candidate that is not taken. |
| `CacheVolumes.CacheNames` | cli/src/dev.rs:1069-1083 | Three pairwise different fresh names, each the first free one of its kind. |
| `CacheVolumes.MountAll` | cli/src/dev.rs:1198-1209 | The retain-and-push loop computes the injected mounts. |
| `CacheVolumes.InjectedOnce` | cli/src/dev.rs:1198-1209 | Every injected target ends up mounted exactly once, by the last mount injected there. |
| `CacheVolumes.OthersKeepOrder` | cli/src/dev.rs:1198-1209 | Every other mount stays, in order. |
| `DevPlan.RewriteAll` | cli/src/dev.rs:1108-1241 | Rewriting fails exactly on a native service with a custom command or entrypoint; otherwise exactly the native active services are rewritten. |
| `DevPlan.PlannableIff` | cli/src/dev.rs:1117-1143 | An active service is refused exactly when it names a generated binary and has an entrypoint of its own, or names none and is called like one. |
| `DevPlan.AddBuilder` | cli/src/dev.rs:1244-1307 | Every changed service waits for the builder, which is added. |
| `DevPlan.Select` | cli/src/dev.rs:1084-1100 | The packages and (package, binary) pairs of exactly the native active services, in order. |
| `DevPlan.PlanWith` | cli/src/dev.rs:1069-1320 | The planned file with its changed services and fresh cache volumes, or a refusal; its builder runs the build script for exactly the binaries of the rewritten services, once without reloads and behind its watcher with them, and without reloads each rewritten service runs that build and then its own command. |
| `DevPlan.BuilderBuildsTheNativeServices` | cli/src/dev.rs:1266-1281 | The rebuild script's scan of the builder's arguments, which are the command cut at its spaces, finds exactly the binaries of the rewritten services. |
| `DevPlan.BuilderIsExact` | cli/src/dev.rs:1266-1281 | The builder's entrypoint starts the build script, or the rebuild script behind its first `--`, with arguments that scan to exactly the rewritten services' binaries. |
| `DevPlan.CommandWords` | cli/src/dev.rs:1266-1270 | The build command, cut at its spaces, is the build script with every `--package` and `--bin`. |
| `DevPlan.BuilderPackages` | cli/src/dev.rs:1100-1107 | The arguments name a package exactly when some rewritten service's binary belongs to it. |
| `DevPlan.SharedWithTheBuilder` | cli/src/dev.rs:1198-1209 | Every rewritten service and the builder mount the source tree, the build output and both Cargo caches, each exactly once and from the same source. |
| `DevPlan.SharedSettings` | cli/src/dev.rs:1184-1217 | They run in one image and build into one directory, offline. |
| `DevPlan.RewriteKeepsTheRest` | cli/src/dev.rs:1184-1217 | A rewritten service keeps its restart policy, its other settings, its own environment, and its own mounts in their order. |
| `DevPlan.EveryNativeServiceIsBuilt` | cli/src/dev.rs:76-86 | The planned builder builds exactly the rewritten services' binaries, among them the one a rewritten service runs and whose stamp it waits for. |
| `DevPlan.PlanStaysAcyclic` | cli/src/dev.rs:1295-1307 | An acyclic start order stays acyclic, whatever the services are called. |
| `DevPlan.NativeServicesAwaitTheBuild` | cli/src/dev.rs:1295-1307 | A rewritten service waits for the single build exactly when its `depends_on` is absent or an object; its other dependencies stay. |
| `DevPlan.CompletionAwaitedOnlyOfJobs` | cli/src/dev.rs:1173-1177 | No process that never exits is awaited to complete, exactly when no untouched service waits for a watching builder's completion. |
| `DevPlan.NamesakeBuilderNeverCompletes` | cli/src/dev.rs:1295-1306 | A Compose file with a service of the builder's name and a tool that waits for it to complete: the plan leaves the tool waiting for a watcher. |
| `DevPlan.OneShotsAreNotWatched` | cli/src/dev.rs:766-773 | A rewritten service gets the restarting entrypoint exactly in watch mode and when it is not a one-shot job: `restart: no`, or awaited to complete by some service. |
| `DevPlan.OthersUntouched` | cli/src/dev.rs:1306 | A service outside the changes is unchanged, exactly unless it has the builder's name. |
| `DevPlan.FileNameBelow` | cli/src/dev.rs:1119-1128 | A file name keeps its meaning below any directory. |
| `DevPlan.FileNameEnds` | cli/src/dev.rs:1124-1126 | The file name is the last part of a path, also before a slash or `/.`; `..` has none. |
| `DevPlan.RewriteKeepsBinary` | cli/src/dev.rs:1145-1146 | A rewritten service runs the binary it named, with its arguments. |
| `WatchPaths.Separator` | cli/src/dev.rs:860 | The first `--`, or the end. |
| `WatchPaths.StartsWithIff` | cli/src/dev.rs:855-858 | A path is covered by a root of its own kind exactly when it is the root followed by further parts. |
| `WatchPaths.OnlyCoversBelow` | cli/src/dev.rs:855-858 | A directory covers what lies below it and is not covered by it. |
| `WatchPaths.WatchList.WatchNativePath` | cli/src/dev.rs:842-865 | False exactly without a reload builder; otherwise the list is extended unless a watched path covers the target. |
| `WatchPaths.WatchingKeepsCommand` | cli/src/dev.rs:855-863 | The command behind the separator and the options in front of it stay, at most the target's pair is added between them, the target is covered, and a second call changes nothing. |
| `WatchPaths.CoverSurvives` | cli/src/dev.rs:855-863 | A covered path stays covered. |
| `WatchPaths.WatchingAllCovers` | cli/src/dev.rs:842-865 | After any sequence of calls the command is the same and every requested path is covered. |
| `WatchPaths.WatchingAllIdempotent` | cli/src/dev.rs:842-865 | Repeating a sequence of calls changes nothing. |
| `WatchPaths.NothingLeftToWatch` | cli/src/dev.rs:856-858 | Covered paths add nothing. |
| `Rebuild.BuildCommand` | cli/src/dev.rs:1101-1107 | The command is the joined argument list of the selection. |
| `Rebuild.CommandSplits` | cli/src/dev.rs:1266-1270 | Splitting at spaces gives the arguments back when no name has a space. |
| `Rebuild.SelectionRecovered` | cli/src/dev.rs:76-86 | The script's scan finds exactly the selected binaries; the same list exactly when none but the last is called `--bin`. |
| `Rebuild.FoundExactly` | cli/src/dev.rs:76-86 | What the scan finds among `--bin` flags, as a list and as a set. |
| `Rebuild.StaleIffDirty` | cli/src/dev.rs:80 | File times ask for a restart exactly when the binary is new or was relinked since its stamp, ties apart. |
| `Rebuild.StrictGap` | cli/src/dev.rs:80 | With strictly ordered times a relink after a stamp has a later time. |
| `Rebuild.TieLosesRelink` | cli/src/dev.rs:80 | Equal times lose a relink. |
| `Rebuild.DirtyAfterStamps` | cli/src/dev.rs:81-82 | Stamping settles exactly the stamped binaries. |
| `Rebuild.Builder.Build` | cli/src/dev.rs:70-73 | A build, failed or not, changes no stamp. |
| `Rebuild.Builder.StampIfStale` | cli/src/dev.rs:79-83 | One binary is stamped exactly when its file times ask for it. |
| `Rebuild.Builder.StampSelected` | cli/src/dev.rs:75-86 | The loop stamps once each exactly the selected binaries that need it. |
| `Rebuild.Builder.Rebuild` | cli/src/dev.rs:67-91 | A failed build stamps nothing; a successful one restamps exactly the selected binaries without a stamp or relinked since, relinks of earlier failed builds included, and leaves none needing a restart. |
| `Supervise.Supervisor.Turn` | cli/src/dev.rs:1356-1425 | One turn: an exit after an interrupt returns Ok and stops the rest, other exits report success or failure, and a live child gets exactly the due escalation and the new interrupt. |
| `Supervise.Supervisor.Escalate` | cli/src/dev.rs:1374-1404 | The escalation that is due, and no other. |
| `Supervise.Supervisor.Forward` | cli/src/dev.rs:1405-1423 | New interrupts drop the watchers and are forwarded as one. |
| `Supervise.TurnSends` | cli/src/dev.rs:1374-1423 | A turn sends the forced stop 30 seconds and the kill 45 seconds after the first interrupt, each once, and then exactly one interrupt whenever the user interrupted again; it remembers the first interrupt's time. |
| `Supervise.TurnKeeps` | cli/src/dev.rs:1356-1425 | Every turn keeps the signals orderly and the watchers dropped once interrupted. |
| `Supervise.KillsAreLastResorts` | cli/src/dev.rs:1374-1398 | At any time, at most one kill was sent, after grace plus force since the first forwarded interrupt, in a strictly later turn than the forced stop. |
| `Supervise.KillIsLastResort` | cli/src/dev.rs:1374-1398 | The same for any orderly list of signals. |
| `Supervise.Run` | cli/src/dev.rs:1356-1425 | With an advancing clock, a fatal kill and an interrupt by some turn, the loop ends; an interrupted run that ends returns Ok. |
| `OrderWorker.AdjustAllMoves` | blueprint/implementations/ecommerce/base/services/inventory.service.ts:93-141 | A transaction moves each variant by its total quantity and drives none below zero. |
| `OrderWorker.AdjustAllFails` | blueprint/ecommerce-stripe/worker.ts:41-53 | One failing item fails the transaction. |
| `OrderWorker.TakingSucceeds` | blueprint/implementations/ecommerce/base/services/inventory.service.ts:93-141 | Taking non-negative quantities succeeds exactly when every variant has a record with enough stock for all its items together. |
| `OrderWorker.PuttingBackSucceeds` | blueprint/implementations/ecommerce/base/services/inventory.service.ts:93-141 | Putting them back succeeds exactly when every variant has a record. |
| `OrderWorker.ApplyMoves` | blueprint/ecommerce-stripe/worker.ts:55-78 | A successful event moves the stock by its net quantities. |
| `OrderWorker.ApplySucceeds` | blueprint/ecommerce-stripe/worker.ts:55-78 | An event of non-negative quantities fails exactly at a fault, when it takes more than there is, or when a variant has no record. |
| `OrderWorker.ProcessedInTurn` | blueprint/ecommerce-stripe/worker.ts:18-90 | The event at each position is marked processed, or reported failed, by that rule on the stock its predecessors leave. |
| `OrderWorker.ProcessMoves` | blueprint/ecommerce-stripe/worker.ts:18-90 | A batch moves the stock by exactly its events that did not fail, and keeps it non-negative. |
| `OrderWorker.ProcessPartitions` | blueprint/ecommerce-stripe/worker.ts:21-89 | Succeeded and failed events partition the batch. |
| `OrderWorker.ProcessMarks` | blueprint/ecommerce-stripe/worker.ts:80 | An event is marked processed exactly when it took effect in its turn. |
| `OrderWorker.RequeuedOrDropped` | blueprint/implementations/worker/redis/consumers/redisWorker.consumer.ts:45-55 | A failed event is requeued or dropped for good, and nothing else. |
| `OrderWorker.RequeuedAre` | blueprint/implementations/worker/redis/consumers/redisWorker.consumer.ts:45-55 | Exactly the failed events retried at most three times go back, each with one more retry, with their multiplicities. |
| `OrderWorker.DroppedAre` | blueprint/implementations/worker/redis/consumers/redisWorker.consumer.ts:45-55 | Exactly the failed events retried more than three times are lost. |
| `OrderWorker.Worker.ApplyStockDeltas` | blueprint/ecommerce-stripe/worker.ts:41-53 | All items or none; taking succeeds exactly when the stock covers the items, putting back exactly when every variant has a record. |
| `OrderWorker.Worker.ProcessOrderEvents` | blueprint/ecommerce-stripe/worker.ts:18-90 | The loop computes the batch function; an event without a fault fails exactly when the stock left by its predecessors does not allow it. |
| `OrderWorker.Worker.Consume` | blueprint/implementations/worker/redis/consumers/redisWorker.consumer.ts:65-72 | One turn of the consumer is one consuming step of the shop; requeued events come behind those not yet read. |
| `OrderWorker.TransitionShift` | blueprint/ecommerce-stripe/api/controllers/order.controller.ts:96-129 | A transition moves the books by the order's quantity exactly when it cancels with an inaccurate report, from any state. |
| `OrderWorker.StaleReportBreaksBalance` | blueprint/ecommerce-stripe/api/controllers/order.controller.ts:96-129 | The books stay balanced exactly when the reported status agrees on restocking, or the order holds nothing. |
| `OrderWorker.StaleReportExample` | blueprint/ecommerce-stripe/api/controllers/order.controller.ts:96-129 | A paid order cancelled with a report of `pending` loses its stock. |
| `OrderWorker.ConsumeKeepsDrift` | blueprint/ecommerce-stripe/worker.ts:18-90 | Processing a page and requeueing its failures leaves the books as far off as they were and the stock non-negative. |
| `OrderWorker.LoseKeepsDrift` | blueprint/implementations/worker/redis/consumers/redisWorker.consumer.ts:65-72 | A lost event stays accounted for. |
| `OrderWorker.StepShifts` | blueprint/implementations/ecommerce/base/services/order.service.ts:144-192 | New orders, legal transitions with any reported status, consuming and losing events move the books by exactly the step's shift. |
| `OrderWorker.DriftIsShifts` | blueprint/ecommerce-stripe/worker.ts:18-90 | At every moment of every run, stale reports included, the books are off by exactly the shifts so far, and stock never goes negative. |
| `OrderWorker.BalancedIffShiftsCancel` | blueprint/ecommerce-stripe/worker.ts:18-90 | The books balance at a moment exactly when the shifts so far cancel out. |
| `OrderWorker.AlwaysBalanced` | blueprint/ecommerce-stripe/worker.ts:18-90 | While every cancellation reports accurately whether stock was taken, stock plus outstanding events is the initial stock less what orders hold, at every moment. |
| `OrderWorker.PastReportsOnlyLose` | blueprint/ecommerce-stripe/api/controllers/order.controller.ts:96-129 | Reports of statuses the order has had only ever lose stock, and the loss never shrinks. |
| `OrderWorker.SettledStock` | blueprint/ecommerce-stripe/worker.ts:18-90 | With an empty queue the stock is the initial stock less what orders hold, exactly when lost events make up for the shifts. |
| `TomlText.BodyRead` | scripts/rust_registry.py:25-26 | An escaped string reads back, in front of any text. |
| `TomlText.ValueRead` | scripts/rust_registry.py:22-33 | decode(print(v) + tail) is (v, tail) for values of any nesting and any delimiter; the strict reader does the same for legal values. |
| `TomlText.EntryRead` | scripts/rust_registry.py:32 | A key and its value read back. |
| `TomlText.NumberIsCanonical` | scripts/rust_registry.py:27-28 | Only the numeral the printer writes is read as a number. |
| `TomlText.PrintDeterminesValue` | scripts/rust_registry.py:22-33 | Equal texts come from equal values. |
| `TomlText.ManifestRead` | scripts/rust_registry.py:36-40 | A manifest's text splits back into its keys and values, for the strict reader if they are legal. |
| `TomlText.ManifestTextDeterminesManifest` | scripts/rust_registry.py:36-40 | Different manifests have different texts. |
| `TomlText.PrintClean` | scripts/rust_registry.py:25-33 | In the text of a value no control character stays raw but U+007F, and that exactly when a string or key holds it. |
| `TomlLegal.ValueConsumed` | scripts/rust_registry.py:22-33 | What the strict reader takes has distinct keys in every table and was written without a raw U+007F; the lax reader takes it alike. |
| `TomlLegal.LegalIff` | scripts/rust_registry.py:36-40 | The strict reader accepts a manifest's text exactly when every table has distinct keys and no string or key holds U+007F; it then reads the manifest back. |
| `TomlLegal.CheckRefusesExactlyDelete` | scripts/rust_registry.py:36-40 | For a dictionary the printer's check of its own text refuses exactly the manifests that hold U+007F. |
| `TomlLegal.DeleteInDescription` | scripts/rust_registry.py:36-40 | A manifest with U+007F in its description is refused. |
| `Decimals.Decimal` | scripts/rust_registry.py:27-28 | A numeral reads back as its number. |
| `Decimals.SplitJoin` | cli/src/dev.rs:1266-1270 | Splitting undoes joining when no part has the separator. |
| `EmojiRanges.Merge` | scripts/rust_zod_emoji_table.py:21-26 | The merged ranges are canonical and cover the same code points. |
| `EmojiRanges.ExtendCovers` | scripts/rust_zod_emoji_table.py:23-26 | One step of the loop adds exactly the range's code points. |
| `EmojiRanges.CanonicalUnique` | scripts/rust_zod_emoji_table.py:21-26 | There is one canonical list per coverage. |
| `EmojiRanges.CanonicalShortest` | scripts/rust_zod_emoji_table.py:21-26 | No list with the same coverage is shorter. |
| `Eject.Project.DetectCollisions` | cli/src/eject.rs:310-383 | Passes exactly when no plain target is a file, a directory or on the way to a file, and each has one source. |
| `Eject.Project.CopyFile` | cli/src/eject.rs:73-85 | A file is written exactly when nothing lies in its way. |
| `Eject.Project.CopyTree` | cli/src/eject.rs:54-89 | Copies every file but `index.ts`, exactly when all of them fit; a failed copy has removed nothing and written only files of the folder. |
| `Eject.Project.CopyAll` | cli/src/eject.rs:157-207 | Dependency after dependency; completes exactly when every folder exists and all files fit; stopped midway, it has removed nothing and written only dependencies' files. |
| `Eject.Project.EjectDependencies` | cli/src/eject.rs:137-207 | Whatever the outcome, every old file stays as it was and every new one is a dependency's; the exact condition for completing. |
| `Eject.GatherIndexFiles` | cli/src/eject.rs:396-422 | Every `index.ts` target with its sources in dependency order. |
| `Eject.Project.MergeIndexFiles` | cli/src/eject.rs:385-459 | Each merged file is its old text, rendered or on disk, followed by every source in dependency order; all other rendered files stay. |
| `Eject.ContentsOfBringers` | cli/src/eject.rs:396-422 | The texts merged for a path are those of exactly the dependencies that bring it, in their order. |
| `Eject.LinesSplit` | cli/src/eject.rs:425-447 | Cut at its line ends, the merged text gives one-line texts back. |
| `Eject.CopiedAt` | cli/src/eject.rs:157-207 | A brought file is copied with its own content. |
| `Eject.CopiedFrom` | cli/src/eject.rs:157-207 | A copied file was brought by some dependency and is not an `index.ts`. |
| `Eject.OrderDoesNotMatter` | cli/src/eject.rs:157-207 | Ejecting in any order copies the same files. |
| `Eject.PassedCheckMayBlock` | cli/src/eject.rs:310-383 | Sources that pass the check and still cannot all be copied. |
| `Score.GroupBy` | cli/src/score.rs:399-407 | The groups have distinct keys in first-seen order, each with its multiplicity; the counts add up to the number of findings. |
| `Score.AddFinding` | cli/src/score.rs:399-407 | One more finding is counted in its group or opens one. |
| `Score.GroupsUnique` | cli/src/score.rs:399-407 | The findings determine their groups. |
| `Score.CountSorted` | cli/src/score.rs:390 | Sorting keeps every multiplicity. |
| `Score.SortedGroupsDescend` | cli/src/score.rs:390-407 | After the sort each group shows its most severe member and groups descend in severity. |
| `Score.RanksInOrder` | cli/src/score.rs:366-372 | `critical` ranks before `high`, `medium`, `low` and every other severity, in this order. |
| `Score.SeverityOrderStable` | cli/src/score.rs:390 | Findings of one severity keep the order of the report. |
| `Score.PromptGroups` | cli/src/score.rs:366-407 | The prompt's groups: complete, counted against the unsorted findings, most severe first. |
| `Score.GroupCountShowsRepeats` | cli/src/score.rs:671-683 | A rail has as many title groups as different titles, and as many as findings exactly when no title repeats. |
| `Score.SummarizeRail` | cli/src/score.rs:663-692 | The summary of a rail shows the total exactly when a title repeats, and the first titles with their multiplicities. |
| `Collections.SortedNames` | scripts/rust_release.py:122 | The names of a set in strictly ascending order. |
| `Collections.LessIff` | scripts/rust_release.py:122 | Of two names the lesser has the smaller character at the first difference, or ends there. |
| `Collections.SortByStable` | cli/src/score.rs:390 | Items that rank equal keep their order. |

## Left out

Release plan and bump:

- The scope `all`, which lists both inventories and is never prepared or published.
- The order in which planning errors are found: they are one `Invalid`.
- Inherited package keys other than version, description, license and repository.
- The regular expressions that find tables and pins in manifest text: a manifest is a list of dependency entries with a resolved path, an optional version and its `=`. Symbolic links, and digits outside ASCII.
- `dependencies` and `externalDependencies` are sets; the report writes them sorted.

Archives and publication:

- gzip and tar encodings and alternative spellings of one member path.
- `hydrate`, the loading of a prior release, and the verification reports: the preflight sees one flag for a complete receipt.
- The manifest prefix check of the preflight, which the equality with the plan implies; Cargo, `gh` and HTTP errors, which end a run like a crash.
- What Cargo records as dependencies of an upload is taken from the checked-out plan.
- Two publishers at once.

Development:

- Reading the native binaries from project manifests, the early return without any, `develop`/watch rules, healthchecks, the Dockerfile and the builder's ignore globs.
- `forklaunch-native-run`, the process that a stamp restarts.
- DevPlan.SharedWithTheBuilder: for framework checkouts that do not lie at `/app`, at `/app/target` or at one of the two Cargo cache paths, whose mount would take that place.
- WatchPaths.WatchingAllCovers: for absolute paths, which is what the container paths are.
- Supervise: platforms without process groups; what else a turn polls.

Worker:

- OrderWorker.DriftIsShifts: each event is delivered at most once per attempt; redelivery of an event that already took effect is not covered, since the worker keeps no receipt.
- Overlapping consumer intervals and other writers of the stock.

Smaller pieces:

- Floating point numbers in manifests, lone surrogates in strings, and the 64-bit range that a TOML reader may impose on integers.
- The strict TOML reader covers the layout the printer produces, with the rules of TOML v1.0.0 on raw control characters and on repeated keys; other layouts are not read.
- Copying a top-level file through `fs_extra`, which is treated as any other copy; empty directories that a failed copy leaves; dry runs; the string replacements after ejection; an `index.ts` that is a directory aborts the original and is `false` here.
- The text around the grouped findings.
