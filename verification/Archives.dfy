/**
 Prepared crate archives: the checksum-bound archive of every package, the
 reuse of an earlier archive with equal packaged contents, and the checks that
 accept what preparation wrote.

 Hashing is taken to be free of collisions: a digest is a tag around what was
 hashed, so equal digests mean equal contents.
 */
module Archives {
  import opened Collections

  type Path = seq<string>

  /** File contents; a manifest says whether one of its dependencies still is a path. */
  datatype Data = CargoToml(name: string, version: string, pathDependency: bool, rest: string) | Other(text: string)

  datatype Kind = File(data: Data) | Directory | Special

  datatype Member = Member(absolute: bool, path: Path, kind: Kind, mode: nat)

  /** A crate file; `packing` is what compression and timestamps add to the members. */
  datatype Bytes = Tarball(members: seq<Member>, packing: string) | Junk(text: string)

  datatype Digest = Sha256(bytes: Bytes)

  datatype FileEntry = FileEntry(data: Data, mode: nat)

  type Files = map<Path, FileEntry>

  datatype ContentDigest = Sha256OfFiles(files: Files)

  datatype Source = PriorRelease(report: string, commit: string) | CratesIo

  datatype Provenance = Provenance(source: Source, sourceArchive: Digest, sourceRegistry: Digest,
                                   freshArchive: Path, freshDigest: Digest, comparedFiles: nat,
                                   contents: ContentDigest, ignored: seq<string>)

  datatype Package = Package(name: string, version: string, archive: Path, sha256: Digest, reuse: Option<Provenance>)

  // ----- Reading an archive -----

  const GENERATED := ["Cargo.lock", ".cargo_vcs_info.json"]

  function Prefix(name: string, version: string): string {
    name + "-" + version
  }

  predicate Safe(m: Member) {
    !m.absolute && ".." !in m.path && !m.kind.Special?
  }

  predicate Compared(m: Member)
    requires |m.path| > 0
  {
    m.kind.File? && m.path[1..] !in {[GENERATED[0]], [GENERATED[1]]}
  }

  /** Every member is safe and sits under `prefix`, no path occurs twice. */
  predicate Rooted(members: seq<Member>, prefix: string) {
    && (forall i :: 0 <= i < |members| ==> Safe(members[i]) && |members[i].path| > 0 && members[i].path[0] == prefix)
    && (forall i, j :: 0 <= i < j < |members| ==> members[i].path != members[j].path)
  }

  predicate Identified(members: seq<Member>, name: string, version: string) {
    exists i :: 0 <= i < |members| && members[i].path == [Prefix(name, version), "Cargo.toml"]
      && members[i].kind.File? && members[i].kind.data.CargoToml?
      && members[i].kind.data.name == name && members[i].kind.data.version == version
  }

  predicate Readable(bytes: Bytes, name: string, version: string) {
    && bytes.Tarball?
    && Rooted(bytes.members, Prefix(name, version))
    && Identified(bytes.members, name, version)
  }

  /** A relative path without a step upwards, and a file or a directory. */
  predicate OrdinaryMember(m: Member) {
    && !m.absolute && (m.kind.File? || m.kind.Directory?)
    && forall i :: 0 <= i < |m.path| ==> m.path[i] != ['.', '.']
  }

  predicate IsManifest(m: Member, name: string, version: string) {
    && m.path == [name + "-" + version, "Cargo.toml"] && m.kind.File? && m.kind.data.CargoToml?
    && m.kind.data.name == name && m.kind.data.version == version
  }

  /** The archive can be read: ordinary members, each once, all below its root, with the package's own manifest. */
  lemma ReadableIff(bytes: Bytes, name: string, version: string)
    ensures Readable(bytes, name, version) <==>
              && bytes.Tarball?
              && (forall m :: m in bytes.members ==>
                    OrdinaryMember(m) && m.path != [] && m.path[0] == name + "-" + version)
              && (forall i, j :: 0 <= i < j < |bytes.members| ==> bytes.members[i].path != bytes.members[j].path)
              && (exists m :: m in bytes.members && IsManifest(m, name, version))
  {
    forall m ensures Safe(m) <==> OrdinaryMember(m) {
    }
    if bytes.Tarball? && Identified(bytes.members, name, version) {
      var i :| 0 <= i < |bytes.members| && bytes.members[i].path == [Prefix(name, version), "Cargo.toml"]
               && bytes.members[i].kind.File? && bytes.members[i].kind.data.CargoToml?
               && bytes.members[i].kind.data.name == name && bytes.members[i].kind.data.version == version;
      assert bytes.members[i] in bytes.members && IsManifest(bytes.members[i], name, version);
    }
  }

  function FilesOf(members: seq<Member>): Files
    requires forall i :: 0 <= i < |members| ==> |members[i].path| > 0
  {
    if members == [] then map[]
    else
      var last := members[|members| - 1];
      var before := FilesOf(members[..|members| - 1]);
      if Compared(last) then before[last.path[1..] := FileEntry(last.kind.data, last.mode % 512)] else before
  }

  /** The packaged contents to compare; None when the archive is refused. */
  function ComparableFiles(bytes: Bytes, name: string, version: string): Option<Files> {
    if Readable(bytes, name, version) then Some(FilesOf(bytes.members)) else None
  }

  /** The archive packages `data` at `path` with permissions `mode`. */
  predicate Packages(bytes: Bytes, name: string, version: string, path: Path, data: Data, mode: nat) {
    && bytes.Tarball?
    && exists i | 0 <= i < |bytes.members| :: bytes.members[i].path == [Prefix(name, version)] + path
         && bytes.members[i].kind == File(data) && bytes.members[i].mode % 512 == mode
  }

  lemma {:induction false} FilesOfMember(members: seq<Member>, prefix: string, path: Path)
    requires Rooted(members, prefix)
    ensures path in FilesOf(members) <==>
              exists i :: 0 <= i < |members| && Compared(members[i]) && members[i].path == [prefix] + path
    ensures forall i :: 0 <= i < |members| && Compared(members[i]) && members[i].path == [prefix] + path ==>
              path in FilesOf(members)
                  && FilesOf(members)[path] == FileEntry(members[i].kind.data, members[i].mode % 512)
  {
    if members != [] {
      var k := |members| - 1;
      var last := members[k];
      var before := members[..k];
      FilesOfMember(before, prefix, path);
      assert last.path == [prefix] + last.path[1..];
      assert ([prefix] + path)[1..] == path;
      if last.path == [prefix] + path {
        forall i | 0 <= i < k ensures members[i].path != last.path {}
      } else {
        assert last.path[1..] != path;
        assert path in FilesOf(members) <==> path in FilesOf(before);
        if i :| 0 <= i < k && Compared(before[i]) && before[i].path == [prefix] + path {
          assert Compared(members[i]) && members[i].path == [prefix] + path;
        }
        forall i | 0 <= i < |members| && Compared(members[i]) && members[i].path == [prefix] + path
          ensures i < k && before[i] == members[i] {}
      }
    }
  }

  /** The first `i` members have been read. */
  ghost predicate ReadSoFar(members: seq<Member>, i: nat, prefix: string, files: Files, seen: set<Path>)
    requires i <= |members|
  {
    && Rooted(members[..i], prefix)
    && files == FilesOf(members[..i])
    && forall p :: p in seen <==> exists k :: 0 <= k < i && members[k].path[1..] == p
  }

  lemma MemberRead(members: seq<Member>, i: nat, prefix: string, files: Files, seen: set<Path>)
    requires i < |members| && ReadSoFar(members, i, prefix, files, seen)
    requires Safe(members[i]) && members[i].path != [] && members[i].path[0] == prefix && members[i].path[1..] !in seen
    ensures var member := members[i];
            ReadSoFar(members, i + 1, prefix,
                      if Compared(member)
                      then files[member.path[1..] := FileEntry(member.kind.data, member.mode % 512)]
                      else files,
                      seen + {member.path[1..]})
  {
    var next := members[..i + 1];
    assert next[..i] == members[..i] && next[i] == members[i];
    forall k | 0 <= k < i ensures members[k].path != members[i].path {
      assert members[k].path[1..] in seen;
    }
    assert forall k :: 0 <= k < i ==> next[k] == members[..i][k];
  }

  lemma MemberRepeated(members: seq<Member>, i: nat, prefix: string, files: Files, seen: set<Path>)
    requires i < |members| && ReadSoFar(members, i, prefix, files, seen)
    requires members[i].path != [] && members[i].path[0] == prefix && members[i].path[1..] in seen
    ensures !Rooted(members, prefix)
  {
    var k :| 0 <= k < i && members[k].path[1..] == members[i].path[1..];
    assert members[k] == members[..i][k];
    assert members[k].path == [prefix] + members[k].path[1..] == members[i].path;
  }

  /** Reading file by file, with a set of the paths seen so far. */
  method ReadComparableFiles(bytes: Bytes, name: string, version: string) returns (r: Option<Files>)
    ensures r == ComparableFiles(bytes, name, version)
  {
    if bytes.Junk? {
      return None;
    }
    var members := bytes.members;
    var files: Files := map[];
    var seen: set<Path> := {};
    for i := 0 to |members|
      invariant ReadSoFar(members, i, Prefix(name, version), files, seen)
    {
      var member := members[i];
      if !Safe(member) || member.path == [] || member.path[0] != Prefix(name, version) {
        return None;
      }
      var relative := member.path[1..];
      if relative in seen {
        MemberRepeated(members, i, Prefix(name, version), files, seen);
        return None;
      }
      MemberRead(members, i, Prefix(name, version), files, seen);
      seen := seen + {relative};
      if Compared(member) {
        files := files[relative := FileEntry(member.kind.data, member.mode % 512)];
      }
    }
    assert members[..|members|] == members;
    if Identified(members, name, version) {
      return Some(files);
    }
    return None;
  }

  // ----- Files under a release directory -----

  /** What a path names once `.` and `..` are followed. */
  function Resolve(p: Path): Path {
    if p == [] then []
    else
      var before := Resolve(p[..|p| - 1]);
      var part := p[|p| - 1];
      if part == "." then before
      else if part == ".." then (if before == [] then [] else before[..|before| - 1])
      else before + [part]
  }

  predicate Plain(p: Path) {
    "." !in p && ".." !in p
  }

  lemma {:induction false} PlainResolves(p: Path)
    requires Plain(p)
    ensures Resolve(p) == p
  {
    if p != [] {
      PlainResolves(p[..|p| - 1]);
    }
  }

  type Disk = map<Path, Bytes>

  /** The bytes of an archive inside `directory` whose checksum is `sha256`. */
  function CheckedArchive(disk: Disk, directory: Path, archive: Path, sha256: Digest): Option<Bytes> {
    var path := Resolve(directory + archive);
    if directory <= path && path in disk && Sha256(disk[path]) == sha256 then Some(disk[path]) else None
  }

  /**
   The archive is found exactly where its path leads, if that is inside the directory,
   and has the recorded checksum.
   */
  lemma CheckedArchiveIff(disk: Disk, directory: Path, archive: Path, sha256: Digest, bytes: Bytes)
    ensures CheckedArchive(disk, directory, archive, sha256) == Some(bytes) <==>
              var path := Resolve(directory + archive);
              && |path| >= |directory| && path[..|directory|] == directory
              && path in disk && disk[path] == bytes && sha256.bytes == bytes
  {
  }

  lemma {:induction false} ResolveAppend(path: Path, below: Path)
    requires Plain(below)
    ensures Resolve(path + below) == Resolve(path) + below
  {
    if below == [] {
      assert path + below == path;
    } else {
      var n := |below| - 1;
      ResolveAppend(path, below[..n]);
      assert (path + below)[..|path + below| - 1] == path + below[..n];
      assert Resolve(path) + below[..n] + [below[n]] == Resolve(path) + below;
    }
  }

  /** A path that climbs out of the directory is refused, whatever lies there. */
  lemma EscapeRefused(disk: Disk, directory: Path, below: Path, sha256: Digest)
    requires Plain(directory) && directory != [] && Plain(below)
             && (below == [] || below[0] != directory[|directory| - 1])
    ensures CheckedArchive(disk, directory, [".."] + below, sha256) == None
  {
    var parent := directory[..|directory| - 1];
    PlainResolves(directory);
    ResolveAppend(directory + [".."], below);
    assert directory + ([".."] + below) == (directory + [".."]) + below;
    assert (directory + [".."])[..|directory|] == directory;
    assert Resolve(directory + ([".."] + below)) == parent + below;
    assert below != [] ==> (parent + below)[|parent|] == below[0];
  }

  function Carried(disk: Disk, directory: Path, package: Package): Option<Bytes> {
    CheckedArchive(disk, directory, package.archive, package.sha256)
  }

  /** The provenance of a reused archive matches the fresh contents; nothing to check without one. */
  predicate ReuseAccepted(disk: Disk, directory: Path, package: Package) {
    package.reuse.None? ||
    var p := package.reuse.value;
    var repacked := CheckedArchive(disk, directory, p.freshArchive, p.freshDigest);
    var carried := Carried(disk, directory, package);
    repacked.Some? && carried.Some? &&
    var files := ComparableFiles(repacked.value, package.name, package.version);
    && files.Some?
    && ComparableFiles(carried.value, package.name, package.version) == files
    && p.sourceArchive == package.sha256
    && p.comparedFiles == |files.value|
    && p.contents == Sha256OfFiles(files.value)
    && p.ignored == GENERATED
  }

  /** An accepted provenance is determined by the archives: only the names of its source are free. */
  lemma AcceptedProvenanceDetermined(disk: Disk, directory: Path, package: Package, p: Provenance, q: Provenance)
    requires ReuseAccepted(disk, directory, package.(reuse := Some(p)))
    requires ReuseAccepted(disk, directory, package.(reuse := Some(q)))
    requires p.freshArchive == q.freshArchive && p.freshDigest == q.freshDigest
    ensures p == q.(source := p.source, sourceRegistry := p.sourceRegistry)
    ensures p.sourceArchive == package.sha256 && p.ignored == ["Cargo.lock", ".cargo_vcs_info.json"]
  {
  }

  /** Both archive checks of the publication preflight. */
  predicate Accepted(disk: Disk, directory: Path, package: Package) {
    Carried(disk, directory, package).Some? && ReuseAccepted(disk, directory, package)
  }

  lemma PackagesIffListed(bytes: Bytes, name: string, version: string, path: Path, data: Data, mode: nat)
    requires Readable(bytes, name, version)
    requires path !in {["Cargo.lock"], [".cargo_vcs_info.json"]}
    ensures Packages(bytes, name, version, path, data, mode) <==>
              path in FilesOf(bytes.members) && FilesOf(bytes.members)[path] == FileEntry(data, mode)
  {
    var prefix := Prefix(name, version);
    FilesOfMember(bytes.members, prefix, path);
    assert ([prefix] + path)[1..] == path;
  }

  /** Both archives can be read, and package the same files with the same permissions, save the two generated ones. */
  ghost predicate SamePackage(a: Bytes, b: Bytes, name: string, version: string) {
    && Readable(a, name, version) && Readable(b, name, version)
    && forall path, data, mode :: path !in {["Cargo.lock"], [".cargo_vcs_info.json"]} ==>
         (Packages(a, name, version, path, data, mode) <==> Packages(b, name, version, path, data, mode))
  }

  lemma ListedFile(bytes: Bytes, name: string, version: string, path: Path)
    requires Readable(bytes, name, version) && path in FilesOf(bytes.members)
    ensures path !in {["Cargo.lock"], [".cargo_vcs_info.json"]}
    ensures var entry := FilesOf(bytes.members)[path]; Packages(bytes, name, version, path, entry.data, entry.mode)
  {
    var prefix := Prefix(name, version);
    FilesOfMember(bytes.members, prefix, path);
    var i :| 0 <= i < |bytes.members| && Compared(bytes.members[i]) && bytes.members[i].path == [prefix] + path;
    assert ([prefix] + path)[1..] == path;
    var entry := FilesOf(bytes.members)[path];
    PackagesIffListed(bytes, name, version, path, entry.data, entry.mode);
  }

  lemma SamePackageFiles(a: Bytes, b: Bytes, name: string, version: string, path: Path)
    requires SamePackage(a, b, name, version) && path in FilesOf(a.members)
    ensures path in FilesOf(b.members) && FilesOf(b.members)[path] == FilesOf(a.members)[path]
  {
    var entry := FilesOf(a.members)[path];
    ListedFile(a, name, version, path);
    PackagesIffListed(b, name, version, path, entry.data, entry.mode);
  }

  /** The compared files of two archives agree exactly when the archives package the same. */
  lemma SamePackageIff(a: Bytes, b: Bytes, name: string, version: string)
    ensures SamePackage(a, b, name, version) <==>
              ComparableFiles(b, name, version).Some?
                  && ComparableFiles(a, name, version) == ComparableFiles(b, name, version)
  {
    if SamePackage(a, b, name, version) {
      forall path ensures path in FilesOf(a.members) <==> path in FilesOf(b.members) {
        if path in FilesOf(a.members) { SamePackageFiles(a, b, name, version, path); }
        if path in FilesOf(b.members) { SamePackageFiles(b, a, name, version, path); }
      }
      forall path | path in FilesOf(a.members) ensures FilesOf(a.members)[path] == FilesOf(b.members)[path] {
        SamePackageFiles(a, b, name, version, path);
      }
      assert FilesOf(a.members) == FilesOf(b.members);
    }
    if Readable(a, name, version) && Readable(b, name, version) && FilesOf(a.members) == FilesOf(b.members) {
      forall path, data, mode | path !in {["Cargo.lock"], [".cargo_vcs_info.json"]}
        ensures Packages(a, name, version, path, data, mode) <==> Packages(b, name, version, path, data, mode)
      {
        PackagesIffListed(a, name, version, path, data, mode);
        PackagesIffListed(b, name, version, path, data, mode);
      }
    }
  }

  /** The recorded reuse is true of the fresh archive, which packages the same as the carried one. */
  ghost predicate TrueReuse(package: Package, p: Provenance, carried: Bytes, repacked: Bytes) {
    && SamePackage(carried, repacked, package.name, package.version)
    && p.sourceArchive == package.sha256 && p.ignored == ["Cargo.lock", ".cargo_vcs_info.json"]
    && p.comparedFiles == |FilesOf(repacked.members)| && p.contents == Sha256OfFiles(FilesOf(repacked.members))
  }

  /**
   The checks accept a package exactly when its archive is intact and a recorded reuse
   is true of an intact fresh one.
   */
  lemma AcceptedIff(disk: Disk, directory: Path, package: Package)
    ensures Accepted(disk, directory, package) <==>
              exists carried :: Carried(disk, directory, package) == Some(carried) &&
                (package.reuse.Some? ==>
                   var p := package.reuse.value;
                   exists repacked :: CheckedArchive(disk, directory, p.freshArchive, p.freshDigest) == Some(repacked)
                                      && TrueReuse(package, p, carried, repacked))
  {
    if package.reuse.Some? && Carried(disk, directory, package).Some? {
      var p := package.reuse.value;
      var carried := Carried(disk, directory, package).value;
      var repacked := CheckedArchive(disk, directory, p.freshArchive, p.freshDigest);
      if repacked.Some? {
        SamePackageIff(carried, repacked.value, package.name, package.version);
        assert ReuseAccepted(disk, directory, package) <==> TrueReuse(package, p, carried, repacked.value);
      }
    }
  }

  /**
   An accepted reuse means the carried and the freshly packaged archive agree on
   every packaged file and its permissions, save the two generated files.
   */
  lemma AcceptedReuseAgrees(disk: Disk, directory: Path, package: Package, path: Path, data: Data, mode: nat)
    requires package.reuse.Some? && ReuseAccepted(disk, directory, package)
    requires path !in {["Cargo.lock"], [".cargo_vcs_info.json"]}
    ensures var reuse := package.reuse.value;
            var repacked := CheckedArchive(disk, directory, reuse.freshArchive, reuse.freshDigest);
            var carried := Carried(disk, directory, package);
            repacked.Some? && carried.Some? &&
            (Packages(repacked.value, package.name, package.version, path, data, mode)
             <==> Packages(carried.value, package.name, package.version, path, data, mode))
  {
    var p := package.reuse.value;
    var repacked := CheckedArchive(disk, directory, p.freshArchive, p.freshDigest).value;
    var carried := Carried(disk, directory, package).value;
    PackagesIffListed(repacked, package.name, package.version, path, data, mode);
    PackagesIffListed(carried, package.name, package.version, path, data, mode);
  }

  // ----- The published archive -----

  datatype Published = Published(cksum: Digest, bytes: Bytes)

  predicate AllSafe(members: seq<Member>) {
    forall i :: 0 <= i < |members| ==> Safe(members[i])
  }

  /** Every file of the archive except the lock file at its root; a later member wins. */
  function UploadedFiles(members: seq<Member>, prefix: string): map<Path, Data> {
    if members == [] then map[]
    else
      var last := members[|members| - 1];
      var before := UploadedFiles(members[..|members| - 1], prefix);
      if last.kind.File? && last.path != [prefix, "Cargo.lock"] then before[last.path := last.kind.data] else before
  }

  /** The registry's archive has the files of the carried one. */
  predicate MatchesPublished(disk: Disk, directory: Path, package: Package, entry: Published) {
    var carried := Carried(disk, directory, package);
    && Sha256(entry.bytes) == entry.cksum
    && carried.Some? && entry.bytes.Tarball? && carried.value.Tarball?
    && AllSafe(entry.bytes.members) && AllSafe(carried.value.members)
    && UploadedFiles(entry.bytes.members, Prefix(package.name, package.version))
       == UploadedFiles(carried.value.members, Prefix(package.name, package.version))
  }

  /** The archive holds `data` at `path`; of several members at one path the last counts. */
  ghost predicate Holds(members: seq<Member>, path: Path, data: Data) {
    exists i :: 0 <= i < |members| && members[i].path == path && members[i].kind == File(data)
      && forall j :: i < j < |members| ==> members[j].path != path || !members[j].kind.File?
  }

  lemma HoldsOn(members: seq<Member>, path: Path, data: Data)
    requires members != [] && (members[|members| - 1].path != path || !members[|members| - 1].kind.File?)
    ensures Holds(members, path, data) <==> Holds(members[..|members| - 1], path, data)
  {
    var n := |members| - 1;
    var before := members[..n];
    if i :| 0 <= i < n && before[i].path == path && before[i].kind == File(data)
            && forall j :: i < j < n ==> before[j].path != path || !before[j].kind.File? {
      assert members[i] == before[i];
      assert forall j :: i < j < n ==> members[j] == before[j];
    }
    if i :| 0 <= i < |members| && members[i].path == path && members[i].kind == File(data)
            && forall j :: i < j < |members| ==> members[j].path != path || !members[j].kind.File? {
      assert before[i] == members[i];
    }
  }

  lemma {:induction false} UploadedFile(members: seq<Member>, prefix: string, path: Path, data: Data)
    requires path != [prefix, "Cargo.lock"]
    ensures path in UploadedFiles(members, prefix) && UploadedFiles(members, prefix)[path] == data <==>
              Holds(members, path, data)
  {
    if members != [] {
      var n := |members| - 1;
      UploadedFile(members[..n], prefix, path, data);
      if members[n].path == path && members[n].kind.File? {
        assert Holds(members, path, data) <==> members[n].kind == File(data);
      } else {
        HoldsOn(members, path, data);
      }
    }
  }

  /**
   Passing the check means the registry serves every file of the carried archive, and
   no other, save the lock file.
   */
  lemma MatchMeansSameFiles(disk: Disk, directory: Path, package: Package, entry: Published, path: Path, data: Data)
    requires MatchesPublished(disk, directory, package, entry)
    requires path != [Prefix(package.name, package.version), "Cargo.lock"]
    ensures Holds(entry.bytes.members, path, data) <==>
              Holds(Carried(disk, directory, package).value.members, path, data)
  {
    var prefix := Prefix(package.name, package.version);
    UploadedFile(entry.bytes.members, prefix, path, data);
    UploadedFile(Carried(disk, directory, package).value.members, prefix, path, data);
  }

  lemma {:induction false} LockNotUploaded(members: seq<Member>, prefix: string)
    ensures [prefix, "Cargo.lock"] !in UploadedFiles(members, prefix)
  {
    if members != [] {
      LockNotUploaded(members[..|members| - 1], prefix);
    }
  }

  lemma SamePathInMap(a: seq<Member>, b: seq<Member>, prefix: string, path: Path)
    requires path != [prefix, "Cargo.lock"] ==> forall data :: Holds(a, path, data) <==> Holds(b, path, data)
    ensures path != [prefix, "Cargo.lock"] ==>
              (path in UploadedFiles(a, prefix) <==> path in UploadedFiles(b, prefix))
    ensures path != [prefix, "Cargo.lock"] && path in UploadedFiles(a, prefix) ==>
              UploadedFiles(a, prefix)[path] == UploadedFiles(b, prefix)[path]
  {
    if path != [prefix, "Cargo.lock"] {
      if path in UploadedFiles(a, prefix) {
        UploadedFile(a, prefix, path, UploadedFiles(a, prefix)[path]);
        UploadedFile(b, prefix, path, UploadedFiles(a, prefix)[path]);
      }
      if path in UploadedFiles(b, prefix) {
        UploadedFile(b, prefix, path, UploadedFiles(b, prefix)[path]);
        UploadedFile(a, prefix, path, UploadedFiles(b, prefix)[path]);
      }
    }
  }

  lemma SameFilesSameMap(a: seq<Member>, b: seq<Member>, prefix: string)
    requires forall path, data :: path != [prefix, "Cargo.lock"] ==> (Holds(a, path, data) <==> Holds(b, path, data))
    ensures UploadedFiles(a, prefix) == UploadedFiles(b, prefix)
  {
    LockNotUploaded(a, prefix);
    LockNotUploaded(b, prefix);
    var first, second := UploadedFiles(a, prefix), UploadedFiles(b, prefix);
    forall path ensures path in first <==> path in second {
      SamePathInMap(a, b, prefix, path);
    }
    forall path | path in first ensures first[path] == second[path] {
      SamePathInMap(a, b, prefix, path);
    }
  }

  /** What the comparison with the registry asks of the two archives. */
  ghost predicate SameRelease(a: Bytes, b: Bytes, lock: Path) {
    && a.Tarball? && b.Tarball?
    && (forall m :: m in a.members ==> OrdinaryMember(m)) && (forall m :: m in b.members ==> OrdinaryMember(m))
    && forall path, data :: path != lock ==> (Holds(a.members, path, data) <==> Holds(b.members, path, data))
  }

  /**
   The comparison passes exactly when the registry's archive has its checksum, both
   archives hold ordinary members, and they hold the same files save the lock file.
   */
  lemma MatchesIffSameRelease(disk: Disk, directory: Path, package: Package, entry: Published)
    ensures MatchesPublished(disk, directory, package, entry) <==>
              && entry.cksum.bytes == entry.bytes
              && Carried(disk, directory, package).Some?
              && SameRelease(entry.bytes, Carried(disk, directory, package).value,
                             [package.name + "-" + package.version, "Cargo.lock"])
  {
    forall m ensures Safe(m) <==> OrdinaryMember(m) {
    }
    var carried := Carried(disk, directory, package);
    if MatchesPublished(disk, directory, package, entry) {
      forall path, data | path != [package.name + "-" + package.version, "Cargo.lock"]
        ensures Holds(entry.bytes.members, path, data) <==> Holds(carried.value.members, path, data)
      {
        MatchMeansSameFiles(disk, directory, package, entry, path, data);
      }
    }
    if carried.Some? && SameRelease(entry.bytes, carried.value, [package.name + "-" + package.version, "Cargo.lock"]) {
      SameFilesSameMap(entry.bytes.members, carried.value.members, Prefix(package.name, package.version));
    }
  }

  // ----- Preparing a release -----

  function CrateFile(name: string, version: string): string {
    Prefix(name, version) + ".crate"
  }

  function PackagedPath(name: string, version: string): Path {
    ["cargo-target", "package", CrateFile(name, version)]
  }

  function FreshPath(name: string, version: string): Path {
    ["fresh-packages", CrateFile(name, version)]
  }

  /** Cargo versions: digits up to the first dot, so the name ends at the last dash before it. */
  predicate CargoVersion(version: string) {
    exists k :: 0 <= k < |version| && version[k] == '.' && forall i :: 0 <= i < k ==> '0' <= version[i] <= '9'
  }

  predicate CargoName(name: string) {
    '.' !in name
  }

  /** In `s` a dash at `dash` is followed by digits up to the first dot, at `dot`. */
  ghost predicate SplitAt(s: string, dash: nat, dot: nat) {
    && dash < dot < |s| && s[dash] == '-' && s[dot] == '.'
    && (forall i :: 0 <= i < dot ==> s[i] != '.')
    && (forall i :: dash < i < dot ==> '0' <= s[i] <= '9')
  }

  lemma SplitUnique(s: string, dash: nat, dot: nat, dash': nat, dot': nat)
    requires SplitAt(s, dash, dot) && SplitAt(s, dash', dot')
    ensures dash == dash'
  {
    assert dot == dot';
  }

  lemma CrateFileSplits(name: string, version: string) returns (dot: nat)
    requires CargoName(name) && CargoVersion(version)
    ensures SplitAt(CrateFile(name, version), |name|, dot)
  {
    var s := CrateFile(name, version);
    var k :| 0 <= k < |version| && version[k] == '.' && forall i :: 0 <= i < k ==> '0' <= version[i] <= '9';
    dot := |name| + 1 + k;
    assert forall i :: 0 <= i < |name| ==> s[i] == name[i];
    forall i | |name| < i <= dot ensures s[i] == version[i - |name| - 1] {}
  }

  /** Different packages have different archive files. */
  lemma CrateFilesDiffer(a: string, v: string, b: string, w: string)
    requires CargoName(a) && CargoName(b) && CargoVersion(v) && CargoVersion(w)
    requires CrateFile(a, v) == CrateFile(b, w)
    ensures a == b && v == w
  {
    var s := CrateFile(a, v);
    var dot := CrateFileSplits(a, v);
    var dot' := CrateFileSplits(b, w);
    SplitUnique(s, |a|, dot, |b|, dot');
    assert a == s[..|a|] == b;
    assert v == s[|a| + 1..|s| - 6] == w;
  }

  function ProvenanceOf(source: Source, carried: Digest, registry: Digest, package: Package, files: Files): Provenance {
    Provenance(source, carried, registry, FreshPath(package.name, package.version), package.sha256,
               |files|, Sha256OfFiles(files), GENERATED)
  }

  /** The package and the disk after `carried` replaces the package's fresh archive. */
  function ReusedPackage(package: Package, source: Source, carried: Bytes, registry: Digest, files: Files): Package {
    package.(sha256 := Sha256(carried), reuse := Some(ProvenanceOf(source, Sha256(carried), registry, package, files)))
  }

  function ReusedDisk(disk: Disk, directory: Path, package: Package, repacked: Bytes, carried: Bytes): Disk {
    disk[Resolve(directory + FreshPath(package.name, package.version)) := repacked]
        [Resolve(directory + package.archive) := carried]
  }

  lemma DirectoryFiles(directory: Path, name: string, version: string)
    requires Plain(directory)
    ensures Resolve(directory + FreshPath(name, version)) == directory + FreshPath(name, version)
    ensures Resolve(directory + PackagedPath(name, version)) == directory + PackagedPath(name, version)
    ensures directory + FreshPath(name, version) != directory + PackagedPath(name, version)
  {
    var file := CrateFile(name, version);
    assert file[|file| - 1] == 'e';
    PlainResolves(directory + FreshPath(name, version));
    PlainResolves(directory + PackagedPath(name, version));
    assert (directory + FreshPath(name, version))[|directory|] == "fresh-packages";
    assert (directory + PackagedPath(name, version))[|directory|] == "cargo-target";
  }

  /** What a reuse writes is what the checks accept. */
  lemma ReuseIsAccepted(disk: Disk, directory: Path, package: Package, source: Source, repacked: Bytes,
                        carried: Bytes, registry: Digest)
    requires Plain(directory) && package.archive == PackagedPath(package.name, package.version)
    requires Carried(disk, directory, package) == Some(repacked)
    requires ComparableFiles(repacked, package.name, package.version).Some?
    requires ComparableFiles(carried, package.name, package.version)
             == ComparableFiles(repacked, package.name, package.version)
    ensures var files := ComparableFiles(repacked, package.name, package.version).value;
            var after := ReusedDisk(disk, directory, package, repacked, carried);
            var reused := ReusedPackage(package, source, carried, registry, files);
            Accepted(after, directory, reused) && Carried(after, directory, reused) == Some(carried)
  {
    DirectoryFiles(directory, package.name, package.version);
  }

  /** An archive taken from the registry passes the check against the registry. */
  lemma RegistryArchiveMatches(disk: Disk, directory: Path, package: Package, entry: Published)
    requires Carried(disk, directory, package) == Some(entry.bytes) && Sha256(entry.bytes) == entry.cksum
    requires ComparableFiles(entry.bytes, package.name, package.version).Some?
    ensures MatchesPublished(disk, directory, package, entry)
  {
  }

  /** The package's archive can be read and has the packaged contents of `other`. */
  predicate SameContents(disk: Disk, directory: Path, package: Package, other: Bytes) {
    var current := Carried(disk, directory, package);
    && current.Some?
    && ComparableFiles(current.value, package.name, package.version).Some?
    && ComparableFiles(other, package.name, package.version)
        == ComparableFiles(current.value, package.name, package.version)
  }

  datatype Prior = Prior(archive: Bytes, sha256: Digest, registry: Digest)

  datatype PriorReleaseInfo =
    | NoPrior
    | PriorInfo(report: string, commit: string, packages: map<(string, string), Prior>)

  predicate HasPrior(previous: PriorReleaseInfo, name: string, version: string) {
    previous.PriorInfo? && (name, version) in previous.packages
  }

  predicate EqualContents(a: Bytes, b: Bytes, name: string, version: string) {
    ComparableFiles(b, name, version).Some? && ComparableFiles(a, name, version) == ComparableFiles(b, name, version)
  }

  /** An earlier release of this version, if there is one, has the freshly packaged contents. */
  predicate PriorAgrees(previous: PriorReleaseInfo, name: string, version: string, repacked: Bytes) {
    HasPrior(previous, name, version) ==>
      var prior := previous.packages[(name, version)];
      Sha256(prior.archive) == prior.sha256 && EqualContents(prior.archive, repacked, name, version)
  }

  /** What the registry index shows, and which of it is yanked. */
  datatype Index = Index(shown: map<(string, string), Published>, yanked: set<(string, string)>)

  /** The published archive of this version, if there is one, is not yanked and has the freshly packaged contents. */
  predicate RegistryAgrees(index: Index, name: string, version: string, repacked: Bytes) {
    (name, version) in index.shown ==>
      var entry := index.shown[(name, version)];
      && (name, version) !in index.yanked
      && Sha256(entry.bytes) == entry.cksum && EqualContents(entry.bytes, repacked, name, version)
  }

  /** What an archive holds at `path`: the last member there counts, and it must be a file. */
  function Extracted(members: seq<Member>, path: Path): Option<Data> {
    if members == [] then None
    else
      var last := members[|members| - 1];
      if last.path == path then (if last.kind.File? then Some(last.kind.data) else None)
      else Extracted(members[..|members| - 1], path)
  }

  /** The packaged manifest can be read and names no path dependency. */
  predicate PathFree(bytes: Bytes, name: string, version: string) {
    bytes.Tarball? &&
    var manifest := Extracted(bytes.members, [Prefix(name, version), "Cargo.toml"]);
    manifest.Some? && manifest.value.CargoToml? && !manifest.value.pathDependency
  }

  /** Member `i` is the last one at `path`. */
  predicate LastAt(members: seq<Member>, path: Path, i: nat) {
    i < |members| && members[i].path == path && forall j :: i < j < |members| ==> members[j].path != path
  }

  lemma {:induction false} ExtractedAt(members: seq<Member>, path: Path, i: nat)
    requires LastAt(members, path, i)
    ensures Extracted(members, path) == if members[i].kind.File? then Some(members[i].kind.data) else None
  {
    var n := |members| - 1;
    if i < n {
      assert members[n].path != path;
      assert forall j :: 0 <= j < n ==> members[..n][j] == members[j];
      ExtractedAt(members[..n], path, i);
    }
  }

  lemma {:induction false} ExtractedFrom(members: seq<Member>, path: Path) returns (i: nat)
    requires Extracted(members, path).Some?
    ensures LastAt(members, path, i)
  {
    var n := |members| - 1;
    i := n;
    if members[n].path != path {
      i := ExtractedFrom(members[..n], path);
      assert members[i] == members[..n][i];
      assert forall j :: i < j < n ==> members[j] == members[..n][j];
    }
  }

  /** The last member at the manifest's path is a manifest without a path dependency. */
  predicate ReleasedManifest(members: seq<Member>, name: string, version: string, i: nat) {
    && LastAt(members, [name + "-" + version, "Cargo.toml"], i)
    && members[i].kind.File? && members[i].kind.data.CargoToml? && !members[i].kind.data.pathDependency
  }

  ghost predicate HasReleasedManifest(bytes: Bytes, name: string, version: string) {
    bytes.Tarball? && exists i: nat :: ReleasedManifest(bytes.members, name, version, i)
  }

  lemma PathFreeIff(bytes: Bytes, name: string, version: string)
    ensures PathFree(bytes, name, version) <==> HasReleasedManifest(bytes, name, version)
  {
    if bytes.Tarball? {
      var path := [Prefix(name, version), "Cargo.toml"];
      if PathFree(bytes, name, version) {
        var i := ExtractedFrom(bytes.members, path);
        ExtractedAt(bytes.members, path, i);
        assert ReleasedManifest(bytes.members, name, version, i);
      }
      if i: nat :| ReleasedManifest(bytes.members, name, version, i) {
        ExtractedAt(bytes.members, path, i);
      }
    }
  }

  /** Every condition under which one package is prepared; `index` is there when published versions are reused. */
  predicate Preparable(previous: PriorReleaseInfo, index: Option<Index>, name: string, version: string,
                       repacked: Bytes)
  {
    && PathFree(repacked, name, version)
    && PriorAgrees(previous, name, version, repacked)
    && (index.Some? && !HasPrior(previous, name, version) ==> RegistryAgrees(index.value, name, version, repacked))
  }

  /**
   A package can be prepared exactly when its manifest keeps no path dependency, and
   the archive it is to carry, the earlier release's or else the published one, is
   intact, not yanked, and packages the same as the fresh one.
   */
  lemma PreparableIff(previous: PriorReleaseInfo, index: Option<Index>, name: string, version: string, repacked: Bytes)
    ensures Preparable(previous, index, name, version, repacked) <==>
              && HasReleasedManifest(repacked, name, version)
              && (previous.PriorInfo? && (name, version) in previous.packages ==>
                    var prior := previous.packages[(name, version)];
                    prior.sha256.bytes == prior.archive && SamePackage(prior.archive, repacked, name, version))
              && (index.Some? && (name, version) in index.value.shown
                  && !(previous.PriorInfo? && (name, version) in previous.packages) ==>
                    var entry := index.value.shown[(name, version)];
                    && (name, version) !in index.value.yanked && entry.cksum.bytes == entry.bytes
                    && SamePackage(entry.bytes, repacked, name, version))
  {
    PathFreeIff(repacked, name, version);
    if HasPrior(previous, name, version) {
      SamePackageIff(previous.packages[(name, version)].archive, repacked, name, version);
    } else if index.Some? && (name, version) in index.value.shown {
      SamePackageIff(index.value.shown[(name, version)].bytes, repacked, name, version);
    }
  }

  /** The package is to carry the registry's archive. */
  predicate CarriesPublished(previous: PriorReleaseInfo, index: Option<Index>, name: string, version: string) {
    index.Some? && !HasPrior(previous, name, version) && (name, version) in index.value.shown
  }

  /** The files of packages other than (name, version) are as before. */
  ghost predicate OthersUntouched(was: Disk, disk: Disk, directory: Path, name: string, version: string) {
    forall p :: p !in {directory + FreshPath(name, version), directory + PackagedPath(name, version)} ==>
      (p in disk <==> p in was) && (p in disk ==> disk[p] == was[p])
  }

  /** The archive paths of a package are the ones preparation gives it. */
  predicate OwnPaths(package: Package) {
    && package.archive == PackagedPath(package.name, package.version)
    && (package.reuse.Some? ==> package.reuse.value.freshArchive == FreshPath(package.name, package.version))
  }

  lemma ReuseIsLocal(disk: Disk, directory: Path, package: Package, repacked: Bytes, carried: Bytes)
    requires Plain(directory) && package.archive == PackagedPath(package.name, package.version)
    ensures OthersUntouched(disk, ReusedDisk(disk, directory, package, repacked, carried), directory, package.name,
              package.version)
  {
    DirectoryFiles(directory, package.name, package.version);
  }

  lemma OtherStaysAccepted(was: Disk, disk: Disk, directory: Path, package: Package, name: string, version: string)
    requires Plain(directory) && OthersUntouched(was, disk, directory, name, version)
    requires OwnPaths(package) && CrateFile(package.name, package.version) != CrateFile(name, version)
    ensures Accepted(was, directory, package) ==> Accepted(disk, directory, package)
    ensures Carried(disk, directory, package) == Carried(was, directory, package)
  {
    DirectoryFiles(directory, package.name, package.version);
    DirectoryFiles(directory, name, version);
    var mine, other := CrateFile(package.name, package.version), CrateFile(name, version);
    assert (directory + FreshPath(package.name, package.version))[|directory| + 1] == mine;
    assert (directory + FreshPath(name, version))[|directory| + 1] == other;
    assert (directory + PackagedPath(package.name, package.version))[|directory| + 2] == mine;
    assert (directory + PackagedPath(name, version))[|directory| + 2] == other;
    assert (directory + PackagedPath(name, version))[|directory|] == "cargo-target";
    assert (directory + PackagedPath(package.name, package.version))[|directory|] == "cargo-target";
  }

  /** One release directory being prepared; packages and archive files are rewritten in place. */
  class Preparation {
    const directory: Path
    var disk: Disk
    var packages: seq<Package>

    constructor (directory: Path, disk: Disk)
      ensures this.directory == directory && this.disk == disk && packages == []
    {
      this.directory := directory;
      this.disk := disk;
      packages := [];
    }

    /** Replaces the fresh archive of package `k` by `carried` if the packaged contents are equal. */
    method Reuse(k: nat, source: Source, carried: Bytes, registry: Digest) returns (ok: bool)
      requires Plain(directory) && k < |packages|
      requires packages[k].archive == PackagedPath(packages[k].name, packages[k].version)
      modifies this
      ensures ok <==> SameContents(old(disk), directory, old(packages[k]), carried)
      ensures !ok ==> disk == old(disk) && packages == old(packages)
      ensures |packages| == |old(packages)| && packages == old(packages)[k := packages[k]]
      ensures ok ==> Carried(disk, directory, packages[k]) == Some(carried) && Accepted(disk, directory, packages[k])
      ensures ok ==>
                packages[k].(sha256 := old(packages[k].sha256), reuse := old(packages[k].reuse)) == old(packages[k])
      ensures ok ==> packages[k].reuse.Some? && packages[k].reuse.value.source == source
                     && packages[k].reuse.value.sourceRegistry == registry
      ensures ok ==> packages[k].reuse.value.freshArchive == FreshPath(packages[k].name, packages[k].version)
      ensures ok ==> ComparableFiles(carried, packages[k].name, packages[k].version).Some?
      ensures OthersUntouched(old(disk), disk, directory, old(packages[k].name), old(packages[k].version))
    {
      var package := packages[k];
      var repacked := Carried(disk, directory, package);
      if repacked.None? {
        return false;
      }
      var freshFiles := ReadComparableFiles(repacked.value, package.name, package.version);
      var carriedFiles := ReadComparableFiles(carried, package.name, package.version);
      if freshFiles.None? || carriedFiles != freshFiles {
        return false;
      }
      ReuseIsAccepted(disk, directory, package, source, repacked.value, carried, registry);
      ReuseIsLocal(disk, directory, package, repacked.value, carried);
      disk := ReusedDisk(disk, directory, package, repacked.value, carried);
      packages := packages[k := ReusedPackage(package, source, carried, registry, freshFiles.value)];
      return true;
    }

    /** Keeps the archive of a verified prior release that has this exact version. */
    method ReuseVerified(k: nat, previous: PriorReleaseInfo) returns (ok: bool)
      requires Plain(directory) && k < |packages|
      requires packages[k].archive == PackagedPath(packages[k].name, packages[k].version)
      requires packages[k].reuse.None? && Accepted(disk, directory, packages[k])
      modifies this
      ensures |packages| == |old(packages)| && packages == old(packages)[k := packages[k]]
      ensures ok <==>
                PriorAgrees(previous, packages[k].name, packages[k].version,
                    Carried(old(disk), directory, old(packages[k])).value)
      ensures ok ==> Accepted(disk, directory, packages[k])
      ensures ok ==> (packages[k].reuse.Some? <==> HasPrior(previous, packages[k].name, packages[k].version))
      ensures !HasPrior(previous, packages[k].name, packages[k].version) ==>
                packages == old(packages) && disk == old(disk)
      ensures packages[k].reuse.Some? ==>
                packages[k].reuse.value.freshArchive == FreshPath(packages[k].name, packages[k].version)
      ensures packages[k].(sha256 := old(packages[k].sha256), reuse := None) == old(packages[k])
      ensures OthersUntouched(old(disk), disk, directory, old(packages[k].name), old(packages[k].version))
    {
      var package := packages[k];
      if previous.NoPrior? || (package.name, package.version) !in previous.packages {
        return true;
      }
      var prior := previous.packages[(package.name, package.version)];
      if Sha256(prior.archive) != prior.sha256 {
        return false;
      }
      ok := Reuse(k, PriorRelease(previous.report, previous.commit), prior.archive, prior.registry);
    }

    /** Keeps the registry's archive of an already published version. */
    method ReuseRegistry(k: nat, index: Index) returns (ok: bool)
      requires Plain(directory) && k < |packages|
      requires packages[k].archive == PackagedPath(packages[k].name, packages[k].version)
      requires Accepted(disk, directory, packages[k])
      modifies this
      ensures |packages| == |old(packages)| && packages == old(packages)[k := packages[k]]
      ensures packages[k].(sha256 := old(packages[k].sha256), reuse := old(packages[k].reuse)) == old(packages[k])
      ensures old(packages[k]).reuse.Some? || (packages[k].name, packages[k].version) !in index.shown ==>
                ok && packages == old(packages) && disk == old(disk)
      ensures old(packages[k]).reuse.None? ==>
                (ok <==> RegistryAgrees(index, packages[k].name, packages[k].version,
                                        Carried(old(disk), directory, old(packages[k])).value))
      ensures ok ==> Accepted(disk, directory, packages[k])
      ensures ok && old(packages[k]).reuse.None? && (packages[k].name, packages[k].version) in index.shown ==>
                && packages[k].reuse.Some?
                && packages[k].reuse.value.freshArchive == FreshPath(packages[k].name, packages[k].version)
                && MatchesPublished(disk, directory, packages[k], index.shown[(packages[k].name, packages[k].version)])
      ensures OthersUntouched(old(disk), disk, directory, old(packages[k].name), old(packages[k].version))
    {
      var release := (packages[k].name, packages[k].version);
      if packages[k].reuse.Some? || release !in index.shown {
        return true;
      }
      var entry := index.shown[release];
      if release in index.yanked || Sha256(entry.bytes) != entry.cksum {
        return false;
      }
      ok := Reuse(k, CratesIo, entry.bytes, entry.cksum);
      if ok {
        RegistryArchiveMatches(disk, directory, packages[k], entry);
      }
    }

    /** Records the freshly packaged archive of the next planned crate. */
    method AddPackage(name: string, version: string, repacked: Bytes)
      requires Plain(directory)
      modifies this
      ensures packages == old(packages) + [Package(name, version, PackagedPath(name, version), Sha256(repacked), None)]
      ensures packages[|old(packages)|].archive == ["cargo-target", "package", name + "-" + version + ".crate"]
      ensures Carried(disk, directory, packages[|old(packages)|]) == Some(repacked)
      ensures OthersUntouched(old(disk), disk, directory, name, version)
    {
      DirectoryFiles(directory, name, version);
      disk := disk[directory + PackagedPath(name, version) := repacked];
      packages := packages + [Package(name, version, PackagedPath(name, version), Sha256(repacked), None)];
    }

    /** Package `k` is accepted, and its files are its own. */
    predicate Settled(k: nat)
      requires k < |packages|
      reads this
    {
      OwnPaths(packages[k]) && Accepted(disk, directory, packages[k])
    }

    /** Packages one planned crate, then reuses its prior or published archive. */
    method PrepareOne(name: string, version: string, repacked: Bytes, previous: PriorReleaseInfo, index: Option<Index>)
      returns (ok: bool)
      requires Plain(directory)
      modifies this
      ensures |packages| == |old(packages)| + 1 && packages[..|old(packages)|] == old(packages)
      ensures var k := |old(packages)|; packages[k].name == name && packages[k].version == version
      ensures ok ==> Settled(|old(packages)|)
      ensures ok <==> Preparable(previous, index, name, version, repacked)
      ensures ok && CarriesPublished(previous, index, name, version) ==>
                MatchesPublished(disk, directory, packages[|old(packages)|], index.value.shown[(name, version)])
      ensures OthersUntouched(old(disk), disk, directory, name, version)
    {
      AddPackage(name, version, repacked);
      if !PathFree(repacked, name, version) {
        return false;
      }
      var k := |packages| - 1;
      ok := ReuseVerified(k, previous);
      if ok && index.Some? {
        ok := ReuseRegistry(k, index.value);
      }
    }

    /**
     Prepares every planned crate. It succeeds exactly when no packaged manifest
     keeps a path dependency and every archive it would reuse has the freshly
     packaged contents; then both archive checks of the publication accept every
     package, and a published archive it carries matches the registry.
     */
    method Prepare(plan: seq<(string, string)>, repacked: seq<Bytes>, previous: PriorReleaseInfo, index: Option<Index>)
      returns (ok: bool)
      requires Plain(directory) && packages == [] && |repacked| == |plan|
      requires forall i :: 0 <= i < |plan| ==> CargoName(plan[i].0) && CargoVersion(plan[i].1)
      requires forall i, j :: 0 <= i < j < |plan| ==> plan[i].0 != plan[j].0
      modifies this
      ensures ok <==> forall i :: 0 <= i < |plan| ==> Preparable(previous, index, plan[i].0, plan[i].1, repacked[i])
      ensures ok ==> forall i :: 0 <= i < |plan| ==> HasReleasedManifest(repacked[i], plan[i].0, plan[i].1)
      ensures ok ==> |packages| == |plan| && forall i :: 0 <= i < |plan| ==>
                (packages[i].name, packages[i].version) == plan[i] && Accepted(disk, directory, packages[i])
      ensures ok ==> forall i :: 0 <= i < |plan| && CarriesPublished(previous, index, plan[i].0, plan[i].1) ==>
                MatchesPublished(disk, directory, packages[i], index.value.shown[plan[i]])
    {
      for n := 0 to |plan|
        invariant |packages| == n
        invariant forall i :: 0 <= i < n ==> (packages[i].name, packages[i].version) == plan[i] && Settled(i)
        invariant forall i :: 0 <= i < n ==> Preparable(previous, index, plan[i].0, plan[i].1, repacked[i])
        invariant forall i :: 0 <= i < n && CarriesPublished(previous, index, plan[i].0, plan[i].1) ==>
                    MatchesPublished(disk, directory, packages[i], index.value.shown[plan[i]])
      {
        ghost var was, before := disk, packages;
        var (name, version) := plan[n];
        var step := PrepareOne(name, version, repacked[n], previous, index);
        if !step {
          return false;
        }
        forall i | 0 <= i < n
          ensures packages[i] == before[i] && Settled(i)
          ensures Carried(disk, directory, packages[i]) == Carried(was, directory, before[i])
        {
          assert packages[i] == packages[..n][i] == before[i];
          if CrateFile(packages[i].name, packages[i].version) == CrateFile(name, version) {
            CrateFilesDiffer(packages[i].name, packages[i].version, name, version);
          }
          OtherStaysAccepted(was, disk, directory, packages[i], name, version);
        }
      }
      forall i | 0 <= i < |plan| ensures HasReleasedManifest(repacked[i], plan[i].0, plan[i].1)
      {
        PathFreeIff(repacked[i], plan[i].0, plan[i].1);
      }
      return true;
    }
  }
}
