/**
 Ejecting dependencies into a project: collision detection, copying, and the
 merging of `index.ts` files.
 */
module Eject {
  import opened Collections
  import opened Decimals

  type Path = seq<string>

  /** The files of one dependency's eject folder, by relative path; None when the folder is missing. */
  type Source = Option<map<Path, string>>

  const INDEX := "index.ts"

  predicate IsIndex(p: Path) {
    p != [] && p[|p| - 1] == INDEX
  }

  /** The dependency brings a file for `p`. */
  predicate Brings(source: Source, p: Path) {
    source.Some? && p in source.value
  }

  function Targets(sources: seq<Source>): set<Path> {
    set i, p | 0 <= i < |sources| && sources[i].Some? && p in sources[i].value :: p
  }

  function PlainTargets(sources: seq<Source>): set<Path> {
    set p | p in Targets(sources) && !IsIndex(p)
  }

  function PlainFiles(source: map<Path, string>): map<Path, string> {
    map p | p in source && !IsIndex(p) :: source[p]
  }

  /** The positions of the dependencies that bring `p`, in order. */
  function Bringers(sources: seq<Source>, p: Path): seq<nat> {
    if sources == [] then []
    else
      var n := |sources| - 1;
      Bringers(sources[..n], p) + if Brings(sources[n], p) then [n] else []
  }

  lemma {:induction false} BringersAre(sources: seq<Source>, p: Path)
    ensures forall i :: i in Bringers(sources, p) <==> 0 <= i < |sources| && Brings(sources[i], p)
  {
    if sources != [] {
      BringersAre(sources[..|sources| - 1], p);
    }
  }

  lemma {:induction false} BringersDiffer(sources: seq<Source>, p: Path)
    ensures NoDuplicates(Bringers(sources, p))
  {
    if sources != [] {
      var before := Bringers(sources[..|sources| - 1], p);
      BringersDiffer(sources[..|sources| - 1], p);
      BringersAre(sources[..|sources| - 1], p);
      assert forall k :: 0 <= k < |before| ==> before[k] in before;
    }
  }

  datatype Failure = SameTarget(p: Path) | AlreadyExists(p: Path) | NotEjectable(dependency: nat) | Blocked

  /** No two dependencies bring the same plain file. */
  ghost predicate Disjoint(sources: seq<Source>) {
    forall i, j, p :: 0 <= i < |sources| && 0 <= j < |sources| && i != j && !IsIndex(p) ==>
      !(Brings(sources[i], p) && Brings(sources[j], p))
  }

  lemma NotDisjoint(sources: seq<Source>, p: Path)
    requires |Bringers(sources, p)| > 1 && !IsIndex(p)
    ensures !Disjoint(sources)
  {
    var bringers := Bringers(sources, p);
    BringersAre(sources, p);
    BringersDiffer(sources, p);
    assert bringers[0] in bringers && bringers[1] in bringers;
  }

  lemma TwoBringers(sources: seq<Source>, p: Path, i: nat, j: nat)
    requires i < |sources| && j < |sources| && i != j && Brings(sources[i], p) && Brings(sources[j], p)
    ensures |Bringers(sources, p)| > 1
  {
    BringersAre(sources, p);
    assert i in Bringers(sources, p) && j in Bringers(sources, p);
    var a :| 0 <= a < |Bringers(sources, p)| && Bringers(sources, p)[a] == i;
    var b :| 0 <= b < |Bringers(sources, p)| && Bringers(sources, p)[b] == j;
  }

  lemma OneBringerEach(sources: seq<Source>)
    requires forall p :: p in PlainTargets(sources) ==> |Bringers(sources, p)| <= 1
    ensures Disjoint(sources)
  {
    forall i, j, p | 0 <= i < |sources| && 0 <= j < |sources| && i != j && !IsIndex(p)
      ensures !(Brings(sources[i], p) && Brings(sources[j], p))
    {
      if Brings(sources[i], p) && Brings(sources[j], p) {
        assert p in PlainTargets(sources);
        TwoBringers(sources, p, i, j);
      }
    }
  }

  /** Neither path runs through the other. */
  predicate Apart(p: Path, q: Path) {
    !(p < q) && !(q < p)
  }

  /** The new files fit beside the old ones: no path runs through a file, none is a directory. */
  ghost predicate Clear(files: set<Path>, added: set<Path>, directories: set<Path>) {
    && (forall p :: p in added ==> p !in directories)
    && (forall p, q :: p in added && q in files ==> Apart(p, q))
    && (forall p, q :: p in added && q in added ==> Apart(p, q))
  }

  /** One more file fits. */
  ghost predicate Fits(files: set<Path>, p: Path, directories: set<Path>) {
    p !in directories && forall q :: q in files ==> Apart(p, q)
  }

  lemma ClearGrows(files: set<Path>, added: set<Path>, directories: set<Path>, p: Path)
    requires Clear(files, added, directories)
    ensures Clear(files, added + {p}, directories) <==> Fits(files + added, p, directories)
  {
    if Clear(files, added + {p}, directories) {
      assert p in added + {p};
    }
  }

  lemma ClearSplits(files: set<Path>, before: set<Path>, added: set<Path>, directories: set<Path>)
    requires Clear(files, before, directories)
    ensures Clear(files, before + added, directories) <==> Clear(files + before, added, directories)
  {
    if Clear(files + before, added, directories) {
      forall p, q | p in before + added && q in files + before + added ensures Apart(p, q) {
        if p in added || q in added {
          assert p in added ==> q in files + before || q in added;
          assert q in added ==> p in before || p in added || Apart(q, p);
          if p !in added { assert p in files + before && Apart(q, p); }
        }
      }
    }
    if Clear(files, before + added, directories) {
      forall p, q | p in added && (q in files + before || q in added) ensures Apart(p, q) {
        assert p in before + added;
        assert q in files || q in before + added;
      }
      forall p | p in added ensures p !in directories { assert p in before + added; }
    }
  }

  lemma ClearShrinks(files: set<Path>, part: set<Path>, all: set<Path>, directories: set<Path>)
    requires part <= all && Clear(files, all, directories)
    ensures Clear(files, part, directories)
  {
    forall p, q | p in part && (q in files || q in part) ensures Apart(p, q) {
      assert p in all && (q in files || q in all);
    }
  }

  lemma UnclearGrows(files: set<Path>, part: set<Path>, all: set<Path>, directories: set<Path>)
    requires part <= all && !Clear(files, part, directories)
    ensures !Clear(files, all, directories)
  {
    if Clear(files, all, directories) {
      ClearShrinks(files, part, all, directories);
    }
  }

  ghost predicate AllPresent(sources: seq<Source>) {
    forall i :: 0 <= i < |sources| ==> sources[i].Some?
  }

  /** All plain files of the dependencies. */
  function Copied(sources: seq<Source>): map<Path, string> {
    if sources == [] then map[]
    else
      var n := |sources| - 1;
      Copied(sources[..n]) + if sources[n].Some? then PlainFiles(sources[n].value) else map[]
  }

  lemma {:induction false} CopiedAt(sources: seq<Source>, i: nat, p: Path)
    requires Disjoint(sources) && i < |sources| && Brings(sources[i], p) && !IsIndex(p)
    ensures p in Copied(sources) && Copied(sources)[p] == sources[i].value[p]
  {
    var n := |sources| - 1;
    if i < n {
      assert forall k :: 0 <= k < n ==> sources[..n][k] == sources[k];
      CopiedAt(sources[..n], i, p);
      assert !Brings(sources[n], p);
    }
  }

  lemma {:induction false} CopiedFrom(sources: seq<Source>, p: Path)
    requires p in Copied(sources)
    ensures !IsIndex(p) && exists i :: 0 <= i < |sources| && Brings(sources[i], p)
  {
    var n := |sources| - 1;
    if Brings(sources[n], p) && !IsIndex(p) {
    } else {
      CopiedFrom(sources[..n], p);
      var i :| 0 <= i < n && Brings(sources[..n][i], p);
      assert Brings(sources[i], p);
    }
  }

  /** Some of `added` was written: every file is an old one or an added one, none is gone. */
  ghost predicate PartlyAdded(was: map<Path, string>, files: map<Path, string>, added: map<Path, string>) {
    && was.Keys <= files.Keys
    && forall p :: p in files ==> (p in was && files[p] == was[p]) || (p in added && files[p] == added[p])
  }

  lemma PartlyAddedTwice(was: map<Path, string>, middle: map<Path, string>, files: map<Path, string>,
                         first: map<Path, string>, second: map<Path, string>, all: map<Path, string>)
    requires PartlyAdded(was, middle, first) && PartlyAdded(middle, files, second)
    requires forall p :: p in first ==> p in all && all[p] == first[p]
    requires forall p :: p in second ==> p in all && all[p] == second[p]
    ensures PartlyAdded(was, files, all)
  {
  }

  /** Some dependency brings `p` with this content. */
  ghost predicate FromSource(sources: seq<Source>, p: Path, content: string) {
    exists i :: 0 <= i < |sources| && Brings(sources[i], p) && sources[i].value[p] == content
  }

  lemma TargetsAre(sources: seq<Source>, p: Path)
    ensures p in Targets(sources) <==> exists i :: 0 <= i < |sources| && Brings(sources[i], p)
  {
    if i :| 0 <= i < |sources| && Brings(sources[i], p) {
      assert sources[i].Some? && p in sources[i].value;
    }
    if p in Targets(sources) {
      var i :| 0 <= i < |sources| && sources[i].Some? && p in sources[i].value;
      assert Brings(sources[i], p);
    }
  }

  lemma {:induction false} CopiedIsBrought(sources: seq<Source>, p: Path)
    requires p in Copied(sources)
    ensures p in PlainTargets(sources) && FromSource(sources, p, Copied(sources)[p])
  {
    var n := |sources| - 1;
    CopiedFrom(sources, p);
    TargetsAre(sources, p);
    if Brings(sources[n], p) {
      assert Copied(sources)[p] == sources[n].value[p];
    } else {
      CopiedIsBrought(sources[..n], p);
      var i :| 0 <= i < n && Brings(sources[..n][i], p) && sources[..n][i].value[p] == Copied(sources[..n])[p];
      assert sources[i] == sources[..n][i];
    }
  }

  /** What the first `i` dependencies copy is part of what all copy. */
  lemma CopiedPart(sources: seq<Source>, i: nat)
    requires Disjoint(sources) && i <= |sources|
    ensures forall p :: p in Copied(sources[..i]) ==>
              p in Copied(sources) && Copied(sources)[p] == Copied(sources[..i])[p]
  {
    forall p | p in Copied(sources[..i]) ensures p in Copied(sources) && Copied(sources)[p] == Copied(sources[..i])[p] {
      CopiedIsBrought(sources[..i], p);
      var k :| 0 <= k < i && Brings(sources[..i][k], p) && sources[..i][k].value[p] == Copied(sources[..i])[p];
      assert sources[k] == sources[..i][k];
      CopiedFrom(sources[..i], p);
      CopiedAt(sources, k, p);
    }
  }

  lemma PlainPart(sources: seq<Source>, i: nat)
    requires Disjoint(sources) && i < |sources| && sources[i].Some?
    ensures forall p :: p in PlainFiles(sources[i].value) ==>
              p in Copied(sources) && Copied(sources)[p] == PlainFiles(sources[i].value)[p]
  {
    forall p | p in PlainFiles(sources[i].value)
      ensures p in Copied(sources) && Copied(sources)[p] == PlainFiles(sources[i].value)[p]
    {
      CopiedAt(sources, i, p);
    }
  }

  /** The first `i` dependencies have been copied, and fit. */
  ghost predicate CopiedSoFar(original: map<Path, string>, sources: seq<Source>, i: nat, files: map<Path, string>,
                              directories: set<Path>)
    requires i <= |sources|
  {
    && Copied(sources[..i]).Keys == PlainTargets(sources[..i]) && files == original + Copied(sources[..i])
    && Clear(original.Keys, PlainTargets(sources[..i]), directories)
  }

  lemma TargetsAppend(sources: seq<Source>, source: Source, p: Path)
    ensures p in Targets(sources + [source]) <==> p in Targets(sources) || Brings(source, p)
  {
    var all := sources + [source];
    TargetsAre(sources, p);
    TargetsAre(all, p);
    if i :| 0 <= i < |sources| && Brings(sources[i], p) {
      assert Brings(all[i], p);
    }
    if Brings(source, p) {
      assert Brings(all[|sources|], p);
    }
  }

  lemma TargetsGrow(sources: seq<Source>, k: nat)
    requires k <= |sources|
    ensures PlainTargets(sources[..k]) <= PlainTargets(sources)
  {
    forall p | p in Targets(sources[..k]) ensures p in Targets(sources) {
      TargetsAre(sources[..k], p);
      TargetsAre(sources, p);
      var i :| 0 <= i < k && Brings(sources[..k][i], p);
      assert Brings(sources[i], p);
    }
  }

  lemma CopiedGrows(sources: seq<Source>, tree: map<Path, string>)
    requires Copied(sources).Keys == PlainTargets(sources)
    ensures Copied(sources + [Some(tree)]) == Copied(sources) + PlainFiles(tree)
    ensures PlainTargets(sources + [Some(tree)]) == PlainTargets(sources) + PlainFiles(tree).Keys
    ensures Copied(sources + [Some(tree)]).Keys == PlainTargets(sources + [Some(tree)])
  {
    assert (sources + [Some(tree)])[..|sources|] == sources;
    forall p ensures p in Targets(sources + [Some(tree)]) <==> p in Targets(sources) || p in tree {
      TargetsAppend(sources, Some(tree), p);
    }
  }

  lemma MergeAssociates(a: map<Path, string>, b: map<Path, string>, c: map<Path, string>)
    ensures a + b + c == a + (b + c)
  {
  }

  /** What copying dependency `i` means for the whole: it extends the copy, or the whole cannot be clear. */
  lemma CopyStep(original: map<Path, string>, sources: seq<Source>, i: nat, files: map<Path, string>,
                 directories: set<Path>)
    requires i < |sources| && sources[i].Some? && CopiedSoFar(original, sources, i, files, directories)
    ensures var plain := PlainFiles(sources[i].value);
            if Clear(files.Keys, plain.Keys, directories)
                then CopiedSoFar(original, sources, i + 1, files + plain, directories)
            else !Clear(original.Keys, PlainTargets(sources), directories)
  {
    var before, plain := PlainTargets(sources[..i]), PlainFiles(sources[i].value);
    var next := sources[..i] + [sources[i]];
    assert sources[..i + 1] == next;
    CopiedGrows(sources[..i], sources[i].value);
    assert files.Keys == original.Keys + before;
    ClearSplits(original.Keys, before, plain.Keys, directories);
    TargetsGrow(sources, i + 1);
    if Clear(files.Keys, plain.Keys, directories) {
      MergeAssociates(original, Copied(sources[..i]), plain);
    } else {
      UnclearGrows(original.Keys, before + plain.Keys, PlainTargets(sources), directories);
    }
  }

  function IndexTargets(sources: seq<Source>): set<Path> {
    set p | p in Targets(sources) && IsIndex(p)
  }

  function IndexFiles(tree: map<Path, string>): set<Path> {
    set p | p in tree && IsIndex(p)
  }

  /** The texts the dependencies bring for `p`, in dependency order. */
  function Contents(sources: seq<Source>, p: Path): seq<string> {
    if sources == [] then []
    else
      var n := |sources| - 1;
      Contents(sources[..n], p) + if Brings(sources[n], p) then [sources[n].value[p]] else []
  }

  function Lines(texts: seq<string>): string {
    if texts == [] then "" else texts[0] + "\n" + Lines(texts[1..])
  }

  lemma {:induction false} LinesAppend(texts: seq<string>, text: string)
    ensures Lines(texts + [text]) == Lines(texts) + (text + "\n")
  {
    if texts == [] {
      assert ([] + [text])[1..] == [];
    } else {
      assert (texts + [text])[1..] == texts[1..] + [text];
      LinesAppend(texts[1..], text);
    }
  }

  /** Cut at its line ends, the text gives the texts back when each is one line. */
  lemma {:induction false} LinesSplit(texts: seq<string>)
    requires forall text :: text in texts ==> '\n' !in text
    ensures Split(Lines(texts), '\n') == texts + [""]
  {
    if texts == [] {
      IndexOfFirst("", '\n', "");
    } else {
      var rest := Lines(texts[1..]);
      IndexOfFirst(texts[0], '\n', rest);
      assert Lines(texts) == texts[0] + ['\n'] + rest;
      assert Lines(texts)[|texts[0]| + 1..] == rest && Lines(texts)[..|texts[0]|] == texts[0];
      LinesSplit(texts[1..]);
      assert texts == [texts[0]] + texts[1..];
    }
  }

  /** The texts of a path are those of the dependencies that bring it, in the order of the dependencies. */
  lemma {:induction false} ContentsOfBringers(sources: seq<Source>, p: Path)
    ensures |Contents(sources, p)| == |Bringers(sources, p)|
    ensures forall k :: 0 <= k < |Bringers(sources, p)| ==>
              var i := Bringers(sources, p)[k];
              i < |sources| && Brings(sources[i], p) && Contents(sources, p)[k] == sources[i].value[p]
    ensures forall k, l :: 0 <= k < l < |Bringers(sources, p)| ==> Bringers(sources, p)[k] < Bringers(sources, p)[l]
  {
    if sources != [] {
      var n := |sources| - 1;
      ContentsOfBringers(sources[..n], p);
      var before := Bringers(sources[..n], p);
      assert forall k :: 0 <= k < |before| ==> before[k] < n && sources[..n][before[k]] == sources[before[k]];
    }
  }

  lemma IndexTargetsGrow(sources: seq<Source>, i: nat)
    requires i < |sources|
    ensures IndexTargets(sources[..i + 1]) ==
            IndexTargets(sources[..i]) + if sources[i].Some? then IndexFiles(sources[i].value) else {}
  {
    forall p ensures p in Targets(sources[..i + 1]) <==> p in Targets(sources[..i]) || Brings(sources[i], p) {
      TargetsAppend(sources[..i], sources[i], p);
      assert sources[..i + 1] == sources[..i] + [sources[i]];
    }
  }

  lemma {:induction false} NoContents(sources: seq<Source>, p: Path)
    requires IsIndex(p) ==> p !in IndexTargets(sources)
    ensures IsIndex(p) ==> Contents(sources, p) == []
  {
    if sources != [] && IsIndex(p) {
      var n := |sources| - 1;
      assert sources == sources[..n] + [sources[n]];
      TargetsAppend(sources[..n], sources[n], p);
      NoContents(sources[..n], p);
    }
  }

  /** The sources of every `index.ts`, in dependency order. */
  method GatherIndexFiles(sources: seq<Source>) returns (merge: map<Path, seq<string>>)
    ensures merge.Keys == IndexTargets(sources)
    ensures forall p :: p in merge ==> merge[p] == Contents(sources, p)
  {
    merge := map[];
    for i := 0 to |sources|
      invariant merge.Keys == IndexTargets(sources[..i])
      invariant forall p :: p in merge ==> merge[p] == Contents(sources[..i], p)
    {
      assert sources[..i + 1][..i] == sources[..i];
      IndexTargetsGrow(sources, i);
      forall p | p !in IndexTargets(sources[..i]) ensures IsIndex(p) ==> Contents(sources[..i], p) == [] {
        NoContents(sources[..i], p);
      }
      if sources[i].Some? {
        var tree := sources[i].value;
        merge := map p | p in merge.Keys + IndexFiles(tree) ::
          (if p in merge then merge[p] else []) + (if p in tree then [tree[p]] else []);
      }
    }
    assert sources[..|sources|] == sources;
  }

  function Appended(present: bool, current: Option<string>, texts: seq<string>): Option<string> {
    if !present then Some(Lines(texts))
    else
      match current
      case None => None
      case Some(text) => Some(text + "\n" + Lines(texts))
  }

  /** The paths in `done` have their wanted text, all others are as before. */
  ghost predicate Rendered(was: map<Path, string>, cache: map<Path, string>, wanted: map<Path, Option<string>>,
                           done: set<Path>)
  {
    && cache.Keys == was.Keys + done
    && (forall p :: p in done ==> p in wanted && Some(cache[p]) == wanted[p])
    && (forall p :: p in was && p !in done ==> cache[p] == was[p])
  }

  /** The project's files and the directories that exist besides the parents of files. */
  class Project {
    var files: map<Path, string>
    const directories: set<Path>
    /** Rendered files that are written at the end. */
    var cache: map<Path, string>

    constructor (files: map<Path, string>, directories: set<Path>)
      ensures this.files == files && this.directories == directories && cache == map[]
    {
      this.files := files;
      this.directories := directories;
      cache := map[];
    }

    /** The path exists, as a file or as a directory. */
    predicate Exists(p: Path)
      reads this`files
    {
      p in files || p in directories || exists q :: q in files && p < q
    }

    /** The collision check: it passes exactly when every plain target is new and has one source. */
    method DetectCollisions(sources: seq<Source>) returns (r: Option<Failure>)
      ensures r.None? <==> Disjoint(sources) && forall p :: p in PlainTargets(sources) ==>
                             p !in files && p !in directories && forall q :: q in files ==> !(p < q)
      ensures r.Some? ==> r.value.SameTarget? || r.value.AlreadyExists?
      ensures r.Some? && r.value.AlreadyExists? ==> r.value.p in PlainTargets(sources) && Exists(r.value.p)
      ensures r.Some? && r.value.SameTarget? ==> !IsIndex(r.value.p) && |Bringers(sources, r.value.p)| > 1
    {
      var rest := PlainTargets(sources);
      var collision: Option<Failure> := None;
      while rest != {}
        invariant rest <= PlainTargets(sources)
        invariant collision.None? <==> forall p :: p in PlainTargets(sources) - rest ==> !Exists(p)
        invariant collision.Some? ==>
                  collision.value.AlreadyExists? && collision.value.p in PlainTargets(sources)
                      && Exists(collision.value.p)
        invariant forall p :: p in PlainTargets(sources) - rest ==> |Bringers(sources, p)| <= 1
      {
        var p :| p in rest;
        rest := rest - {p};
        if |Bringers(sources, p)| > 1 {
          BringersAre(sources, p);
          NotDisjoint(sources, p);
          return Some(SameTarget(p));
        }
        if Exists(p) {
          collision := Some(AlreadyExists(p));
        }
      }
      OneBringerEach(sources);
      assert PlainTargets(sources) - rest == PlainTargets(sources);
      assert forall p :: p in PlainTargets(sources) ==>
                           (!Exists(p) <==> p !in files && p !in directories && forall q :: q in files ==> !(p < q));
      return collision;
    }

    /** Creates the parents and writes the file; fails when a file or directory is in the way. */
    method CopyFile(p: Path, content: string) returns (ok: bool)
      modifies this`files
      ensures ok <==> Fits(old(files).Keys, p, directories)
      ensures files == if ok then old(files)[p := content] else old(files)
    {
      if exists q | q in files :: q < p {
        var q :| q in files && q < p;
        assert !Apart(p, q);
        return false;
      }
      if p in directories {
        return false;
      }
      if exists q | q in files :: p < q {
        var q :| q in files && p < q;
        assert !Apart(p, q);
        return false;
      }
      files := files[p := content];
      return true;
    }

    /** Copies the plain files of one dependency. */
    method CopyTree(source: map<Path, string>) returns (ok: bool)
      modifies this`files
      ensures ok ==> files == old(files) + PlainFiles(source)
      ensures ok <==> Clear(old(files).Keys, PlainFiles(source).Keys, directories)
      ensures PartlyAdded(old(files), files, PlainFiles(source))
    {
      var plain := PlainFiles(source);
      var rest := plain.Keys;
      while rest != {}
        invariant rest <= plain.Keys
        invariant files == old(files) + (plain - rest)
        invariant Clear(old(files).Keys, plain.Keys - rest, directories)
      {
        var p :| p in rest;
        ghost var done := plain.Keys - rest;
        assert files.Keys == old(files).Keys + done;
        ClearGrows(old(files).Keys, done, directories, p);
        var fits := CopyFile(p, plain[p]);
        rest := rest - {p};
        assert plain.Keys - rest == done + {p};
        if !fits {
          UnclearGrows(old(files).Keys, done + {p}, plain.Keys, directories);
          return false;
        }
      }
      assert plain - {} == plain && plain.Keys - {} == plain.Keys;
      return true;
    }

    /** Copies dependency after dependency; stops at a missing folder and at a path in the way. */
    method CopyAll(sources: seq<Source>) returns (r: Option<Failure>)
      requires Disjoint(sources)
      modifies this`files
      ensures r.None? <==> AllPresent(sources) && Clear(old(files).Keys, PlainTargets(sources), directories)
      ensures r.None? ==> files == old(files) + Copied(sources) && Copied(sources).Keys == PlainTargets(sources)
      ensures r.Some? ==> r.value.NotEjectable? || r.value.Blocked?
      ensures r.Some? && r.value.NotEjectable? ==>
                r.value.dependency < |sources| && sources[r.value.dependency].None?
                    && AllPresent(sources[..r.value.dependency])
      ensures PartlyAdded(old(files), files, Copied(sources))
    {
      for i := 0 to |sources|
        invariant forall k :: 0 <= k < i ==> sources[k].Some?
        invariant CopiedSoFar(old(files), sources, i, files, directories)
      {
        CopiedPart(sources, i);
        if sources[i].None? {
          return Some(NotEjectable(i));
        }
        CopyStep(old(files), sources, i, files, directories);
        PlainPart(sources, i);
        ghost var before := files;
        var ok := CopyTree(sources[i].value);
        if !ok {
          PartlyAddedTwice(old(files), before, files, Copied(sources[..i]), PlainFiles(sources[i].value),
              Copied(sources));
          return Some(Blocked);
        }
      }
      assert sources[..|sources|] == sources;
      return None;
    }

    /**
     Ejects the selected dependencies. Whatever the outcome, every old file stays
     as it was and every new file is a dependency's. A refused ejection changes
     nothing; a completed one adds exactly the dependencies' plain files. It
     completes exactly when, besides the collision check, every folder is there
     and no file lies on the way to another.
     */
    method EjectDependencies(sources: seq<Source>) returns (r: Option<Failure>)
      modifies this`files
      ensures r.None? <==> && Disjoint(sources) && (forall p :: p in PlainTargets(sources) ==> p !in old(files))
                           && AllPresent(sources) && Clear(old(files).Keys, PlainTargets(sources), directories)
      ensures r.None? ==> files == old(files) + Copied(sources) && old(files).Keys !! Copied(sources).Keys
      ensures r.Some? && (r.value.SameTarget? || r.value.AlreadyExists?) ==> files == old(files)
      ensures forall p :: p in old(files) ==> p in files && files[p] == old(files)[p]
      ensures forall p :: p in files && p !in old(files) ==>
                p in PlainTargets(sources) && FromSource(sources, p, files[p])
    {
      r := DetectCollisions(sources);
      if r.None? {
        assert forall p :: p in PlainTargets(sources) ==> p !in files;
        r := CopyAll(sources);
        assert forall p :: p in old(files) ==> p !in PlainTargets(sources);
        forall p | p in Copied(sources)
          ensures p in PlainTargets(sources) && FromSource(sources, p, Copied(sources)[p])
        {
          CopiedIsBrought(sources, p);
        }
      }
    }

    /** The text a path has now: rendered, or on disk. */
    function Current(p: Path): Option<string>
      reads this
    {
      if p in cache then Some(cache[p]) else if p in files then Some(files[p]) else None
    }

    /** What `p` renders to: the old text, then every source's in order; None when it exists and has no text. */
    function NewText(p: Path, texts: seq<string>): Option<string>
      reads this
    {
      Appended(Exists(p), Current(p), texts)
    }

    method RenderIndex(p: Path, texts: seq<string>) returns (ok: bool)
      modifies this`cache
      ensures ok <==> old(NewText(p, texts)).Some?
      ensures cache == if ok then old(cache)[p := old(NewText(p, texts)).value] else old(cache)
    {
      var text := "";
      if Exists(p) {
        var current := Current(p);
        if current.None? {
          return false;
        }
        text := current.value + "\n";
      }
      ghost var start := text;
      assert start + "" == start && "" + Lines(texts) == Lines(texts);
      for i := 0 to |texts|
        invariant text == start + Lines(texts[..i])
        invariant cache == old(cache)
      {
        LinesAppend(texts[..i], texts[i]);
        assert texts[..i + 1] == texts[..i] + [texts[i]];
        text := text + texts[i];
        text := text + "\n";
      }
      assert texts[..|texts|] == texts;
      cache := cache[p := text];
      return true;
    }

    /** The texts the paths of `merge` are to get. */
    ghost function NewTexts(merge: map<Path, seq<string>>): map<Path, Option<string>>
      reads this
    {
      map p | p in merge :: NewText(p, merge[p])
    }

    method RenderAll(merge: map<Path, seq<string>>) returns (ok: bool)
      modifies this`cache
      ensures ok ==> Rendered(old(cache), cache, old(NewTexts(merge)), merge.Keys)
      ensures ok <==> forall p :: p in merge ==> old(NewTexts(merge))[p].Some?
    {
      ghost var wanted := NewTexts(merge);
      var rest := merge.Keys;
      while rest != {}
        invariant rest <= merge.Keys && Rendered(old(cache), cache, wanted, merge.Keys - rest)
      {
        var p :| p in rest;
        assert NewText(p, merge[p]) == wanted[p];
        var rendered := RenderIndex(p, merge[p]);
        if !rendered {
          return false;
        }
        rest := rest - {p};
      }
      return true;
    }

    /** Renders every merged `index.ts`. */
    method MergeIndexFiles(sources: seq<Source>) returns (ok: bool)
      modifies this`cache
      ensures ok <==> forall p :: p in IndexTargets(sources) ==> old(NewText(p, Contents(sources, p))).Some?
      ensures ok <==> forall p :: p in IndexTargets(sources) ==>
                p in old(cache) || p in old(files) || (p !in directories && forall q :: q in old(files) ==> !(p < q))
      ensures ok ==> cache.Keys == old(cache).Keys + IndexTargets(sources)
      ensures ok ==> forall p :: p in IndexTargets(sources) ==> Some(cache[p]) == old(NewText(p, Contents(sources, p)))
      ensures ok ==> forall p :: p in IndexTargets(sources) ==>
                var present := p in old(files) || p in directories || exists q :: q in old(files) && p < q;
                cache[p] == (if !present then ""
                             else (if p in old(cache) then old(cache)[p] else old(files)[p]) + "\n")
                            + Lines(Contents(sources, p))
      ensures ok ==> forall p :: p in old(cache) && p !in IndexTargets(sources) ==> cache[p] == old(cache)[p]
    {
      var merge := GatherIndexFiles(sources);
      ok := RenderAll(merge);
    }
  }

  // ----- The order of the dependencies does not matter -----

  /** `perm` lists every position once. */
  ghost predicate Permutation(perm: seq<nat>, n: nat) {
    |perm| == n && NoDuplicates(perm) && forall i :: 0 <= i < n ==> perm[i] < n
  }

  function Permuted(sources: seq<Source>, perm: seq<nat>): seq<Source>
    requires forall i :: 0 <= i < |perm| ==> perm[i] < |sources|
  {
    seq(|perm|, i requires 0 <= i < |perm| => sources[perm[i]])
  }

  lemma PermutationOnto(perm: seq<nat>, n: nat, x: nat)
    requires Permutation(perm, n) && x < n
    ensures exists k :: 0 <= k < n && perm[k] == x
  {
    if x !in perm {
      var bounded := seq(n, i requires 0 <= i < n => i);
      var all := ToSet(bounded);
      DistinctSize(bounded);
      forall y | y in ToSet(perm) ensures y in all - {x} {
        assert bounded[y] == y;
      }
      assert bounded[x] == x;
      DistinctSize(perm);
      assert ToSet(perm) <= all - {x};
      assert |all - {x}| == n - 1;
      SubsetSize(ToSet(perm), all - {x});
    }
  }

  lemma DisjointInAnyOrder(sources: seq<Source>, perm: seq<nat>)
    requires Disjoint(sources) && Permutation(perm, |sources|)
    ensures Disjoint(Permuted(sources, perm))
  {
    var other := Permuted(sources, perm);
    forall i, j, p | 0 <= i < |other| && 0 <= j < |other| && i != j && !IsIndex(p)
      ensures !(Brings(other[i], p) && Brings(other[j], p))
    {
      assert perm[i] != perm[j];
      assert other[i] == sources[perm[i]] && other[j] == sources[perm[j]];
    }
  }

  lemma CopiedInBoth(sources: seq<Source>, perm: seq<nat>, p: Path)
    requires Disjoint(sources) && Permutation(perm, |sources|)
    requires p in Copied(Permuted(sources, perm))
    ensures p in Copied(sources)
  {
    var other := Permuted(sources, perm);
    CopiedFrom(other, p);
    var i :| 0 <= i < |other| && Brings(other[i], p);
    assert other[i] == sources[perm[i]];
    CopiedAt(sources, perm[i], p);
  }

  lemma SameCopies(sources: seq<Source>, perm: seq<nat>, p: Path)
    requires Disjoint(sources) && Permutation(perm, |sources|) && Disjoint(Permuted(sources, perm))
    ensures p in Copied(Permuted(sources, perm)) <==> p in Copied(sources)
    ensures p in Copied(sources) ==> Copied(Permuted(sources, perm))[p] == Copied(sources)[p]
  {
    if p in Copied(Permuted(sources, perm)) {
      CopiedInBoth(sources, perm, p);
    }
    if p in Copied(sources) {
      CopiedFrom(sources, p);
      var i :| 0 <= i < |sources| && Brings(sources[i], p);
      PermutationOnto(perm, |sources|, i);
      var k :| 0 <= k < |sources| && perm[k] == i;
      assert Permuted(sources, perm)[k] == sources[i];
      CopiedAt(Permuted(sources, perm), k, p);
      CopiedAt(sources, i, p);
    }
  }

  /** Ejecting in any order copies the same files. */
  lemma OrderDoesNotMatter(sources: seq<Source>, perm: seq<nat>)
    requires Disjoint(sources) && Permutation(perm, |sources|)
    ensures Disjoint(Permuted(sources, perm))
    ensures Copied(Permuted(sources, perm)) == Copied(sources)
  {
    var other := Permuted(sources, perm);
    DisjointInAnyOrder(sources, perm);
    forall p ensures p in Copied(other) <==> p in Copied(sources) {
      SameCopies(sources, perm, p);
    }
    forall p | p in Copied(sources) ensures Copied(other)[p] == Copied(sources)[p] {
      SameCopies(sources, perm, p);
    }
  }

  /** The collision check alone is not enough: a file may lie on the way to another dependency's file. */
  lemma PassedCheckMayBlock(text: string) returns (sources: seq<Source>)
    ensures Disjoint(sources) && AllPresent(sources)
    ensures !Clear({}, PlainTargets(sources), {})
  {
    var a, b := ["domain"], ["domain", "types.ts"];
    sources := [Some(map[a := text]), Some(map[b := text])];
    TargetsAre(sources, a);
    TargetsAre(sources, b);
    assert Brings(sources[0], a) && Brings(sources[1], b);
    assert a < b;
    assert !IsIndex(a) && !IsIndex(b);
    assert a in PlainTargets(sources) && b in PlainTargets(sources);
    assert !Apart(a, b);
  }
}
