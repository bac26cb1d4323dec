/** Report card findings: ordered by severity, then collapsed into counted groups. */
module Score {
  import opened Collections

  datatype Finding = Finding(rail: string, severity: string, title: string, detail: string)

  type Key = (string, string, string)

  datatype Group = Group(first: Finding, count: nat)

  function Rank(severity: string): nat {
    if severity == "critical" then 0
    else if severity == "high" then 1
    else if severity == "medium" then 2
    else if severity == "low" then 3
    else 4
  }

  const SEVERITIES := ["critical", "high", "medium", "low"]

  /** The named severities rank in their order, before any other text. */
  lemma RanksInOrder(i: nat, j: nat, other: string)
    requires i < j < |SEVERITIES| && other !in SEVERITIES
    ensures Rank(SEVERITIES[i]) < Rank(SEVERITIES[j]) < Rank(other)
  {
  }

  lemma OthersRankEqual(a: string, b: string)
    requires a !in SEVERITIES && b !in SEVERITIES
    ensures Rank(a) == Rank(b)
  {
    assert SEVERITIES[0] == "critical" && SEVERITIES[1] == "high" && SEVERITIES[2] == "medium"
        && SEVERITIES[3] == "low";
  }

  predicate MoreSevere(a: Finding, b: Finding) {
    Rank(a.severity) <= Rank(b.severity)
  }

  /** Identical findings: same rail, title and evidence. */
  function PromptKey(f: Finding): Key {
    (f.rail, f.title, f.detail)
  }

  /** The summary of one rail looks at titles only. */
  function SummaryKey(f: Finding): Key {
    ("", f.title, "")
  }

  function CountKey(fs: seq<Finding>, key: Finding -> Key, k: Key): nat {
    if fs == [] then 0 else (if key(fs[0]) == k then 1 else 0) + CountKey(fs[1..], key, k)
  }

  /** The position of the first finding with key `k`; the length when there is none. */
  function FirstIndex(fs: seq<Finding>, key: Finding -> Key, k: Key): (i: nat)
    ensures i <= |fs| && (i < |fs| ==> key(fs[i]) == k)
    ensures forall j :: 0 <= j < i ==> key(fs[j]) != k
  {
    if fs == [] || key(fs[0]) == k then 0 else 1 + FirstIndex(fs[1..], key, k)
  }

  function First(fs: seq<Finding>, key: Finding -> Key, g: Group): nat {
    FirstIndex(fs, key, key(g.first))
  }

  /** The group shows the first finding with its key and counts all of them. */
  ghost predicate IsGroup(fs: seq<Finding>, key: Finding -> Key, g: Group) {
    && First(fs, key, g) < |fs| && g.first == fs[First(fs, key, g)]
    && g.count == CountKey(fs, key, key(g.first))
  }

  ghost predicate Grouped(groups: seq<Group>, key: Finding -> Key, f: Finding) {
    exists i :: 0 <= i < |groups| && key(groups[i].first) == key(f)
  }

  /** The groups of a list: every key once, in the order the keys first appear. */
  ghost predicate Groups(fs: seq<Finding>, key: Finding -> Key, groups: seq<Group>) {
    && (forall i :: 0 <= i < |groups| ==> IsGroup(fs, key, groups[i]))
    && (forall i, j :: 0 <= i < j < |groups| ==> First(fs, key, groups[i]) < First(fs, key, groups[j]))
    && (forall f {:trigger Grouped(groups, key, f)} :: f in fs ==> Grouped(groups, key, f))
  }

  function Total(groups: seq<Group>): nat {
    if groups == [] then 0 else Total(groups[..|groups| - 1]) + groups[|groups| - 1].count
  }

  lemma {:induction false} CountAppend(fs: seq<Finding>, f: Finding, key: Finding -> Key, k: Key)
    ensures CountKey(fs + [f], key, k) == CountKey(fs, key, k) + if key(f) == k then 1 else 0
    ensures CountKey(fs, key, k) == 0 <==> FirstIndex(fs, key, k) == |fs|
    ensures FirstIndex(fs + [f], key, k) ==
              if FirstIndex(fs, key, k) < |fs| || key(f) == k then FirstIndex(fs, key, k) else |fs| + 1
  {
    if fs != [] {
      assert (fs + [f])[1..] == fs[1..] + [f];
      CountAppend(fs[1..], f, key, k);
    }
  }

  lemma {:induction false} TotalBump(groups: seq<Group>, i: nat)
    requires i < |groups|
    ensures Total(groups[i := groups[i].(count := groups[i].count + 1)]) == Total(groups) + 1
  {
    var n := |groups| - 1;
    var after := groups[i := groups[i].(count := groups[i].count + 1)];
    if i < n {
      assert after[..n] == groups[..n][i := groups[i].(count := groups[i].count + 1)];
      TotalBump(groups[..n], i);
    } else {
      assert after[..n] == groups[..n];
    }
  }

  /** One more finding changes the count of its own group only. */
  lemma GroupGrows(fs: seq<Finding>, f: Finding, key: Finding -> Key, g: Group)
    requires IsGroup(fs, key, g)
    ensures IsGroup(fs + [f], key, if key(g.first) == key(f) then g.(count := g.count + 1) else g)
    ensures First(fs + [f], key, g) == First(fs, key, g)
  {
    CountAppend(fs, f, key, key(g.first));
  }

  lemma SameKeySameGroup(fs: seq<Finding>, key: Finding -> Key, groups: seq<Group>, i: nat, j: nat)
    requires Groups(fs, key, groups) && i < |groups| && j < |groups|
    requires key(groups[i].first) == key(groups[j].first)
    ensures i == j
  {
    assert First(fs, key, groups[i]) == First(fs, key, groups[j]);
  }

  lemma GroupedGrows(fs: seq<Finding>, f: Finding, key: Finding -> Key, groups: seq<Group>, after: seq<Group>)
    requires forall g {:trigger Grouped(groups, key, g)} :: g in fs ==> Grouped(groups, key, g)
    requires |groups| <= |after| && forall i :: 0 <= i < |groups| ==> key(after[i].first) == key(groups[i].first)
    requires Grouped(after, key, f)
    ensures forall g {:trigger Grouped(after, key, g)} :: g in fs + [f] ==> Grouped(after, key, g)
  {
    forall g | g in fs + [f] ensures Grouped(after, key, g) {
      if g in fs {
        assert Grouped(groups, key, g);
        var i :| 0 <= i < |groups| && key(groups[i].first) == key(g);
        assert key(after[i].first) == key(g);
      }
    }
  }

  lemma GroupsBump(fs: seq<Finding>, f: Finding, key: Finding -> Key, groups: seq<Group>, i: nat)
    requires Groups(fs, key, groups) && i < |groups| && key(groups[i].first) == key(f)
    ensures Groups(fs + [f], key, groups[i := groups[i].(count := groups[i].count + 1)])
  {
    var after := groups[i := groups[i].(count := groups[i].count + 1)];
    forall j | 0 <= j < |groups|
      ensures IsGroup(fs + [f], key, after[j]) && First(fs + [f], key, after[j]) == First(fs, key, groups[j])
    {
      GroupGrows(fs, f, key, groups[j]);
      if key(groups[j].first) == key(f) {
        SameKeySameGroup(fs, key, groups, i, j);
      }
    }
    assert key(after[i].first) == key(f);
    GroupedGrows(fs, f, key, groups, after);
  }

  lemma GroupsNew(fs: seq<Finding>, f: Finding, key: Finding -> Key, groups: seq<Group>)
    requires Groups(fs, key, groups) && forall i :: 0 <= i < |groups| ==> key(groups[i].first) != key(f)
    ensures Groups(fs + [f], key, groups + [Group(f, 1)])
  {
    var after := groups + [Group(f, 1)];
    var k := FirstIndex(fs, key, key(f));
    assert k < |fs| ==> Grouped(groups, key, fs[k]);
    CountAppend(fs, f, key, key(f));
    forall j | 0 <= j < |groups|
      ensures after[j] == groups[j] && IsGroup(fs + [f], key, after[j])
      ensures First(fs + [f], key, after[j]) == First(fs, key, groups[j]) < |fs|
    {
      GroupGrows(fs, f, key, groups[j]);
    }
    assert key(after[|groups|].first) == key(f);
    GroupedGrows(fs, f, key, groups, after);
  }

  /** Counts a finding in its group, or opens a group for it. */
  method AddFinding(groups: seq<Group>, ghost fs: seq<Finding>, f: Finding, key: Finding -> Key)
    returns (after: seq<Group>)
    requires Groups(fs, key, groups)
    ensures Groups(fs + [f], key, after) && Total(after) == Total(groups) + 1
  {
    for i := 0 to |groups|
      invariant forall j :: 0 <= j < i ==> key(groups[j].first) != key(f)
    {
      if key(groups[i].first) == key(f) {
        GroupsBump(fs, f, key, groups, i);
        TotalBump(groups, i);
        return groups[i := groups[i].(count := groups[i].count + 1)];
      }
    }
    GroupsNew(fs, f, key, groups);
    assert (groups + [Group(f, 1)])[..|groups|] == groups;
    after := groups + [Group(f, 1)];
  }

  /** Collapses findings with equal keys; the counts add up to the number of findings. */
  method GroupBy(fs: seq<Finding>, key: Finding -> Key) returns (groups: seq<Group>)
    ensures Groups(fs, key, groups) && Total(groups) == |fs|
  {
    groups := [];
    ghost var done: seq<Finding> := [];
    for n := 0 to |fs|
      invariant done == fs[..n] && Groups(done, key, groups) && Total(groups) == n
    {
      groups := AddFinding(groups, done, fs[n], key);
      done := done + [fs[n]];
    }
    assert done == fs;
  }

  lemma GroupInBoth(fs: seq<Finding>, key: Finding -> Key, a: seq<Group>, b: seq<Group>, g: Group)
    requires Groups(fs, key, a) && Groups(fs, key, b) && g in a
    ensures g in b
  {
    assert IsGroup(fs, key, g);
    assert Grouped(b, key, g.first);
    var i :| 0 <= i < |b| && key(b[i].first) == key(g.first);
    assert IsGroup(fs, key, b[i]);
  }

  /** Two lists of groups of the same findings are the same list. */
  lemma GroupsUnique(fs: seq<Finding>, key: Finding -> Key, a: seq<Group>, b: seq<Group>)
    requires Groups(fs, key, a) && Groups(fs, key, b)
    ensures a == b
  {
    var less := (x: Group, y: Group) => First(fs, key, x) < First(fs, key, y);
    forall g ensures g in ToSet(a) <==> g in ToSet(b) {
      if g in a { GroupInBoth(fs, key, a, b, g); }
      if g in b { GroupInBoth(fs, key, b, a, g); }
    }
    StrictOrderUnique(a, b, less);
  }

  lemma {:induction false} CountInsert(f: Finding, fs: seq<Finding>, key: Finding -> Key, k: Key)
    ensures CountKey(Insert(f, fs, MoreSevere), key, k) == CountKey([f] + fs, key, k)
  {
    assert ([f] + fs)[1..] == fs;
    if fs != [] && !MoreSevere(f, fs[0]) {
      CountInsert(f, fs[1..], key, k);
      assert ([f] + fs[1..])[1..] == fs[1..];
    }
  }

  /** Sorting keeps every multiplicity. */
  lemma {:induction false} CountSorted(fs: seq<Finding>, key: Finding -> Key, k: Key)
    ensures CountKey(SortBy(fs, MoreSevere), key, k) == CountKey(fs, key, k)
  {
    if fs != [] {
      CountSorted(fs[1..], key, k);
      CountInsert(fs[0], SortBy(fs[1..], MoreSevere), key, k);
      var rest := SortBy(fs[1..], MoreSevere);
      assert ([fs[0]] + rest)[1..] == rest;
    }
  }

  /** In a list ordered by severity each group shows its most severe member, and groups descend. */
  lemma SortedGroupsDescend(sorted: seq<Finding>, key: Finding -> Key, groups: seq<Group>, i: nat)
    requires Groups(sorted, key, groups) && SortedBy(sorted, MoreSevere) && i < |groups|
    ensures forall f :: f in sorted && key(f) == key(groups[i].first) ==> MoreSevere(groups[i].first, f)
    ensures forall j :: i < j < |groups| ==> MoreSevere(groups[i].first, groups[j].first)
  {
    var a := First(sorted, key, groups[i]);
    assert IsGroup(sorted, key, groups[i]);
    forall f | f in sorted && key(f) == key(groups[i].first) ensures MoreSevere(groups[i].first, f) {
      var k :| 0 <= k < |sorted| && sorted[k] == f;
      assert a <= k;
    }
    forall j | i < j < |groups| ensures MoreSevere(groups[i].first, groups[j].first) {
      assert IsGroup(sorted, key, groups[j]);
      assert a < First(sorted, key, groups[j]);
    }
  }

  lemma SameMembers(a: seq<Finding>, b: seq<Finding>)
    requires multiset(a) == multiset(b)
    ensures |a| == |b| && forall f :: f in a <==> f in b
  {
    assert |multiset(a)| == |a| && |multiset(b)| == |b|;
    assert forall f :: f in a <==> f in multiset(a);
    assert forall f :: f in b <==> f in multiset(b);
  }

  /** The findings of the prompt: most severe groups first, each shown by its most severe member. */
  method PromptGroups(findings: seq<Finding>) returns (groups: seq<Group>)
    ensures Groups(SortBy(findings, MoreSevere), PromptKey, groups) && Total(groups) == |findings|
    ensures forall i :: 0 <= i < |groups| ==>
              groups[i].first in findings
                  && groups[i].count == CountKey(findings, PromptKey, PromptKey(groups[i].first))
    ensures forall f {:trigger Grouped(groups, PromptKey, f)} :: f in findings ==> Grouped(groups, PromptKey, f)
    ensures forall i, f :: 0 <= i < |groups| && f in findings && PromptKey(f) == PromptKey(groups[i].first) ==>
              MoreSevere(groups[i].first, f)
    ensures forall i, j :: 0 <= i < j < |groups| ==> MoreSevere(groups[i].first, groups[j].first)
  {
    var sorted := SortBy(findings, MoreSevere);
    SortByCorrect(findings, MoreSevere);
    groups := GroupBy(sorted, PromptKey);
    SameMembers(sorted, findings);
    forall i | 0 <= i < |groups|
      ensures groups[i].first in findings
                && groups[i].count == CountKey(findings, PromptKey, PromptKey(groups[i].first))
      ensures forall f :: f in findings && PromptKey(f) == PromptKey(groups[i].first) ==> MoreSevere(groups[i].first, f)
      ensures forall j :: i < j < |groups| ==> MoreSevere(groups[i].first, groups[j].first)
    {
      assert IsGroup(sorted, PromptKey, groups[i]);
      CountSorted(findings, PromptKey, PromptKey(groups[i].first));
      SortedGroupsDescend(sorted, PromptKey, groups, i);
    }
  }

  /** Within one severity the findings keep the order of the report. */
  lemma SeverityOrderStable(findings: seq<Finding>, rank: nat)
    ensures Filter(SortBy(findings, MoreSevere), (f: Finding) => Rank(f.severity) == rank)
            == Filter(findings, (f: Finding) => Rank(f.severity) == rank)
  {
    SortByStable(findings, MoreSevere, (f: Finding) => Rank(f.severity) == rank);
  }

  // ----- The summary of one rail -----

  function Titles(fs: seq<Finding>): seq<Key> {
    seq(|fs|, i requires 0 <= i < |fs| => SummaryKey(fs[i]))
  }

  function GroupTitles(groups: seq<Group>): seq<Key> {
    seq(|groups|, i requires 0 <= i < |groups| => SummaryKey(groups[i].first))
  }

  lemma SameTitles(fs: seq<Finding>, groups: seq<Group>, k: Key)
    requires Groups(fs, SummaryKey, groups)
    ensures k in ToSet(GroupTitles(groups)) <==> k in ToSet(Titles(fs))
  {
    if k in ToSet(GroupTitles(groups)) {
      var i :| 0 <= i < |groups| && SummaryKey(groups[i].first) == k;
      assert IsGroup(fs, SummaryKey, groups[i]);
      assert Titles(fs)[First(fs, SummaryKey, groups[i])] == k;
    }
    if k in ToSet(Titles(fs)) {
      var j :| 0 <= j < |fs| && SummaryKey(fs[j]) == k;
      assert Grouped(groups, SummaryKey, fs[j]);
      var i :| 0 <= i < |groups| && SummaryKey(groups[i].first) == k;
      assert GroupTitles(groups)[i] == k;
    }
  }

  /** There are as many groups as findings exactly when no title repeats. */
  lemma GroupCountShowsRepeats(fs: seq<Finding>, groups: seq<Group>)
    requires Groups(fs, SummaryKey, groups)
    ensures |groups| == |ToSet(Titles(fs))|
    ensures |groups| == |fs| <==> NoDuplicates(Titles(fs))
  {
    forall i, j | 0 <= i < j < |groups| ensures GroupTitles(groups)[i] != GroupTitles(groups)[j] {
      assert First(fs, SummaryKey, groups[i]) < First(fs, SummaryKey, groups[j]);
    }
    DistinctSize(GroupTitles(groups));
    forall k ensures k in ToSet(GroupTitles(groups)) <==> k in ToSet(Titles(fs)) {
      SameTitles(fs, groups, k);
    }
    assert ToSet(GroupTitles(groups)) == ToSet(Titles(fs));
    SizeMeansDistinct(Titles(fs));
  }

  const SHOWN := 5

  /** What the summary of a rail says: how many different titles, the total if it differs, and the first few titles. */
  datatype Summary = Summary(different: nat, total: Option<nat>, shown: seq<(string, nat)>)

  /** The titled groups with their counts. */
  function Shown(groups: seq<Group>): seq<(string, nat)> {
    if groups == [] then []
    else
      var last := groups[|groups| - 1];
      Shown(groups[..|groups| - 1]) + if last.first.title == "" then [] else [(last.first.title, last.count)]
  }

  method ShowTitles(groups: seq<Group>) returns (shown: seq<(string, nat)>)
    ensures shown == Shown(groups)
  {
    shown := [];
    for i := 0 to |groups|
      invariant shown == Shown(groups[..i])
    {
      assert groups[..i + 1][..i] == groups[..i];
      if groups[i].first.title != "" {
        shown := shown + [(groups[i].first.title, groups[i].count)];
      }
    }
    assert groups[..|groups|] == groups;
  }

  lemma {:induction false} ShownCounts(fs: seq<Finding>, groups: seq<Group>)
    requires forall i :: 0 <= i < |groups| ==> IsGroup(fs, SummaryKey, groups[i])
    ensures forall title, n :: (title, n) in Shown(groups) ==>
              title != "" && n == CountKey(fs, SummaryKey, ("", title, ""))
  {
    if groups != [] {
      var last := groups[|groups| - 1];
      ShownCounts(fs, groups[..|groups| - 1]);
      assert IsGroup(fs, SummaryKey, last) && SummaryKey(last.first) == ("", last.first.title, "");
    }
  }

  /**
   The total is shown exactly when a title repeats; of the first titles, in the
   order they first appear, the empty one is left out, and each carries the
   number of its findings.
   */
  method SummarizeRail(findings: seq<Finding>) returns (s: Summary, ghost groups: seq<Group>)
    ensures Groups(findings, SummaryKey, groups) && Total(groups) == |findings|
    ensures s.different == |ToSet(Titles(findings))|
    ensures s.total == if NoDuplicates(Titles(findings)) then None else Some(|findings|)
    ensures s.shown == Shown(groups[..if |groups| < SHOWN then |groups| else SHOWN])
    ensures forall title, n :: (title, n) in s.shown ==>
              title != "" && n == CountKey(findings, SummaryKey, ("", title, ""))
  {
    var unique := GroupBy(findings, SummaryKey);
    GroupCountShowsRepeats(findings, unique);
    groups := unique;
    var limit := if |unique| < SHOWN then |unique| else SHOWN;
    var shown := ShowTitles(unique[..limit]);
    ShownCounts(findings, unique[..limit]);
    s := Summary(|unique|, if |unique| == |findings| then None else Some(|findings|), shown);
  }
}
