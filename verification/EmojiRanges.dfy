/** Merging code point ranges into the canonical table. */
module EmojiRanges {
  import opened Collections

  datatype Range = Range(start: int, end: int)

  predicate RangeLeq(a: Range, b: Range) {
    a.start < b.start || (a.start == b.start && a.end <= b.end)
  }

  ghost predicate Covers(ranges: seq<Range>, p: int) {
    exists i :: 0 <= i < |ranges| && ranges[i].start <= p <= ranges[i].end
  }

  ghost predicate SameCoverage(a: seq<Range>, b: seq<Range>) {
    forall p :: Covers(a, p) <==> Covers(b, p)
  }

  predicate Proper(ranges: seq<Range>) {
    forall i :: 0 <= i < |ranges| ==> ranges[i].start <= ranges[i].end
  }

  /** Increasing, with at least one uncovered code point between neighbours. */
  predicate Canonical(ranges: seq<Range>) {
    Proper(ranges) && forall i, j :: 0 <= i < j < |ranges| ==> ranges[i].end + 1 < ranges[j].start
  }

  // ----- The canonical form is unique and shortest -----

  /** The code points just outside a canonical range are not covered. */
  lemma GapsAround(a: seq<Range>, i: nat)
    requires Canonical(a) && i < |a|
    ensures !Covers(a, a[i].start - 1) && !Covers(a, a[i].end + 1)
  {
    forall k | 0 <= k < |a|
      ensures !(a[k].start <= a[i].start - 1 <= a[k].end) && !(a[k].start <= a[i].end + 1 <= a[k].end)
    {
      assert k < i || k == i || i < k;
    }
  }

  lemma FirstStart(a: seq<Range>, b: seq<Range>)
    requires Canonical(a) && Canonical(b) && SameCoverage(a, b) && a != [] && b != []
    ensures b[0].start <= a[0].start
  {
    assert Covers(a, a[0].start);
    assert Covers(b, a[0].start);
    var i :| 0 <= i < |b| && b[i].start <= a[0].start <= b[i].end;
  }

  lemma FirstEnd(a: seq<Range>, b: seq<Range>)
    requires Canonical(a) && Canonical(b) && SameCoverage(a, b) && a != [] && b != []
    requires a[0].start == b[0].start
    ensures a[0].end <= b[0].end
  {
    var p := b[0].end + 1;
    assert p <= a[0].end ==> Covers(a, p);
    GapsAround(b, 0);
  }

  lemma TailCoverage(a: seq<Range>, p: int)
    requires Canonical(a) && a != []
    ensures Covers(a[1..], p) <==> Covers(a, p) && p > a[0].end
  {
    if Covers(a[1..], p) {
      var i :| 0 <= i < |a[1..]| && a[1..][i].start <= p <= a[1..][i].end;
      assert a[i + 1] == a[1..][i];
    }
    if Covers(a, p) && p > a[0].end {
      var i :| 0 <= i < |a| && a[i].start <= p <= a[i].end;
      assert a[1..][i - 1] == a[i];
    }
  }

  lemma SameTails(a: seq<Range>, b: seq<Range>)
    requires Canonical(a) && Canonical(b) && SameCoverage(a, b) && a != [] && b != [] && a[0] == b[0]
    ensures SameCoverage(a[1..], b[1..])
  {
    forall p ensures Covers(a[1..], p) <==> Covers(b[1..], p) {
      TailCoverage(a, p);
      TailCoverage(b, p);
    }
  }

  lemma {:induction false} CanonicalUnique(a: seq<Range>, b: seq<Range>)
    requires Canonical(a) && Canonical(b) && SameCoverage(a, b)
    ensures a == b
  {
    if a == [] && b != [] {
      assert Covers(b, b[0].start) && !Covers(a, b[0].start);
    } else if b == [] && a != [] {
      assert Covers(a, a[0].start) && !Covers(b, a[0].start);
    } else if a != [] {
      FirstStart(a, b);
      FirstStart(b, a);
      FirstEnd(a, b);
      FirstEnd(b, a);
      SameTails(a, b);
      CanonicalUnique(a[1..], b[1..]);
      assert a == [a[0]] + a[1..] && b == [b[0]] + b[1..];
    }
  }

  function StartsOf(ranges: seq<Range>): seq<int> {
    seq(|ranges|, i requires 0 <= i < |ranges| => ranges[i].start)
  }

  /** Every canonical range begins where some range of any other list begins. */
  lemma StartNeeded(canonical: seq<Range>, other: seq<Range>, i: nat)
    requires Canonical(canonical) && SameCoverage(canonical, other) && i < |canonical|
    ensures canonical[i].start in StartsOf(other)
  {
    var p := canonical[i].start;
    assert Covers(canonical, p);
    assert Covers(other, p);
    var j :| 0 <= j < |other| && other[j].start <= p <= other[j].end;
    assert other[j].start <= p - 1 ==> Covers(other, p - 1);
    GapsAround(canonical, i);
    assert StartsOf(other)[j] == p;
  }

  /** No list with the same coverage is shorter than the canonical one. */
  lemma CanonicalShortest(canonical: seq<Range>, other: seq<Range>)
    requires Canonical(canonical) && SameCoverage(canonical, other)
    ensures |canonical| <= |other|
  {
    var starts := StartsOf(canonical);
    assert NoDuplicates(starts);
    DistinctSize(starts);
    forall x | x in ToSet(starts) ensures x in ToSet(StartsOf(other)) {
      var i :| 0 <= i < |starts| && starts[i] == x;
      StartNeeded(canonical, other, i);
    }
    SubsetSize(ToSet(starts), ToSet(StartsOf(other)));
    SetNoLarger(StartsOf(other));
  }

  // ----- Merging -----

  lemma RangeLeqIsTotal()
    ensures TotalPreorder(RangeLeq)
  {
  }

  lemma SameItemsSameCoverage(a: seq<Range>, b: seq<Range>)
    requires multiset(a) == multiset(b)
    ensures SameCoverage(a, b) && (Proper(a) <==> Proper(b))
  {
    assert forall r :: r in a <==> r in multiset(a);
    assert forall r :: r in b <==> r in multiset(b);
    forall p ensures Covers(a, p) <==> Covers(b, p) {
      if Covers(a, p) {
        var i :| 0 <= i < |a| && a[i].start <= p <= a[i].end;
        assert a[i] in b;
      }
      if Covers(b, p) {
        var i :| 0 <= i < |b| && b[i].start <= p <= b[i].end;
        assert b[i] in a;
      }
    }
    if Proper(a) {
      forall i | 0 <= i < |b| ensures b[i].start <= b[i].end { assert b[i] in a; }
    }
    if Proper(b) {
      forall i | 0 <= i < |a| ensures a[i].start <= a[i].end { assert a[i] in b; }
    }
  }

  /** The list after one more range, in ascending order. */
  function Extend(merged: seq<Range>, r: Range): seq<Range> {
    var n := |merged|;
    if n > 0 && r.start <= merged[n - 1].end + 1 then
      merged[n - 1 := Range(merged[n - 1].start, if r.end > merged[n - 1].end then r.end else merged[n - 1].end)]
    else merged + [r]
  }

  lemma CoversAppend(ranges: seq<Range>, r: Range, p: int)
    ensures Covers(ranges + [r], p) <==> Covers(ranges, p) || r.start <= p <= r.end
  {
    var all := ranges + [r];
    assert all[|ranges|] == r;
    if Covers(ranges, p) {
      var i :| 0 <= i < |ranges| && ranges[i].start <= p <= ranges[i].end;
      assert all[i] == ranges[i];
    }
    if Covers(all, p) {
      var i :| 0 <= i < |all| && all[i].start <= p <= all[i].end;
      assert i < |ranges| ==> all[i] == ranges[i];
    }
  }

  lemma ExtendCovers(merged: seq<Range>, r: Range, p: int)
    requires Proper(merged) && r.start <= r.end
    requires merged != [] ==> merged[|merged| - 1].start <= r.start
    ensures Covers(Extend(merged, r), p) <==> Covers(merged, p) || r.start <= p <= r.end
  {
    var n := |merged|;
    if n > 0 && r.start <= merged[n - 1].end + 1 {
      var before, last := merged[..n - 1], merged[n - 1];
      var grown := Range(last.start, if r.end > last.end then r.end else last.end);
      assert merged == before + [last] && Extend(merged, r) == before + [grown];
      CoversAppend(before, last, p);
      CoversAppend(before, grown, p);
    } else {
      CoversAppend(merged, r, p);
    }
  }

  lemma ExtendCanonical(merged: seq<Range>, r: Range)
    requires Canonical(merged) && r.start <= r.end
    requires merged != [] ==> merged[|merged| - 1].start <= r.start
    ensures Canonical(Extend(merged, r))
  {
  }

  lemma ExtendKeeps(merged: seq<Range>, done: seq<Range>, r: Range)
    requires Canonical(merged) && SameCoverage(merged, done) && r.start <= r.end
    requires merged != [] ==> merged[|merged| - 1].start <= r.start
    ensures Canonical(Extend(merged, r)) && SameCoverage(Extend(merged, r), done + [r])
  {
    ExtendCanonical(merged, r);
    forall p ensures Covers(Extend(merged, r), p) <==> Covers(done + [r], p) {
      ExtendCovers(merged, r, p);
      CoversAppend(done, r, p);
    }
  }

  /** The canonical list of the code points the ranges cover. */
  method Merge(ranges: seq<Range>) returns (merged: seq<Range>)
    ensures Proper(ranges) ==> Canonical(merged) && SameCoverage(merged, ranges)
  {
    var sorted := SortBy(ranges, RangeLeq);
    RangeLeqIsTotal();
    SortByCorrect(ranges, RangeLeq);
    SameItemsSameCoverage(sorted, ranges);
    merged := [];
    for i := 0 to |sorted|
      invariant Proper(ranges) ==> Canonical(merged) && SameCoverage(merged, sorted[..i])
      invariant merged != [] ==> i > 0 && merged[|merged| - 1].start <= sorted[i - 1].start
    {
      var r := sorted[i];
      assert sorted[..i + 1] == sorted[..i] + [r];
      if Proper(ranges) {
        assert SortedBy(sorted, RangeLeq) && Proper(sorted);
        ExtendKeeps(merged, sorted[..i], r);
      }
      if merged != [] && r.start <= merged[|merged| - 1].end + 1 {
        var last := merged[|merged| - 1];
        merged := merged[|merged| - 1 := Range(last.start, if r.end > last.end then r.end else last.end)];
      } else {
        merged := merged + [r];
      }
    }
    assert sorted[..|sorted|] == sorted;
  }
}
