/**
 Shared vocabulary: optional values, results that carry an error, the order
 on strings, stable sorting and two counting facts.
 */
module Collections {

  datatype Option<+T> = None | Some(value: T)

  datatype Result<+T, +E> = Ok(value: T) | Err(error: E)

  function ToSet<T>(s: seq<T>): set<T> {
    set x | x in s
  }

  predicate NoDuplicates<T(==)>(s: seq<T>) {
    forall i, j :: 0 <= i < j < |s| ==> s[i] != s[j]
  }

  /** More items than values to take: two items agree. */
  lemma {:induction false} Pigeonhole<T>(s: seq<T>, values: set<T>)
    requires ToSet(s) <= values
    requires |s| > |values|
    ensures exists i, j :: 0 <= i < j < |s| && s[i] == s[j]
  {
    var last := |s| - 1;
    assert s[last] in ToSet(s);
    if i :| 0 <= i < last && s[i] == s[last] {
    } else {
      assert ToSet(s[..last]) <= values - {s[last]};
      Pigeonhole(s[..last], values - {s[last]});
      var i, j :| 0 <= i < j < last && s[..last][i] == s[..last][j];
      assert s[i] == s[j];
    }
  }

  lemma {:induction false} DistinctSize<T>(s: seq<T>)
    requires NoDuplicates(s)
    ensures |ToSet(s)| == |s|
  {
    if s == [] {
      assert ToSet(s) == {};
    } else {
      var last := |s| - 1;
      DistinctSize(s[..last]);
      assert ToSet(s) == ToSet(s[..last]) + {s[last]};
      assert s[last] !in ToSet(s[..last]);
    }
  }

  lemma {:induction false} SetNoLarger<T>(s: seq<T>)
    ensures |ToSet(s)| <= |s|
  {
    if s == [] {
      assert ToSet(s) == {};
    } else {
      var n := |s| - 1;
      SetNoLarger(s[..n]);
      assert ToSet(s) == ToSet(s[..n]) + {s[n]};
    }
  }

  lemma SubsetSize<T>(a: set<T>, b: set<T>)
    requires a <= b
    ensures |a| <= |b|
  {
    assert |b| == |a| + |b - a|;
  }

  /** A list has as many items as values exactly when no value repeats. */
  lemma {:induction false} SizeMeansDistinct<T>(s: seq<T>)
    ensures |ToSet(s)| == |s| <==> NoDuplicates(s)
  {
    if NoDuplicates(s) {
      DistinctSize(s);
    } else {
      var i, j :| 0 <= i < j < |s| && s[i] == s[j];
      var rest := s[..j] + s[j + 1..];
      forall x | x in ToSet(s) ensures x in ToSet(rest) {
        var k :| 0 <= k < |s| && s[k] == x;
        assert rest[if k == j then i else if k < j then k else k - 1] == x;
      }
      SetNoLarger(rest);
      SubsetSize(ToSet(s), ToSet(rest));
    }
  }

  // ----- Order on strings: code point by code point, a prefix comes first -----

  predicate Less(a: string, b: string) {
    |b| > 0 && (|a| == 0 || a[0] < b[0] || (a[0] == b[0] && Less(a[1..], b[1..])))
  }

  /** At `k` the two texts first differ: `a` ends there or has the smaller character. */
  predicate SmallerAt(a: string, b: string, k: nat) {
    k <= |a| && k < |b| && (forall i :: 0 <= i < k ==> a[i] == b[i]) && (k == |a| || a[k] < b[k])
  }

  lemma {:induction false} LessIff(a: string, b: string)
    ensures Less(a, b) <==> exists k: nat :: SmallerAt(a, b, k)
  {
    if |b| > 0 {
      if |a| == 0 || a[0] < b[0] {
        assert SmallerAt(a, b, 0);
      } else if a[0] == b[0] {
        LessIff(a[1..], b[1..]);
        if k: nat :| SmallerAt(a[1..], b[1..], k) {
          assert forall i :: 0 <= i < k ==> a[i + 1] == a[1..][i] && b[i + 1] == b[1..][i];
          assert SmallerAt(a, b, k + 1);
        }
        if k: nat :| SmallerAt(a, b, k) {
          assert SmallerAt(a[1..], b[1..], k - 1);
        }
      }
    }
  }

  lemma {:induction false} LessIrreflexive(a: string)
    ensures !Less(a, a)
  {
    if |a| > 0 {
      LessIrreflexive(a[1..]);
    }
  }

  lemma {:induction false} LessTransitive(a: string, b: string, c: string)
    requires Less(a, b) && Less(b, c)
    ensures Less(a, c)
  {
    if |a| > 0 && a[0] == b[0] && b[0] == c[0] {
      LessTransitive(a[1..], b[1..], c[1..]);
    }
  }

  lemma {:induction false} LessTotal(a: string, b: string)
    ensures Less(a, b) || a == b || Less(b, a)
  {
    if |a| > 0 && |b| > 0 && a[0] == b[0] {
      LessTotal(a[1..], b[1..]);
      if a[1..] == b[1..] {
        assert a == [a[0]] + a[1..] && b == [b[0]] + b[1..];
      }
    }
  }

  /** Two different items are ordered one way only. */
  ghost predicate StrictTotal<T(!new)>(less: (T, T) -> bool) {
    && (forall x, y :: less(x, y) ==> !less(y, x))
    && (forall x, y, z :: less(x, y) && less(y, z) ==> less(x, z))
    && (forall x, y :: less(x, y) || x == y || less(y, x))
  }

  lemma LessIsStrictTotal()
    ensures StrictTotal(Less)
  {
    forall a, b, c | Less(a, b) && Less(b, c) ensures Less(a, c) {
      LessTransitive(a, b, c);
    }
    forall a, b | Less(a, b) ensures !Less(b, a) {
      LessIrreflexive(a);
    }
    forall a, b ensures Less(a, b) || a == b || Less(b, a) {
      LessTotal(a, b);
    }
  }

  // ----- Stable sorting -----

  ghost predicate TotalPreorder<T(!new)>(leq: (T, T) -> bool) {
    && (forall x, y :: leq(x, y) || leq(y, x))
    && (forall x, y, z :: leq(x, y) && leq(y, z) ==> leq(x, z))
  }

  predicate SortedBy<T>(s: seq<T>, leq: (T, T) -> bool) {
    forall i, j :: 0 <= i < j < |s| ==> leq(s[i], s[j])
  }

  /** Puts `x` before the first item it does not exceed, so equal items keep their order. */
  function Insert<T>(x: T, s: seq<T>, leq: (T, T) -> bool): seq<T> {
    if s == [] || leq(x, s[0]) then [x] + s else [s[0]] + Insert(x, s[1..], leq)
  }

  function SortBy<T>(s: seq<T>, leq: (T, T) -> bool): seq<T> {
    if s == [] then [] else Insert(s[0], SortBy(s[1..], leq), leq)
  }

  function Filter<T>(s: seq<T>, keep: T -> bool): seq<T> {
    if s == [] then [] else if keep(s[0]) then [s[0]] + Filter(s[1..], keep) else Filter(s[1..], keep)
  }

  lemma {:induction false} FilterMembers<T>(s: seq<T>, keep: T -> bool, x: T)
    ensures x in Filter(s, keep) <==> x in s && keep(x)
  {
    if s != [] {
      FilterMembers(s[1..], keep, x);
      assert s == [s[0]] + s[1..];
    }
  }

  lemma {:induction false} FilterEndsWith<T>(s: seq<T>, keep: T -> bool)
    requires |s| > 0 && keep(s[|s| - 1])
    ensures var kept := Filter(s, keep); |kept| > 0 && kept[|kept| - 1] == s[|s| - 1]
  {
    if |s| > 1 {
      FilterEndsWith(s[1..], keep);
    }
  }

  lemma {:induction false} InsertKeepsAll<T>(x: T, s: seq<T>, leq: (T, T) -> bool)
    ensures multiset(Insert(x, s, leq)) == multiset{x} + multiset(s)
  {
    if s != [] && !leq(x, s[0]) {
      InsertKeepsAll(x, s[1..], leq);
      assert s == [s[0]] + s[1..];
    }
  }

  lemma {:induction false} InsertSorted<T(!new)>(x: T, s: seq<T>, leq: (T, T) -> bool)
    requires TotalPreorder(leq) && SortedBy(s, leq)
    ensures SortedBy(Insert(x, s, leq), leq)
  {
    if s != [] && !leq(x, s[0]) {
      var rest := Insert(x, s[1..], leq);
      InsertSorted(x, s[1..], leq);
      InsertKeepsAll(x, s[1..], leq);
      forall j | 0 <= j < |rest| ensures leq(s[0], rest[j]) {
        assert rest[j] in multiset(rest);
        assert rest[j] == x || rest[j] in s[1..];
      }
    }
  }

  lemma {:induction false} SortByCorrect<T(!new)>(s: seq<T>, leq: (T, T) -> bool)
    requires TotalPreorder(leq)
    ensures multiset(SortBy(s, leq)) == multiset(s)
    ensures SortedBy(SortBy(s, leq), leq)
  {
    if s != [] {
      SortByCorrect(s[1..], leq);
      InsertSorted(s[0], SortBy(s[1..], leq), leq);
      InsertKeepsAll(s[0], SortBy(s[1..], leq), leq);
      assert s == [s[0]] + s[1..];
    }
  }

  lemma FilterCons<T>(x: T, s: seq<T>, keep: T -> bool)
    ensures Filter([x] + s, keep) == if keep(x) then [x] + Filter(s, keep) else Filter(s, keep)
  {
    assert ([x] + s)[1..] == s;
  }

  lemma {:induction false} FilterNone<T>(s: seq<T>, keep: T -> bool)
    requires forall i :: 0 <= i < |s| ==> !keep(s[i])
    ensures Filter(s, keep) == []
  {
    if s != [] {
      FilterNone(s[1..], keep);
    }
  }

  lemma {:induction false} FilterSingle<T>(s: seq<T>, keep: T -> bool, k: nat)
    requires k < |s| && forall i :: 0 <= i < |s| ==> (keep(s[i]) <==> i == k)
    ensures Filter(s, keep) == [s[k]]
  {
    if k == 0 {
      FilterNone(s[1..], keep);
    } else {
      FilterSingle(s[1..], keep, k - 1);
    }
  }

  lemma {:induction false} FilterAppended<T>(s: seq<T>, last: T, keep: T -> bool)
    ensures Filter(s + [last], keep) == Filter(s, keep) + if keep(last) then [last] else []
  {
    if s == [] {
      FilterCons(last, [], keep);
      assert [] + [last] == [last] + [];
    } else {
      assert (s + [last])[1..] == s[1..] + [last];
      FilterAppended(s[1..], last, keep);
    }
  }

  lemma {:induction false} InsertKeepsOrder<T>(x: T, s: seq<T>, leq: (T, T) -> bool, keep: T -> bool)
    requires forall y :: y in s && keep(x) && keep(y) ==> leq(x, y)
    ensures Filter(Insert(x, s, leq), keep) == Filter([x] + s, keep)
  {
    FilterCons(x, s, keep);
    if s != [] && !leq(x, s[0]) {
      assert s == [s[0]] + s[1..];
      InsertKeepsOrder(x, s[1..], leq, keep);
      FilterCons(x, s[1..], keep);
      FilterCons(s[0], Insert(x, s[1..], leq), keep);
      FilterCons(s[0], s[1..], keep);
    }
  }

  /** Items that rank equal keep the order they had before sorting. */
  lemma {:induction false} SortByStable<T(!new)>(s: seq<T>, leq: (T, T) -> bool, keep: T -> bool)
    requires TotalPreorder(leq)
    requires forall x, y :: keep(x) && keep(y) ==> leq(x, y)
    ensures Filter(SortBy(s, leq), keep) == Filter(s, keep)
  {
    if s != [] {
      SortByStable(s[1..], leq, keep);
      InsertKeepsOrder(s[0], SortBy(s[1..], leq), leq, keep);
      FilterCons(s[0], SortBy(s[1..], leq), keep);
    }
  }

  lemma EmptySet<T>(a: seq<T>)
    ensures ToSet(a) == {} <==> a == []
  {
    assert a != [] ==> a[0] in ToSet(a);
  }

  lemma TailMembers<T(!new)>(a: seq<T>, x: T, less: (T, T) -> bool)
    requires |a| > 0 && SortedBy(a, less)
    requires forall y, z :: less(y, z) ==> !less(z, y)
    ensures x in ToSet(a[1..]) <==> x in ToSet(a) && x != a[0]
  {
    assert a == [a[0]] + a[1..];
    assert forall i :: 0 <= i < |a[1..]| ==> less(a[0], a[1..][i]);
  }

  /** Only one arrangement of a set is strictly increasing. */
  lemma {:induction false} StrictOrderUnique<T(!new)>(a: seq<T>, b: seq<T>, less: (T, T) -> bool)
    requires forall x, y :: less(x, y) ==> !less(y, x)
    requires ToSet(a) == ToSet(b)
    requires SortedBy(a, less) && SortedBy(b, less)
    ensures a == b
  {
    if a == [] || b == [] {
      EmptySet(a);
      EmptySet(b);
    } else {
      assert a[0] in ToSet(b) && b[0] in ToSet(a);
      var i :| 0 <= i < |a| && a[i] == b[0];
      var j :| 0 <= j < |b| && b[j] == a[0];
      assert a[0] == b[0];
      forall x ensures x in ToSet(a[1..]) <==> x in ToSet(b[1..]) {
        TailMembers(a, x, less);
        TailMembers(b, x, less);
      }
      StrictOrderUnique(a[1..], b[1..], less);
    }
  }

  lemma {:induction false} InsertMembers<T>(x: T, s: seq<T>, leq: (T, T) -> bool, y: T)
    ensures y in Insert(x, s, leq) <==> y == x || y in s
  {
    if s != [] && !leq(x, s[0]) {
      InsertMembers(x, s[1..], leq, y);
      assert s == [s[0]] + s[1..];
    }
  }

  lemma {:induction false} InsertStrict<T(!new)>(x: T, s: seq<T>, less: (T, T) -> bool)
    requires StrictTotal(less) && SortedBy(s, less) && x !in s
    ensures SortedBy(Insert(x, s, less), less)
  {
    if s == [] || less(x, s[0]) {
    } else {
      assert x != s[0] && less(s[0], x);
      InsertStrict(x, s[1..], less);
      var rest := Insert(x, s[1..], less);
      forall j | 0 <= j < |rest| ensures less(s[0], rest[j]) {
        InsertMembers(x, s[1..], less, rest[j]);
      }
    }
  }

  /** The items of a set in ascending order. */
  method SortedSet<T(==, !new)>(items: set<T>, less: (T, T) -> bool) returns (r: seq<T>)
    requires StrictTotal(less)
    ensures SortedBy(r, less) && ToSet(r) == items
  {
    r := [];
    var rest := items;
    while rest != {}
      invariant rest <= items && ToSet(r) == items - rest
      invariant SortedBy(r, less)
    {
      var x :| x in rest;
      assert x !in r by {
        assert x !in ToSet(r);
      }
      InsertStrict(x, r, less);
      forall y ensures y in Insert(x, r, less) <==> y == x || y in r {
        InsertMembers(x, r, less, y);
      }
      ghost var was := r;
      r := Insert(x, r, less);
      rest := rest - {x};
      assert ToSet(r) == ToSet(was) + {x};
    }
  }

  /** The names of a set in ascending order. */
  method SortedNames(names: set<string>) returns (r: seq<string>)
    ensures SortedBy(r, Less) && ToSet(r) == names
  {
    LessIsStrictTotal();
    r := SortedSet(names, Less);
  }
}
