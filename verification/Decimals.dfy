/** Decimal numerals and splitting text at a separator. */
module Decimals {

  predicate IsDigit(c: char) {
    '0' <= c <= '9'
  }

  predicate AllDigits(s: string) {
    forall i :: 0 <= i < |s| ==> IsDigit(s[i])
  }

  function Number(s: string): nat
    requires AllDigits(s)
  {
    if s == "" then 0 else 10 * Number(s[..|s| - 1]) + (s[|s| - 1] as int - '0' as int)
  }

  function Digit(n: nat): (c: char)
    requires n < 10
    ensures IsDigit(c) && c as int - '0' as int == n
  {
    ('0' as int + n) as char
  }

  /** The numeral of `n`; reading it back gives `n`, so different numbers have different numerals. */
  function Decimal(n: nat): (s: string)
    ensures |s| > 0 && AllDigits(s)
    ensures Number(s) == n
  {
    if n < 10 then
      assert [Digit(n)][..0] == "";
      [Digit(n)]
    else
      var s := Decimal(n / 10) + [Digit(n % 10)];
      assert s[..|s| - 1] == Decimal(n / 10);
      s
  }

  /** The numeral of a number that may be negative. */
  function Numeral(n: int): string {
    if n < 0 then "-" + Decimal(-n) else Decimal(n)
  }

  function Join(parts: seq<string>, separator: string): string {
    if parts == [] then "" else if |parts| == 1 then parts[0] else parts[0] + separator + Join(parts[1..], separator)
  }

  function IndexOf(s: string, c: char): (k: nat)
    ensures k <= |s| && c !in s[..k]
    ensures k < |s| ==> s[k] == c
  {
    if s == "" || s[0] == c then 0
    else
      assert forall k | 0 <= k <= |s[1..]| :: s[..k + 1] == [s[0]] + s[1..][..k];
      1 + IndexOf(s[1..], c)
  }

  function Split(s: string, c: char): (parts: seq<string>)
    ensures |parts| > 0
    decreases |s|
  {
    var k := IndexOf(s, c);
    if k == |s| then [s] else [s[..k]] + Split(s[k + 1..], c)
  }

  lemma IndexOfFirst(a: string, c: char, rest: string)
    requires c !in a
    ensures IndexOf(a + [c] + rest, c) == |a|
    ensures IndexOf(a, c) == |a|
  {
    var s := a + [c] + rest;
    var k := IndexOf(s, c);
    assert s[|a|] == c;
    assert forall i :: 0 <= i < |a| ==> s[i] == a[i];
    assert forall i :: 0 <= i < k ==> s[..k][i] == s[i];
  }

  lemma {:induction false} SplitParts(s: string, c: char, part: string)
    requires part in Split(s, c)
    ensures c !in part
    decreases |s|
  {
    var k := IndexOf(s, c);
    if k < |s| && part != s[..k] {
      SplitParts(s[k + 1..], c, part);
    }
  }

  lemma {:induction false} SplitEndsWith(a: string, c: char, b: string)
    requires c !in b
    ensures var parts := Split(a + [c] + b, c); parts[|parts| - 1] == b
    decreases |a|
  {
    var s := a + [c] + b;
    var k := IndexOf(a, c);
    if k == |a| {
      IndexOfFirst(a, c, b);
      IndexOfFirst(b, c, "");
      assert s[|a| + 1..] == b;
    } else {
      var rest := a[k + 1..];
      assert a == a[..k] + [c] + rest;
      IndexOfFirst(a[..k], c, rest + [c] + b);
      assert s == a[..k] + [c] + (rest + [c] + b);
      assert s[k + 1..] == rest + [c] + b;
      SplitEndsWith(rest, c, b);
    }
  }

  lemma {:induction false} SplitBelow(a: string, c: char, b: string)
    requires c !in b
    ensures Split(a + [c] + b, c) == Split(a, c) + [b]
    decreases |a|
  {
    var k := IndexOf(a, c);
    IndexOfFirst(b, c, "");
    if k == |a| {
      IndexOfFirst(a, c, b);
      assert (a + [c] + b)[|a| + 1..] == b && (a + [c] + b)[..|a|] == a;
    } else {
      var rest := a[k + 1..];
      assert a == a[..k] + [c] + rest;
      IndexOfFirst(a[..k], c, rest + [c] + b);
      assert a + [c] + b == a[..k] + [c] + (rest + [c] + b);
      assert (a + [c] + b)[k + 1..] == rest + [c] + b && (a + [c] + b)[..k] == a[..k];
      SplitBelow(rest, c, b);
    }
  }

  /** Splitting undoes joining when no part contains the separator. */
  lemma {:induction false} SplitJoin(parts: seq<string>, c: char)
    requires |parts| > 0 && forall p :: p in parts ==> c !in p
    ensures Split(Join(parts, [c]), c) == parts
  {
    var s := Join(parts, [c]);
    if |parts| == 1 {
      IndexOfFirst(parts[0], c, "");
    } else {
      var rest := Join(parts[1..], [c]);
      assert s == parts[0] + [c] + rest;
      IndexOfFirst(parts[0], c, rest);
      assert s[|parts[0]| + 1..] == rest && s[..|parts[0]|] == parts[0];
      SplitJoin(parts[1..], c);
    }
  }
}
