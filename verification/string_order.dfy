/** The order `Array.prototype.sort()` uses when given no comparator, on
    strings: lexicographic by character, a proper prefix first. Also the
    de-duplication done by `new Set(...)` and the insertion sort that together
    produce the catalogue's category list. */
module StringOrder {
  import opened Common

  /** `a` sorts strictly before `b`. */
  predicate Less(a: string, b: string)
    decreases |a|
  {
    if |a| == 0 then |b| > 0
    else if |b| == 0 then false
    else if a[0] != b[0] then a[0] < b[0]
    else Less(a[1..], b[1..])
  }

  lemma {:induction false} LessIrreflexive(a: string)
    ensures !Less(a, a)
    decreases |a|
  {
    if |a| > 0 {
      LessIrreflexive(a[1..]);
    }
  }

  lemma {:induction false} LessTransitive(a: string, b: string, c: string)
    requires Less(a, b) && Less(b, c)
    ensures Less(a, c)
    decreases |a|
  {
    if |a| > 0 && a[0] == b[0] && b[0] == c[0] {
      LessTransitive(a[1..], b[1..], c[1..]);
    }
  }

  /** Any two different strings are ordered one way or the other. */
  lemma {:induction false} LessTotal(a: string, b: string)
    ensures a == b || Less(a, b) || Less(b, a)
    decreases |a|
  {
    if |a| > 0 && |b| > 0 && a[0] == b[0] {
      LessTotal(a[1..], b[1..]);
      if a[1..] == b[1..] {
        assert a == [a[0]] + a[1..] && b == [b[0]] + b[1..];
      }
    }
  }

  lemma LessAsymmetric(a: string, b: string)
    requires Less(a, b)
    ensures !Less(b, a)
  {
    if Less(b, a) {
      LessTransitive(a, b, a);
      LessIrreflexive(a);
    }
  }

  /** Each string sorts strictly before every later one. */
  predicate StrictlySorted(xs: seq<string>) {
    forall i, j :: 0 <= i < j < |xs| ==> Less(xs[i], xs[j])
  }

  lemma StrictlySortedIsDistinct(xs: seq<string>)
    requires StrictlySorted(xs)
    ensures Distinct(xs)
  {
    forall i, j | 0 <= i < j < |xs| ensures xs[i] != xs[j] {
      LessIrreflexive(xs[i]);
    }
  }

  /** `Array.from(new Set(xs))`: each member of `xs` once. The order does not
      matter here, since the result is sorted next. */
  function Dedup(xs: seq<string>): (r: seq<string>)
    ensures Distinct(r)
    ensures forall x :: x in r <==> x in xs
  {
    if |xs| == 0 then []
    else
      var init := Dedup(xs[..|xs| - 1]);
      var last := xs[|xs| - 1];
      assert xs == xs[..|xs| - 1] + [last];
      if last in init then init else init + [last]
  }

  /** Puts `x` into the strictly sorted `xs` before the first larger element. */
  function Insert(x: string, xs: seq<string>): (r: seq<string>)
    requires StrictlySorted(xs) && x !in xs
    ensures StrictlySorted(r)
    ensures multiset(r) == multiset(xs) + multiset{x}
  {
    if |xs| == 0 then [x]
    else if Less(x, xs[0]) then
      BelowHead(x, xs);
      [x] + xs
    else
      SortedTail(xs);
      var rest := Insert(x, xs[1..]);
      AboveHead(x, xs, rest);
      [xs[0]] + rest
  }

  lemma SortedTail(xs: seq<string>)
    requires StrictlySorted(xs) && |xs| > 0
    ensures StrictlySorted(xs[1..])
  {
    forall i, j | 0 <= i < j < |xs| - 1 ensures Less(xs[1..][i], xs[1..][j]) {
      assert xs[1..][i] == xs[i + 1] && xs[1..][j] == xs[j + 1];
    }
  }

  /** A string below the head of a strictly sorted list can go in front of it. */
  lemma BelowHead(x: string, xs: seq<string>)
    requires StrictlySorted(xs) && |xs| > 0 && Less(x, xs[0])
    ensures StrictlySorted([x] + xs)
  {
    forall y | y in xs ensures Less(x, y) {
      if y != xs[0] {
        var j :| 0 < j < |xs| && xs[j] == y;
        LessTransitive(x, xs[0], y);
      }
    }
    ConsSorted(x, xs);
  }

  /** The head of a strictly sorted list stays in front when a larger string
      is inserted into its tail. */
  lemma AboveHead(x: string, xs: seq<string>, rest: seq<string>)
    requires StrictlySorted(xs) && |xs| > 0 && x !in xs && !Less(x, xs[0])
    requires StrictlySorted(rest) && multiset(rest) == multiset(xs[1..]) + multiset{x}
    ensures StrictlySorted([xs[0]] + rest)
    ensures multiset([xs[0]] + rest) == multiset(xs) + multiset{x}
  {
    assert xs == [xs[0]] + xs[1..];
    forall y | y in rest ensures Less(xs[0], y) {
      assert y in multiset(rest);
      if y == x {
        LessTotal(x, xs[0]);
      } else {
        var j :| 1 <= j < |xs| && xs[j] == y;
      }
    }
    ConsSorted(xs[0], rest);
  }

  /** A string below every element of a strictly sorted list can head it. */
  lemma ConsSorted(h: string, t: seq<string>)
    requires StrictlySorted(t)
    requires forall y :: y in t ==> Less(h, y)
    ensures StrictlySorted([h] + t)
  {
    var s := [h] + t;
    forall i, j | 0 <= i < j < |s| ensures Less(s[i], s[j]) {
      if i == 0 {
        assert s[j] == t[j - 1];
      } else {
        assert s[i] == t[i - 1] && s[j] == t[j - 1];
      }
    }
  }

  /** Insertion sort of a duplicate-free list. */
  function Sort(xs: seq<string>): (r: seq<string>)
    requires Distinct(xs)
    ensures StrictlySorted(r)
    ensures multiset(r) == multiset(xs)
  {
    if |xs| == 0 then []
    else
      assert xs == [xs[0]] + xs[1..];
      DistinctCons(xs[0], xs[1..]);
      var rest := Sort(xs[1..]);
      assert xs[0] !in multiset(rest);
      Insert(xs[0], rest)
  }

  /** `Array.from(new Set(xs)).sort()`: each string of `xs` exactly once, in ascending order. */
  function SortedSet(xs: seq<string>): (r: seq<string>)
    ensures StrictlySorted(r)
    ensures forall x :: x in r <==> x in xs
  {
    var d := Dedup(xs);
    var r := Sort(d);
    assert forall x :: x in r <==> x in multiset(d);
    r
  }

  /** A finite set of strings has exactly one strictly sorted listing. */
  lemma {:induction false} SortedListingUnique(a: seq<string>, b: seq<string>)
    requires StrictlySorted(a) && StrictlySorted(b)
    requires forall x :: x in a <==> x in b
    ensures a == b
    decreases |a|
  {
    assert |b| > 0 ==> b[0] in a;
    if |a| > 0 {
      assert a[0] in b;
      assert |b| > 0;
      assert b[0] in a;
      if a[0] != b[0] {
        var i :| 0 <= i < |a| && a[i] == b[0];
        var j :| 0 <= j < |b| && b[j] == a[0];
        assert Less(a[0], a[i]);
        assert Less(b[0], b[j]);
        LessAsymmetric(a[0], b[0]);
        assert false;
      }
      forall x ensures x in a[1..] <==> x in b[1..] {
        if x in a[1..] {
          var k :| 1 <= k < |a| && a[k] == x;
          assert Less(a[0], x);
          LessIrreflexive(x);
          assert x in b && x != b[0];
          assert b == [b[0]] + b[1..];
        }
        if x in b[1..] {
          var k :| 1 <= k < |b| && b[k] == x;
          assert Less(b[0], x);
          LessIrreflexive(x);
          assert x in a && x != a[0];
          assert a == [a[0]] + a[1..];
        }
      }
      SortedListingUnique(a[1..], b[1..]);
      assert a == [a[0]] + a[1..] && b == [b[0]] + b[1..];
    }
  }
}
