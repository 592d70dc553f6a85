/** Small shared vocabulary: nullable values, JavaScript truthiness of a
    nullable string, and the order-preserving `filter` every view uses. */
module Common {

  /** A JavaScript value that may be `null`. */
  datatype Option<+T> = None | Some(value: T)

  /** JavaScript truthiness of a `string | null`: both `null` and `""` are falsy. */
  predicate Truthy(s: Option<string>) {
    s.Some? && s.value != ""
  }

  /** `sub` is obtained from `s` by deleting elements, keeping the order of the rest. */
  ghost predicate IsSubsequence<T>(sub: seq<T>, s: seq<T>)
    decreases |s|
  {
    if |sub| == 0 then true
    else if |s| == 0 then false
    else (sub[0] == s[0] && IsSubsequence(sub[1..], s[1..])) || IsSubsequence(sub, s[1..])
  }

  /** No value occurs twice. */
  predicate Distinct<T(==)>(s: seq<T>) {
    forall i, j :: 0 <= i < j < |s| ==> s[i] != s[j]
  }

  /** `Array.prototype.filter`: the elements of `s` that satisfy `keep`, in order. */
  function Filter<T(!new)>(s: seq<T>, keep: T -> bool): (r: seq<T>)
    ensures |r| <= |s|
    ensures IsSubsequence(r, s)
    ensures forall i :: 0 <= i < |r| ==> keep(r[i])
    ensures forall x :: x in r <==> x in s && keep(x)
    ensures forall x :: multiset(r)[x] == if keep(x) then multiset(s)[x] else 0
  {
    if |s| == 0 then []
    else
      assert s == [s[0]] + s[1..];
      if keep(s[0]) then [s[0]] + Filter(s[1..], keep) else Filter(s[1..], keep)
  }

  /** Prepending keeps a list duplicate-free exactly when the new value is not in it. */
  lemma DistinctCons<T>(x: T, s: seq<T>)
    ensures Distinct([x] + s) <==> x !in s && Distinct(s)
  {
    var t := [x] + s;
    if x !in s && Distinct(s) {
      forall i, j | 0 <= i < j < |t| ensures t[i] != t[j] {
        assert t[j] == s[j - 1];
        if i > 0 {
          assert t[i] == s[i - 1];
        }
      }
    }
    if Distinct(t) {
      forall i, j | 0 <= i < j < |s| ensures s[i] != s[j] {
        assert s[i] == t[i + 1] && s[j] == t[j + 1];
      }
      forall k | 0 <= k < |s| ensures s[k] != x {
        assert t[k + 1] == s[k] && t[0] == x;
      }
    }
  }

  /** A sequence without members is empty. */
  lemma NoMembersMeansEmpty<T>(s: seq<T>)
    requires forall x :: x !in s
    ensures s == []
  {
    forall x ensures multiset(s)[x] == 0 {
      assert x !in s;
    }
    assert multiset(s) == multiset{};
  }

  /** Two copies of one value are not duplicate-free. */
  lemma RepeatedNotDistinct<T>(xs: seq<T>, x: T)
    requires forall i :: 0 <= i < |xs| ==> xs[i] == x
    ensures |xs| >= 2 ==> !Distinct(xs)
  {
    if |xs| >= 2 {
      assert xs[0] == xs[1];
    }
  }

  /** Filtering with a predicate every element satisfies gives the input back. */
  lemma {:induction false} FilterKeepsAll<T(!new)>(s: seq<T>, keep: T -> bool)
    requires forall i :: 0 <= i < |s| ==> keep(s[i])
    ensures Filter(s, keep) == s
  {
    if |s| > 0 {
      FilterKeepsAll(s[1..], keep);
    }
  }

  /** A subsequence of a duplicate-free sequence is duplicate-free. */
  lemma {:induction false} SubsequenceOfDistinct<T>(sub: seq<T>, s: seq<T>)
    requires IsSubsequence(sub, s)
    requires Distinct(s)
    ensures Distinct(sub)
    decreases |s|
  {
    if |sub| > 0 && |s| > 0 {
      if sub[0] == s[0] && IsSubsequence(sub[1..], s[1..]) {
        SubsequenceOfDistinct(sub[1..], s[1..]);
        SubsequenceMembers(sub[1..], s[1..]);
        forall i, j | 0 <= i < j < |sub| ensures sub[i] != sub[j] {
          if i == 0 {
            assert sub[j] == sub[1..][j - 1];
            assert sub[j] in s[1..];
          } else {
            assert sub[i] == sub[1..][i - 1] && sub[j] == sub[1..][j - 1];
          }
        }
      } else {
        SubsequenceOfDistinct(sub, s[1..]);
      }
    }
  }

  /** Every element of a subsequence occurs in the sequence. */
  lemma {:induction false} SubsequenceMembers<T>(sub: seq<T>, s: seq<T>)
    requires IsSubsequence(sub, s)
    ensures forall x :: x in sub ==> x in s
    decreases |s|
  {
    if |sub| > 0 && |s| > 0 {
      if sub[0] == s[0] && IsSubsequence(sub[1..], s[1..]) {
        SubsequenceMembers(sub[1..], s[1..]);
        assert sub == [sub[0]] + sub[1..];
        assert s == [s[0]] + s[1..];
      } else {
        SubsequenceMembers(sub, s[1..]);
        assert s == [s[0]] + s[1..];
      }
    }
  }
}
