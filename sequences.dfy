/**
 * Ordering and de-duplication of sequences as pandas performs them:
 * `sort_values` on a real key and `drop_duplicates` / `unique` (first
 * occurrence kept).
 */
module Sequences {

  predicate SortedBy<T>(s: seq<T>, key: T -> real) {
    forall i, j :: 0 <= i < j < |s| ==> key(s[i]) <= key(s[j])
  }

  predicate Sorted(s: seq<real>) {
    forall i, j :: 0 <= i < j < |s| ==> s[i] <= s[j]
  }

  predicate StrictlyIncreasing(s: seq<real>) {
    forall i, j :: 0 <= i < j < |s| ==> s[i] < s[j]
  }

  function InsertBy<T>(x: T, s: seq<T>, key: T -> real): (r: seq<T>)
    requires SortedBy(s, key)
    ensures SortedBy(r, key)
    ensures multiset(r) == multiset(s) + multiset{x}
    ensures |r| == |s| + 1
    ensures r[0] == x || (s != [] && r[0] == s[0])
  {
    if s == [] then [x]
    else if key(x) <= key(s[0]) then [x] + s
    else
      var t := InsertBy(x, s[1..], key);
      assert s == [s[0]] + s[1..];
      [s[0]] + t
  }

  /** A stable ascending sort on `key`. */
  function SortBy<T>(s: seq<T>, key: T -> real): (r: seq<T>)
    ensures SortedBy(r, key)
    ensures multiset(r) == multiset(s)
    ensures |r| == |s|
  {
    if s == [] then []
    else
      var t := SortBy(s[1..], key);
      assert s == [s[0]] + s[1..];
      InsertBy(s[0], t, key)
  }

  function Identity(x: real): real { x }

  /** Ascending order of reals. */
  function SortReals(s: seq<real>): (r: seq<real>)
    ensures Sorted(r)
    ensures multiset(r) == multiset(s)
  {
    var r := SortBy(s, Identity);
    assert forall i, j :: 0 <= i < j < |r| ==> Identity(r[i]) <= Identity(r[j]);
    r
  }

  /**
   * Two sorted rearrangements of the same reals are the same sequence, so
   * which sorting algorithm pandas uses does not matter for a list of reals.
   */
  lemma {:induction false} SortedPermutationUnique(a: seq<real>, b: seq<real>)
    requires Sorted(a) && Sorted(b)
    requires multiset(a) == multiset(b)
    ensures a == b
    decreases |a|
  {
    if a != [] {
      assert |b| == |a| by {
        assert |multiset(a)| == |a| && |multiset(b)| == |b|;
      }
      MinOfSorted(a);
      MinOfSorted(b);
      assert a[0] in multiset(b) && b[0] in multiset(a);
      assert a[0] == b[0];
      assert a == [a[0]] + a[1..];
      assert b == [b[0]] + b[1..];
      assert multiset(a) == multiset{a[0]} + multiset(a[1..]);
      assert multiset(b) == multiset{b[0]} + multiset(b[1..]);
      assert multiset(a[1..]) == multiset(a) - multiset{a[0]};
      assert multiset(b[1..]) == multiset(b) - multiset{b[0]};
      SortedPermutationUnique(a[1..], b[1..]);
    }
  }

  lemma MinOfSorted(s: seq<real>)
    requires Sorted(s) && s != []
    ensures forall x :: x in multiset(s) ==> s[0] <= x
  {
  }

  /** The keys occurring in `s`. */
  function Keys<T>(s: seq<T>, key: T -> real): set<real> {
    set i | 0 <= i < |s| :: key(s[i])
  }

  /**
   * Keep the first element of each key not yet in `seen`, in order; with
   * `seen == {}` this is pandas' `drop_duplicates(subset=key)`.
   */
  function DedupBy<T>(s: seq<T>, key: T -> real, seen: set<real>): (r: seq<T>)
    ensures forall i, j :: 0 <= i < j < |r| ==> key(r[i]) != key(r[j])
    ensures forall i :: 0 <= i < |r| ==> key(r[i]) !in seen
    ensures forall i :: 0 <= i < |r| ==> r[i] in s
    ensures Keys(r, key) == Keys(s, key) - seen
    ensures |r| <= |s|
  {
    if s == [] then []
    else if key(s[0]) in seen then
      var r := DedupBy(s[1..], key, seen);
      KeysCons(s, key);
      r
    else
      var t := DedupBy(s[1..], key, seen + {key(s[0])});
      KeysCons(s, key);
      KeysCons([s[0]] + t, key);
      assert ([s[0]] + t)[1..] == t;
      [s[0]] + t
  }

  lemma KeysCons<T>(s: seq<T>, key: T -> real)
    requires s != []
    ensures Keys(s, key) == {key(s[0])} + Keys(s[1..], key)
  {
    var a, b := Keys(s, key), {key(s[0])} + Keys(s[1..], key);
    forall k | k in a ensures k in b {
      var i :| 0 <= i < |s| && key(s[i]) == k;
      if i > 0 {
        assert key(s[1..][i - 1]) == k;
      }
    }
    forall k | k in b ensures k in a {
      if k != key(s[0]) {
        var i :| 0 <= i < |s[1..]| && key(s[1..][i]) == k;
        assert key(s[i + 1]) == k;
      }
    }
  }

  /** `pd.unique` on reals, then ascending order: the distinct values, strictly increasing. */
  function SortedUnique(s: seq<real>): (r: seq<real>)
    ensures StrictlyIncreasing(r)
    ensures forall x :: x in r <==> x in s
  {
    var d := DedupBy(s, Identity, {});
    var r := SortReals(d);
    assert forall x :: x in r <==> x in d by {
      forall x ensures x in r <==> x in d {
        assert x in r <==> x in multiset(r);
        assert x in d <==> x in multiset(d);
      }
    }
    forall x ensures x in d <==> x in s {
      assert x in d <==> Identity(x) in Keys(d, Identity);
      assert x in s <==> Identity(x) in Keys(s, Identity);
    }
    DistinctSortedIsStrict(d, r);
    r
  }

  lemma DistinctSortedIsStrict(d: seq<real>, r: seq<real>)
    requires forall i, j :: 0 <= i < j < |d| ==> Identity(d[i]) != Identity(d[j])
    requires multiset(r) == multiset(d) && Sorted(r)
    ensures StrictlyIncreasing(r)
  {
    forall i, j | 0 <= i < j < |r| ensures r[i] < r[j] {
      if r[i] == r[j] {
        assert multiset(r)[r[i]] >= 2 by {
          assert r == r[..i] + [r[i]] + r[i + 1..j] + [r[j]] + r[j + 1..];
        }
        DistinctCountOne(d, r[i]);
      }
    }
  }

  lemma {:induction false} DistinctCountOne(d: seq<real>, x: real)
    requires forall i, j :: 0 <= i < j < |d| ==> Identity(d[i]) != Identity(d[j])
    ensures multiset(d)[x] <= 1
    decreases |d|
  {
    if d != [] {
      DistinctCountOne(d[1..], x);
      assert d == [d[0]] + d[1..];
      if d[0] == x {
        assert x !in d[1..];
      }
    }
  }

  /** Two strictly increasing sequences holding the same values are equal. */
  lemma {:induction false} StrictlyIncreasingUnique(a: seq<real>, b: seq<real>)
    requires StrictlyIncreasing(a) && StrictlyIncreasing(b)
    requires forall x :: x in a <==> x in b
    ensures a == b
    decreases |a|
  {
    assert b == [] || b[0] in b;
    if a != [] {
      assert b != [] by {
        assert a[0] in a;
      }
      assert a[0] == b[0] by {
        assert a[0] in b && b[0] in a;
        var i :| 0 <= i < |b| && b[i] == a[0];
        var j :| 0 <= j < |a| && a[j] == b[0];
        assert b[0] <= b[i] && a[0] <= a[j];
      }
      forall x ensures x in a[1..] <==> x in b[1..] {
        if x in a[1..] {
          assert x in b && x != b[0];
        }
        if x in b[1..] {
          assert x in a && x != a[0];
        }
      }
      StrictlyIncreasingUnique(a[1..], b[1..]);
      assert a == [a[0]] + a[1..] && b == [b[0]] + b[1..];
    }
  }
}
