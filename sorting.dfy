/**
 * Python's `sorted(xs, key=..., reverse=True)` and `xs.sort(key=..., reverse=True)`:
 * a stable sort into non-increasing key order, and the prefix slice `xs[:n]`
 * that the scorers and the rule query use to keep the best entries.
 */
module Sorting {

  /** Keys never increase from left to right. */
  predicate SortedDesc<T>(s: seq<T>, key: T -> real) {
    forall i, j :: 0 <= i < j < |s| ==> key(s[i]) >= key(s[j])
  }

  /** The elements of `s` whose key is `k`, in their order in `s`. */
  function WithKey<T>(s: seq<T>, key: T -> real, k: real): seq<T> {
    if s == [] then [] else (if key(s[0]) == k then [s[0]] else []) + WithKey(s[1..], key, k)
  }

  /** Places `x` in front of the first element whose key is not above its own. */
  function Insert<T>(x: T, s: seq<T>, key: T -> real): seq<T> {
    if s == [] || key(x) >= key(s[0]) then [x] + s
    else [s[0]] + Insert(x, s[1..], key)
  }

  /** Inserting adds exactly `x`. */
  lemma {:induction false} InsertPermutes<T>(x: T, s: seq<T>, key: T -> real)
    ensures multiset(Insert(x, s, key)) == multiset(s) + multiset{x}
    decreases |s|
  {
    if !(s == [] || key(x) >= key(s[0])) {
      assert s == [s[0]] + s[1..];
      InsertPermutes(x, s[1..], key);
    }
  }

  /** Prepending an element whose key bounds every key keeps the order. */
  lemma ConsSorted<T>(y: T, t: seq<T>, key: T -> real)
    requires SortedDesc(t, key)
    requires forall z :: z in t ==> key(y) >= key(z)
    ensures SortedDesc([y] + t, key)
  {
    var r := [y] + t;
    forall i, j | 0 <= i < j < |r| ensures key(r[i]) >= key(r[j]) {
      assert r[j] == t[j - 1];
      if i > 0 {
        assert r[i] == t[i - 1];
      }
    }
  }

  lemma {:induction false} InsertKeepsOrder<T>(x: T, s: seq<T>, key: T -> real)
    requires SortedDesc(s, key)
    ensures SortedDesc(Insert(x, s, key), key)
    decreases |s|
  {
    if s == [] || key(x) >= key(s[0]) {
      forall z | z in s ensures key(x) >= key(z) {
        var j :| 0 <= j < |s| && s[j] == z;
      }
      ConsSorted(x, s, key);
    } else {
      var t := Insert(x, s[1..], key);
      InsertKeepsOrder(x, s[1..], key);
      InsertPermutes(x, s[1..], key);
      forall y | y in t ensures key(s[0]) >= key(y) {
        assert y in multiset(t);
        if y != x {
          assert y in multiset(s[1..]);
          var j :| 0 <= j < |s[1..]| && s[1..][j] == y;
          assert s[j + 1] == y;
        }
      }
      ConsSorted(s[0], t, key);
    }
  }

  /** The stable descending sort: equal keys keep their original order (see `SortIsStable`). */
  function SortDesc<T>(s: seq<T>, key: T -> real): seq<T> {
    if s == [] then [] else Insert(s[0], SortDesc(s[1..], key), key)
  }

  /** The sort is a permutation of its input into non-increasing key order. */
  lemma {:induction false} SortDescSpec<T>(s: seq<T>, key: T -> real)
    ensures multiset(SortDesc(s, key)) == multiset(s)
    ensures SortedDesc(SortDesc(s, key), key)
    ensures |SortDesc(s, key)| == |s|
    decreases |s|
  {
    if s != [] {
      assert s == [s[0]] + s[1..];
      var t := SortDesc(s[1..], key);
      SortDescSpec(s[1..], key);
      InsertKeepsOrder(s[0], t, key);
      InsertPermutes(s[0], t, key);
      assert |multiset(SortDesc(s, key))| == |multiset(s)|;
    }
  }

  lemma {:induction false} InsertWithKey<T>(x: T, s: seq<T>, key: T -> real, k: real)
    ensures WithKey(Insert(x, s, key), key, k) == (if key(x) == k then [x] else []) + WithKey(s, key, k)
    decreases |s|
  {
    if s == [] || key(x) >= key(s[0]) {
      assert ([x] + s)[1..] == s;
    } else {
      var t := Insert(x, s[1..], key);
      assert ([s[0]] + t)[1..] == t;
      InsertWithKey(x, s[1..], key, k);
    }
  }

  /** Stability: for every key, the entries carrying it appear in the sorted
      output in exactly the order they had in the input. */
  lemma {:induction false} SortIsStable<T>(s: seq<T>, key: T -> real, k: real)
    ensures WithKey(SortDesc(s, key), key, k) == WithKey(s, key, k)
  {
    if s != [] {
      SortIsStable(s[1..], key, k);
      InsertWithKey(s[0], SortDesc(s[1..], key), key, k);
    }
  }

  /** Python's `s[:n]`, including a negative `n`, which counts from the end. */
  function Prefix<T>(s: seq<T>, n: int): (r: seq<T>)
    ensures n >= 0 ==> |r| == if n < |s| then n else |s|
    ensures n < 0 ==> |r| == if |s| + n > 0 then |s| + n else 0
    ensures r == s[..|r|]
  {
    if n >= 0 then (if n < |s| then s[..n] else s)
    else (if |s| + n > 0 then s[..|s| + n] else [])
  }

  /** The first `n` of a descending sort are the best `n`: whatever was left
      out has a key no greater than any kept entry, and entries are dropped
      only when all `n` places are taken. */
  lemma TopIsBest<T>(s: seq<T>, key: T -> real, n: nat, x: T)
    requires x in s
    ensures var r := Prefix(SortDesc(s, key), n);
      x !in r ==> |r| == n && forall y :: y in r ==> key(y) >= key(x)
  {
    var sorted := SortDesc(s, key);
    SortDescSpec(s, key);
    var r := Prefix(sorted, n);
    assert x in multiset(sorted);
    var j :| 0 <= j < |sorted| && sorted[j] == x;
    if x !in r {
      assert j >= |r|;
      forall y | y in r ensures key(y) >= key(x) {
        var i :| 0 <= i < |r| && r[i] == y;
        assert sorted[i] == y;
      }
    }
  }

  /** Every kept entry was an input entry. */
  lemma PrefixOfSortFromInput<T>(s: seq<T>, key: T -> real, n: int, y: T)
    requires y in Prefix(SortDesc(s, key), n)
    ensures y in s
  {
    var sorted := SortDesc(s, key);
    SortDescSpec(s, key);
    assert y in sorted;
    assert y in multiset(sorted);
  }

  /** `a` is an initial part of `b`. */
  ghost predicate IsPrefix<T>(a: seq<T>, b: seq<T>) {
    |a| <= |b| && a == b[..|a|]
  }

  lemma {:induction false} WithKeyOfPrefix<T>(s: seq<T>, key: T -> real, k: real, m: nat)
    requires m <= |s|
    ensures IsPrefix(WithKey(s[..m], key, k), WithKey(s, key, k))
    decreases m
  {
    if m > 0 {
      assert s[..m][1..] == s[1..][..m - 1];
      WithKeyOfPrefix(s[1..], key, k, m - 1);
    }
  }

  /** Stability survives the cut: for every key, the kept entries carrying
      it are the first ones carrying it in the input, in input order. */
  lemma TopIsStable<T>(s: seq<T>, key: T -> real, n: int, k: real)
    ensures IsPrefix(WithKey(Prefix(SortDesc(s, key), n), key, k), WithKey(s, key, k))
  {
    var sorted := SortDesc(s, key);
    var r := Prefix(sorted, n);
    WithKeyOfPrefix(sorted, key, k, |r|);
    SortIsStable(s, key, k);
  }

  /** The cut of a descending sort is itself sorted, and holds `min(n, |s|)`
      entries for a non-negative `n`. */
  lemma TopSorted<T>(s: seq<T>, key: T -> real, n: int)
    ensures SortedDesc(Prefix(SortDesc(s, key), n), key)
    ensures n >= 0 ==> |Prefix(SortDesc(s, key), n)| == if n < |s| then n else |s|
  {
    var sorted := SortDesc(s, key);
    SortDescSpec(s, key);
    var r := Prefix(sorted, n);
    forall i, j | 0 <= i < j < |r| ensures key(r[i]) >= key(r[j]) {
      assert r[i] == sorted[i] && r[j] == sorted[j];
    }
  }
}
