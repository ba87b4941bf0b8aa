/**
 * Descending sorts as pandas' `sort_values(ascending=False)` and `nlargest`
 * perform them. Ties may come out in any order, so a sort is specified by
 * what any correct sort satisfies: sorted by its score, and a permutation.
 */
module Sorting {

  /** Scores never increase along `s`. */
  predicate SortedBy<T>(s: seq<T>, score: T -> real)
  {
    forall i, j :: 0 <= i < j < |s| ==> score(s[i]) >= score(s[j])
  }

  /** An item scoring at least as much as every item of a sorted list can go in front. */
  lemma PrependSorted<T>(x: T, s: seq<T>, score: T -> real)
    requires SortedBy(s, score)
    requires forall i :: 0 <= i < |s| ==> score(x) >= score(s[i])
    ensures SortedBy([x] + s, score)
  {
    var r := [x] + s;
    forall i, j | 0 <= i < j < |r| ensures score(r[i]) >= score(r[j]) {
      assert r[j] == s[j - 1];
      if i > 0 {
        assert r[i] == s[i - 1];
      }
    }
  }

  /** Puts `x` into the sorted `s`, ahead of the first item scoring less. */
  function InsertBy<T(==)>(x: T, s: seq<T>, score: T -> real): (r: seq<T>)
    requires SortedBy(s, score)
    ensures |r| == |s| + 1
    ensures SortedBy(r, score)
    ensures multiset(r) == multiset(s) + multiset{x}
  {
    if s == [] then [x]
    else if score(x) >= score(s[0]) then
      PrependSorted(x, s, score);
      [x] + s
    else
      var rest := InsertBy(x, s[1..], score);
      assert forall i :: 0 <= i < |rest| ==> score(s[0]) >= score(rest[i]) by {
        forall i | 0 <= i < |rest| ensures score(s[0]) >= score(rest[i]) {
          if rest[i] != x {
            assert rest[i] in multiset(rest);
            assert rest[i] in multiset(s[1..]);
            var j :| 0 <= j < |s[1..]| && s[1..][j] == rest[i];
            assert s[j + 1] == rest[i];
          }
        }
      }
      PrependSorted(s[0], rest, score);
      var r := [s[0]] + rest;
      assert s == [s[0]] + s[1..];
      assert multiset(r) == multiset{s[0]} + multiset(rest);
      r
  }

  /** Insertion sort, highest score first. */
  function SortBy<T(==)>(s: seq<T>, score: T -> real): (r: seq<T>)
    ensures |r| == |s|
    ensures SortedBy(r, score)
    ensures multiset(r) == multiset(s)
  {
    if s == [] then []
    else
      assert s == [s[0]] + s[1..];
      InsertBy(s[0], SortBy(s[1..], score), score)
  }

  /** No two items of `s` share a key. */
  predicate DistinctBy<T, K(==)>(s: seq<T>, keyOf: T -> K)
  {
    forall i, j :: 0 <= i < j < |s| ==> keyOf(s[i]) != keyOf(s[j])
  }

  lemma {:induction false} InsertKeepsDistinct<T, K>(x: T, s: seq<T>, score: T -> real, keyOf: T -> K)
    requires SortedBy(s, score) && DistinctBy(s, keyOf)
    requires forall i :: 0 <= i < |s| ==> keyOf(s[i]) != keyOf(x)
    ensures DistinctBy(InsertBy(x, s, score), keyOf)
  {
    if s == [] || score(x) >= score(s[0]) {
      ConsDistinct(x, s, keyOf);
    } else {
      var rest := InsertBy(x, s[1..], score);
      InsertKeepsDistinct(x, s[1..], score, keyOf);
      forall i | 0 <= i < |rest| ensures keyOf(rest[i]) != keyOf(s[0]) {
        InsertedItem(x, s[1..], score, i);
      }
      ConsDistinct(s[0], rest, keyOf);
    }
  }

  /** Every item of an insertion result is the inserted item or one of the old items. */
  lemma InsertedItem<T>(x: T, s: seq<T>, score: T -> real, i: nat)
    requires SortedBy(s, score) && i < |s| + 1
    ensures InsertBy(x, s, score)[i] == x || exists j :: 0 <= j < |s| && s[j] == InsertBy(x, s, score)[i]
  {
    var r := InsertBy(x, s, score);
    if r[i] != x {
      assert r[i] in multiset(r);
      assert r[i] in multiset(s);
    }
  }

  /** Putting an item with a fresh key in front keeps the keys distinct. */
  lemma ConsDistinct<T, K>(y: T, s: seq<T>, keyOf: T -> K)
    requires DistinctBy(s, keyOf) && forall i :: 0 <= i < |s| ==> keyOf(s[i]) != keyOf(y)
    ensures DistinctBy([y] + s, keyOf)
  {
    var r := [y] + s;
    forall i, j | 0 <= i < j < |r| ensures keyOf(r[i]) != keyOf(r[j]) {
      assert r[j] == s[j - 1];
      if i > 0 {
        assert r[i] == s[i - 1];
      }
    }
  }

  /** Sorting items with distinct keys leaves their keys distinct. */
  lemma {:induction false} SortKeepsDistinct<T, K>(s: seq<T>, score: T -> real, keyOf: T -> K)
    requires DistinctBy(s, keyOf)
    ensures DistinctBy(SortBy(s, score), keyOf)
  {
    if s != [] {
      var t := SortBy(s[1..], score);
      SortKeepsDistinct(s[1..], score, keyOf);
      forall i | 0 <= i < |t| ensures keyOf(t[i]) != keyOf(s[0]) {
        assert t[i] in multiset(s[1..]);
        var j :| 0 <= j < |s[1..]| && s[1..][j] == t[i];
        assert s[j + 1] == t[i];
      }
      InsertKeepsDistinct(s[0], t, score, keyOf);
    }
  }

  /** The sum of the weights of the items of `s`. */
  function SumBy<T>(s: seq<T>, w: T -> real): real
  {
    if s == [] then 0.0 else w(s[0]) + SumBy(s[1..], w)
  }

  lemma {:induction false} SumByConcat<T>(a: seq<T>, b: seq<T>, w: T -> real)
    ensures SumBy(a + b, w) == SumBy(a, w) + SumBy(b, w)
  {
    if a != [] {
      assert (a + b)[1..] == a[1..] + b;
      SumByConcat(a[1..], b, w);
    } else {
      assert a + b == b;
    }
  }

  /** Summing does not depend on the order of the items. */
  lemma {:induction false} SumByPermutation<T>(a: seq<T>, b: seq<T>, w: T -> real)
    requires multiset(a) == multiset(b)
    ensures SumBy(a, w) == SumBy(b, w)
    decreases |a|
  {
    if a != [] {
      var x := a[0];
      assert x in multiset(b);
      var j :| 0 <= j < |b| && b[j] == x;
      var b' := b[..j] + b[j + 1..];
      assert b == b[..j] + ([x] + b[j + 1..]);
      assert a == [x] + a[1..];
      assert multiset(b) == multiset(b[..j]) + multiset{x} + multiset(b[j + 1..]);
      assert multiset(b') == multiset(b[..j]) + multiset(b[j + 1..]);
      assert multiset(a) == multiset{x} + multiset(a[1..]);
      assert multiset(a[1..]) == multiset(a) - multiset{x};
      assert multiset(b') == multiset(b) - multiset{x};
      SumByPermutation(a[1..], b', w);
      SumByConcat(b[..j], [x] + b[j + 1..], w);
      SumByConcat(b[..j], b[j + 1..], w);
      assert ([x] + b[j + 1..])[1..] == b[j + 1..];
    }
  }

  /** Weights that agree on every item give the same sum. */
  lemma {:induction false} SumByPointwise<T>(s: seq<T>, w1: T -> real, w2: T -> real)
    requires forall i :: 0 <= i < |s| ==> w1(s[i]) == w2(s[i])
    ensures SumBy(s, w1) == SumBy(s, w2)
  {
    if s != [] {
      SumByPointwise(s[1..], w1, w2);
    }
  }
}
