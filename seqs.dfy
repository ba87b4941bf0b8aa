/**
 * Order-preserving selection on sequences: the shape shared by pandas' boolean
 * masks (`df[df[col] == v]`) and the loops that append the items they keep.
 */
module Seqs {
  import opened Wrappers

  /** `at` lists, in increasing order, the positions of `b` that the items of `a` come from. */
  predicate Embeds<T(==)>(at: seq<nat>, a: seq<T>, b: seq<T>)
  {
    && |at| == |a|
    && (forall i :: 0 <= i < |at| ==> at[i] < |b| && a[i] == b[at[i]])
    && (forall i, j :: 0 <= i < j < |at| ==> at[i] < at[j])
  }

  /** `a` is `b` with some items left out, the rest in their original order. */
  ghost predicate IsSubsequence<T>(a: seq<T>, b: seq<T>)
  {
    exists at :: Embeds(at, a, b)
  }

  /** The items of `s` that satisfy `keep`, in their original order. */
  function Filter<T>(s: seq<T>, keep: T -> bool): (r: seq<T>)
    ensures |r| <= |s|
    ensures forall x :: x in r ==> x in s && keep(x)
    ensures forall i :: 0 <= i < |s| && keep(s[i]) ==> s[i] in r
    decreases |s|
  {
    if s == [] then []
    else Filter(s[..|s| - 1], keep) + (if keep(s[|s| - 1]) then [s[|s| - 1]] else [])
  }

  /** An item is in the filtered sequence exactly when it is in `s` and is kept. */
  lemma FilterMembership<T>(s: seq<T>, keep: T -> bool)
    ensures forall x :: x in Filter(s, keep) <==> x in s && keep(x)
  {
    forall x | x in s && keep(x)
      ensures x in Filter(s, keep)
    {
      var i :| 0 <= i < |s| && s[i] == x;
    }
  }

  /** The positions of the items that `Filter` keeps. */
  function KeptPositions<T>(s: seq<T>, keep: T -> bool): seq<nat>
    decreases |s|
  {
    if s == [] then []
    else KeptPositions(s[..|s| - 1], keep) + (if keep(s[|s| - 1]) then [|s| - 1] else [])
  }

  /** The kept positions increase and point at the kept items. */
  lemma {:induction false} KeptPositionsEmbed<T>(s: seq<T>, keep: T -> bool)
    ensures Embeds(KeptPositions(s, keep), Filter(s, keep), s)
    decreases |s|
  {
    if s != [] {
      var front := s[..|s| - 1];
      var x := s[|s| - 1];
      KeptPositionsEmbed(front, keep);
      var at0 := KeptPositions(front, keep);
      var f0 := Filter(front, keep);
      var at := at0 + (if keep(x) then [|s| - 1] else []);
      var f := f0 + (if keep(x) then [x] else []);
      assert KeptPositions(s, keep) == at && Filter(s, keep) == f;
      forall i | 0 <= i < |at|
        ensures at[i] < |s| && f[i] == s[at[i]]
      {
        if i < |at0| {
          assert at[i] == at0[i] && f[i] == f0[i] && front[at0[i]] == s[at0[i]];
        }
      }
      forall i, j | 0 <= i < j < |at|
        ensures at[i] < at[j]
      {
        assert at[i] == at0[i];
        if j < |at0| {
          assert at[j] == at0[j];
        }
      }
    }
  }

  /** `Filter` keeps the original order: its result is a subsequence of its input. */
  lemma FilterIsSubsequence<T>(s: seq<T>, keep: T -> bool)
    ensures IsSubsequence(Filter(s, keep), s)
  {
    KeptPositionsEmbed(s, keep);
  }

  /** Filtering distributes over concatenation. */
  lemma {:induction false} FilterAppend<T>(a: seq<T>, b: seq<T>, keep: T -> bool)
    ensures Filter(a + b, keep) == Filter(a, keep) + Filter(b, keep)
    decreases |b|
  {
    if b != [] {
      var b' := b[..|b| - 1];
      var x := b[|b| - 1];
      var tail := if keep(x) then [x] else [];
      FilterAppend(a, b', keep);
      assert (a + b)[..|a + b| - 1] == a + b' && (a + b)[|a + b| - 1] == x;
      assert Filter(a + b, keep) == Filter(a + b', keep) + tail;
      assert Filter(b, keep) == Filter(b', keep) + tail;
    } else {
      assert a + b == a;
    }
  }

  /** A subsequence of a subsequence is a subsequence. */
  lemma SubsequenceTransitive<T>(a: seq<T>, b: seq<T>, c: seq<T>)
    requires IsSubsequence(a, b) && IsSubsequence(b, c)
    ensures IsSubsequence(a, c)
  {
    var ab :| Embeds(ab, a, b);
    var bc :| Embeds(bc, b, c);
    var ac := seq(|ab|, i requires 0 <= i < |ab| => bc[ab[i]]);
    assert Embeds(ac, a, c);
  }

  /** A filter that keeps everything changes nothing. */
  lemma {:induction false} FilterKeepsAll<T>(s: seq<T>, keep: T -> bool)
    requires forall x :: keep(x)
    ensures Filter(s, keep) == s
    decreases |s|
  {
    if s != [] {
      FilterKeepsAll(s[..|s| - 1], keep);
      assert s == s[..|s| - 1] + [s[|s| - 1]];
    }
  }

  /** The values `f` gives for the items of `s`, skipping the items it maps to `None`, in order. */
  function FilterMap<T, U>(s: seq<T>, f: T -> Option<U>): (r: seq<U>)
    ensures |r| <= |s|
    decreases |s|
  {
    if s == [] then []
    else
      var last := f(s[|s| - 1]);
      FilterMap(s[..|s| - 1], f) + (if last.Some? then [last.value] else [])
  }

  /** `FilterMap` distributes over concatenation. */
  lemma {:induction false} FilterMapAppend<T, U>(a: seq<T>, b: seq<T>, f: T -> Option<U>)
    ensures FilterMap(a + b, f) == FilterMap(a, f) + FilterMap(b, f)
    decreases |b|
  {
    if b != [] {
      var b' := b[..|b| - 1];
      FilterMapAppend(a, b', f);
      assert (a + b)[..|a + b| - 1] == a + b';
    } else {
      assert a + b == a;
    }
  }

  /** A value is in the result exactly when `f` produces it for some item of `s`. */
  lemma {:induction false} FilterMapMembership<T, U>(s: seq<T>, f: T -> Option<U>)
    ensures forall y :: y in FilterMap(s, f) ==> exists i :: 0 <= i < |s| && f(s[i]) == Some(y)
    ensures forall i :: 0 <= i < |s| && f(s[i]).Some? ==> f(s[i]).value in FilterMap(s, f)
    decreases |s|
  {
    if s != [] {
      var front := s[..|s| - 1];
      FilterMapMembership(front, f);
      var last := f(s[|s| - 1]);
      assert FilterMap(s, f) == FilterMap(front, f) + (if last.Some? then [last.value] else []);
      forall y | y in FilterMap(s, f)
        ensures exists i :: 0 <= i < |s| && f(s[i]) == Some(y)
      {
        if y in FilterMap(front, f) {
          var i :| 0 <= i < |front| && f(front[i]) == Some(y);
          assert f(s[i]) == Some(y);
        } else {
          assert f(s[|s| - 1]) == Some(y);
        }
      }
      forall i | 0 <= i < |s| && f(s[i]).Some?
        ensures f(s[i]).value in FilterMap(s, f)
      {
        if i < |s| - 1 {
          assert f(front[i]) == f(s[i]);
        }
      }
    }
  }

  /** A property every value `f` produces on `s` holds for every item of the result. */
  lemma {:induction false} FilterMapKeeps<T, U>(s: seq<T>, f: T -> Option<U>, p: U -> bool)
    requires forall i :: 0 <= i < |s| && f(s[i]).Some? ==> p(f(s[i]).value)
    ensures forall y :: y in FilterMap(s, f) ==> p(y)
    decreases |s|
  {
    if s != [] {
      FilterMapKeeps(s[..|s| - 1], f, p);
    }
  }
}
