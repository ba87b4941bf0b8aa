/**
 * The product rankings: the top-6 donut with its "Others" slice, and the
 * movement of products between two periods' top-10 lists.
 */
module Ranking {
  import opened Text
  import opened Sorting
  import opened Aggregation

  function Revenue<K>(e: Keyed<K>): real
  {
    e.amount.revenue
  }

  function Min(a: int, b: int): int
  {
    if a <= b then a else b
  }

  /**
   * `nlargest(n)` on revenue, and `sort_values('Revenue', ascending=False)
   * .head(n)`: the `n` highest-revenue entries, highest first.
   */
  function Largest<K(==)>(s: seq<Keyed<K>>, n: nat): (top: seq<Keyed<K>>)
    ensures |top| == Min(n, |s|)
    ensures SortedBy(top, Revenue)
    ensures multiset(top) <= multiset(s)
  {
    var t := SortBy(s, Revenue);
    assert t == t[..Min(n, |s|)] + t[Min(n, |s|)..];
    assert multiset(t) == multiset(t[..Min(n, |s|)]) + multiset(t[Min(n, |s|)..]);
    t[..Min(n, |s|)]
  }

  /** What `~index.isin(top.index)` selects: the entries whose key is not among the top keys. */
  predicate Dropped<K(==)>(top: seq<Keyed<K>>, e: Keyed<K>)
  {
    !HasKey(top, e.key)
  }

  lemma {:induction false} InTopHasKey<K>(top: seq<Keyed<K>>, e: Keyed<K>)
    requires e in top
    ensures HasKey(top, e.key)
  {
    KeyIndex(top, e.key);
  }

  /** The entries after the first `n` of the sorted order. */
  function RestOf<K(==)>(s: seq<Keyed<K>>, n: nat): seq<Keyed<K>>
  {
    SortBy(s, Revenue)[Min(n, |s|)..]
  }

  lemma LargestSplit<K>(s: seq<Keyed<K>>, n: nat)
    ensures SortBy(s, Revenue) == Largest(s, n) + RestOf(s, n)
    ensures multiset(s) == multiset(Largest(s, n)) + multiset(RestOf(s, n))
    ensures forall i, j :: 0 <= i < |Largest(s, n)| && 0 <= j < |RestOf(s, n)| ==>
      Revenue(Largest(s, n)[i]) >= Revenue(RestOf(s, n)[j])
  {
    var t := SortBy(s, Revenue);
    var k := Min(n, |s|);
    assert t == t[..k] + t[k..];
    forall i, j | 0 <= i < k && 0 <= j < |t| - k ensures Revenue(t[..k][i]) >= Revenue(t[k..][j]) {
      assert t[..k][i] == t[i] && t[k..][j] == t[k + j];
    }
  }

  /** Every kept entry earns at least as much as every dropped one. */
  lemma LargestDominates<K>(s: seq<Keyed<K>>, n: nat, e: Keyed<K>, i: nat)
    requires e in s && Dropped(Largest(s, n), e) && i < |Largest(s, n)|
    ensures Revenue(Largest(s, n)[i]) >= Revenue(e)
  {
    LargestSplit(s, n);
    assert e in multiset(s);
    if e in Largest(s, n) {
      InTopHasKey(Largest(s, n), e);
      assert false;
    }
    assert e in multiset(RestOf(s, n));
    var j :| 0 <= j < |RestOf(s, n)| && RestOf(s, n)[j] == e;
  }

  /** `prod_data[~prod_data.index.isin(top_6.index)].sum()`. */
  function OthersSum<K(==)>(s: seq<Keyed<K>>, top: seq<Keyed<K>>): real
  {
    SumBy(s, (e: Keyed<K>) => if Dropped(top, e) then Revenue(e) else 0.0)
  }

  /** A slice of the donut: one product, or everything else. */
  datatype PieSlice<K> = Slice(key: K, revenue: real) | Others(revenue: real)

  function Slices<K>(top: seq<Keyed<K>>): (r: seq<PieSlice<K>>)
    ensures |r| == |top|
    ensures forall i :: 0 <= i < |top| ==> r[i] == Slice(top[i].key, Revenue(top[i]))
  {
    seq(|top|, i requires 0 <= i < |top| => Slice(top[i].key, Revenue(top[i])))
  }

  /** The top six products, then an "Others" slice only when the rest earned more than 0. */
  function PieData<K(==)>(s: seq<Keyed<K>>): seq<PieSlice<K>>
  {
    var top := Largest(s, 6);
    var other := OthersSum(s, top);
    Slices(top) + (if other > 0.0 then [Others(other)] else [])
  }

  /** With distinct keys, the dropped entries add up to the total less the kept ones. */
  lemma OthersIsTheRest<K>(s: seq<Keyed<K>>, n: nat)
    requires DistinctKeys(s)
    ensures OthersSum(s, Largest(s, n)) == SumBy(s, Revenue) - SumBy(Largest(s, n), Revenue)
  {
    LargestSplit(s, n);
    OthersAreRestOf(s, n);
    SumByPermutation(s, SortBy(s, Revenue), Revenue);
    SumByConcat(Largest(s, n), RestOf(s, n), Revenue);
  }

  lemma OthersAreRestOf<K>(s: seq<Keyed<K>>, n: nat)
    requires DistinctKeys(s)
    ensures OthersSum(s, Largest(s, n)) == SumBy(RestOf(s, n), Revenue)
  {
    var t := SortBy(s, Revenue);
    var top, rest := Largest(s, n), RestOf(s, n);
    var w := (e: Keyed<K>) => if Dropped(top, e) then Revenue(e) else 0.0;
    LargestSplit(s, n);
    SumByPermutation(s, t, w);
    SumByConcat(top, rest, w);
    assert SumBy(top, w) == 0.0 by {
      forall i | 0 <= i < |top| ensures w(top[i]) == 0.0 {
        InTopHasKey(top, top[i]);
      }
      SumByPointwise(top, w, (e: Keyed<K>) => 0.0);
      ZeroSum(top);
    }
    assert SumBy(rest, w) == SumBy(rest, Revenue) by {
      forall j | 0 <= j < |rest| ensures w(rest[j]) == Revenue(rest[j]) {
        RestIsDropped(s, n, j);
      }
      SumByPointwise(rest, w, Revenue);
    }
  }

  lemma RestIsDropped<K>(s: seq<Keyed<K>>, n: nat, j: nat)
    requires DistinctKeys(s) && j < |RestOf(s, n)|
    ensures Dropped(Largest(s, n), RestOf(s, n)[j])
  {
    var t := SortBy(s, Revenue);
    var top, rest := Largest(s, n), RestOf(s, n);
    SortKeepsDistinct(s, Revenue, (e: Keyed<K>) => e.key);
    forall i | 0 <= i < |top| ensures top[i].key != rest[j].key {
      assert t[i] == top[i] && t[|top| + j] == rest[j];
    }
    KeyIndex(top, rest[j].key);
  }

  lemma {:induction false} ZeroSum<K>(s: seq<Keyed<K>>)
    ensures SumBy(s, (e: Keyed<K>) => 0.0) == 0.0
  {
    if s != [] {
      ZeroSum(s[1..]);
    }
  }

  /**
   * The donut: the top min(6, n) products with their revenue, highest
   * first, then "Others" exactly when the total less the top six is
   * positive, holding that difference.
   */
  lemma PieDataSpec<K>(s: seq<Keyed<K>>)
    requires DistinctKeys(s)
    ensures var top := Largest(s, 6);
      var rest := SumBy(s, Revenue) - SumBy(top, Revenue);
      && |PieData(s)| == Min(6, |s|) + (if rest > 0.0 then 1 else 0)
      && (forall i :: 0 <= i < |top| ==> PieData(s)[i] == Slice(top[i].key, Revenue(top[i])))
      && (rest > 0.0 ==> PieData(s)[|top|] == Others(rest))
  {
    OthersIsTheRest(s, 6);
  }

  /** The keys of a ranking, best first. */
  function Names<K>(s: seq<Keyed<K>>): (r: seq<K>)
    ensures |r| == |s|
    ensures forall i :: 0 <= i < |s| ==> r[i] == s[i].key
  {
    seq(|s|, i requires 0 <= i < |s| => s[i].key)
  }

  /** The product names of a period's top-10 by revenue. */
  function TopTen<K(==)>(s: seq<Keyed<K>>): seq<K>
  {
    Names(Largest(s, 10))
  }

  /** `{prod: i + 1 for i, prod in enumerate(names)}[k]`: a later entry overwrites an earlier one. */
  function RankOf<K(==)>(names: seq<K>, k: K): (r: nat)
    requires k in names
    ensures 1 <= r <= |names| && names[r - 1] == k
    ensures forall j :: r <= j < |names| ==> names[j] != k
  {
    if names[|names| - 1] == k then |names|
    else
      assert k in names[..|names| - 1] by {
        var i :| 0 <= i < |names| && names[i] == k;
        assert names[..|names| - 1][i] == k;
      }
      RankOf(names[..|names| - 1], k)
  }

  /** In a list without repeats the rank is the position, counted from 1. */
  lemma RankIsPosition<K>(names: seq<K>, i: nat)
    requires i < |names| && forall a, b :: 0 <= a < b < |names| ==> names[a] != names[b]
    ensures RankOf(names, names[i]) == i + 1
  {
  }

  /** How a product moved between the two top-10 lists. */
  datatype Movement = New | Up(places: nat) | Down(places: nat) | Unchanged

  /** The movement of `k`, one of the second period's top products. */
  function MovementOf<K(==)>(top1: seq<K>, top2: seq<K>, k: K): (m: Movement)
    requires k in top2
    ensures m == New <==> k !in top1
    ensures m.Up? ==> 1 <= m.places < |top1| && m.places == RankOf(top1, k) - RankOf(top2, k)
    ensures m.Down? ==> 1 <= m.places < |top2| && m.places == RankOf(top2, k) - RankOf(top1, k)
    ensures m == Unchanged ==> k in top1 && RankOf(top1, k) == RankOf(top2, k)
  {
    if k !in top1 then New
    else
      var change := RankOf(top1, k) - RankOf(top2, k);
      if change > 0 then Up(change)
      else if change < 0 then Down(-change)
      else Unchanged
  }

  /** The text shown beside a product: "↑k", "↓k", "—" or "NEW". */
  function MovementLabel(m: Movement): string
  {
    match m
    case New => "NEW"
    case Up(k) => "\U{2191}" + Decimal(k)
    case Down(k) => "\U{2193}" + Decimal(k)
    case Unchanged => "\U{2014}"
  }

  /** Different movements show different text, so the label can be read back. */
  lemma MovementLabelInjective(m1: Movement, m2: Movement)
    requires MovementLabel(m1) == MovementLabel(m2)
    ensures m1 == m2
  {
    var s := MovementLabel(m1);
    assert s[0] == MovementLabel(m2)[0];
    if m1.Up? || m1.Down? {
      assert m2.Up? || m2.Down?;
      assert Decimal(m1.places) == s[1..] == Decimal(m2.places);
      DecimalRoundTrip(m1.places);
      DecimalRoundTrip(m2.places);
    }
  }

  /** A product at the same place in both lists did not move. */
  lemma SameListNoMovement<K>(top: seq<K>, k: K)
    requires k in top
    ensures MovementOf(top, top, k) == Unchanged
  {
  }

  /** The `rank_changes` loop: one label per product of the second list. */
  method RankChanges<K(==)>(top1: seq<K>, top2: seq<K>) returns (changes: map<K, string>)
    ensures changes.Keys == set k | k in top2
    ensures forall k :: k in top2 ==> changes[k] == MovementLabel(MovementOf(top1, top2, k))
  {
    changes := map[];
    for i := 0 to |top2|
      invariant changes.Keys == set j | 0 <= j < i :: top2[j]
      invariant forall j :: 0 <= j < i ==> changes[top2[j]] == MovementLabel(MovementOf(top1, top2, top2[j]))
    {
      var k := top2[i];
      var shown: string;
      if k in top1 {
        var change := RankOf(top1, k) - RankOf(top2, k);
        if change > 0 {
          shown := "\U{2191}" + Decimal(change);
        } else if change < 0 {
          shown := "\U{2193}" + Decimal(-change);
        } else {
          shown := "\U{2014}";
        }
      } else {
        shown := "NEW";
      }
      assert shown == MovementLabel(MovementOf(top1, top2, k));
      changes := changes[k := shown];
    }
    assert forall k :: k in top2 <==> exists j :: 0 <= j < |top2| && top2[j] == k;
  }
}
