/**
 * Period comparison: the header metrics (a period-2 total against the
 * period-1 total) and the category and product change tables, which line up
 * two groupings key by key, fill the side a key is missing from with 0 and
 * sort the rows by percent change, highest first.
 */
module Comparison {
  import opened Aggregation
  import opened Sorting
  import opened Ingest

  /** Header metric: `change / before * 100 if before > 0 else 0`. */
  function PercentChange(before: real, after: real): (pct: real)
    ensures before > 0.0 ==> before + pct * before / 100.0 == after
    ensures before > 0.0 ==> (pct > 0.0 <==> after > before) && (pct < 0.0 <==> after < before)
    ensures before <= 0.0 ==> pct == 0.0
  {
    if before > 0.0 then
      var pct := (after - before) / before * 100.0;
      assert pct * before == (after - before) * 100.0;
      pct
    else 0.0
  }

  /**
   * Table column 'Change %': `(after - before) / before * 100`, where the
   * infinities of a zero `before` are replaced by 100 and the 0/0 of a key
   * with no sales in either period becomes 0.
   */
  function ChangePct(before: real, after: real): (pct: real)
    ensures before != 0.0 ==> before + pct * before / 100.0 == after
    ensures before == 0.0 && after != 0.0 ==> pct == 100.0
    ensures after == before ==> pct == 0.0
  {
    if before == 0.0 then
      if after == 0.0 then 0.0 else 100.0
    else
      var pct := (after - before) / before * 100.0;
      assert pct * before == (after - before) * 100.0;
      pct
  }

  /**
   * The header and the table agree while the first period sold something;
   * for a key new in the second period the header shows 0% and the table 100%.
   */
  lemma HeaderVersusTable(before: real, after: real)
    ensures before > 0.0 ==> PercentChange(before, after) == ChangePct(before, after)
    ensures before == 0.0 && after != 0.0 ==> PercentChange(before, after) == 0.0 && ChangePct(before, after) == 100.0
  {
    if before > 0.0 {
      var p, q := PercentChange(before, after), ChangePct(before, after);
      assert p * before == q * before;
    }
  }

  /** One row of a change table: a key and its revenue in each period. */
  datatype ChangeRow<K> = ChangeRow(key: K, before: real, after: real)

  function RowKey<K>(r: ChangeRow<K>): K
  {
    r.key
  }

  /** Column 'Change $'. */
  function ChangeAmount<K>(r: ChangeRow<K>): real
  {
    r.after - r.before
  }

  /** Column 'Change %'. */
  function RowPct<K>(r: ChangeRow<K>): real
  {
    ChangePct(r.before, r.after)
  }

  /** The revenue of key `k` in a grouping, 0 where the key is missing. */
  function RevenueIn<K(==)>(g: seq<Keyed<K>>, k: K): real
  {
    AmountFor(g, k).revenue
  }

  /** `key in table['Category'].values`. */
  predicate Listed<K(==)>(rows: seq<ChangeRow<K>>, k: K)
  {
    exists i :: 0 <= i < |rows| && rows[i].key == k
  }

  /**
   * The `pd.DataFrame` the table starts from: the first period's keys in
   * its order, with the second period's revenue `reindex`ed onto them.
   */
  function FirstPeriodRows<K(==)>(g1: seq<Keyed<K>>, g2: seq<Keyed<K>>): seq<ChangeRow<K>>
  {
    seq(|g1|, i requires 0 <= i < |g1| => ChangeRow(g1[i].key, g1[i].amount.revenue, RevenueIn(g2, g1[i].key)))
  }

  /** The loop over the second period: a key not yet in the table is appended with 0 before. */
  function AddMissing<K(==)>(rows: seq<ChangeRow<K>>, g2: seq<Keyed<K>>): seq<ChangeRow<K>>
    decreases |g2|
  {
    if g2 == [] then rows
    else
      var r := AddMissing(rows, g2[..|g2| - 1]);
      var x := g2[|g2| - 1];
      if Listed(r, x.key) then r else r + [ChangeRow(x.key, 0.0, x.amount.revenue)]
  }

  /** The table before sorting. */
  function Joined<K(==)>(g1: seq<Keyed<K>>, g2: seq<Keyed<K>>): seq<ChangeRow<K>>
  {
    AddMissing(FirstPeriodRows(g1, g2), g2)
  }

  /**
   * The category and product change tables: the outer join of the two
   * groupings, sorted by 'Change %', highest first.
   */
  method ChangeTable<K(==)>(g1: seq<Keyed<K>>, g2: seq<Keyed<K>>) returns (table: seq<ChangeRow<K>>)
    ensures table == SortBy(Joined(g1, g2), RowPct)
    ensures SortedBy(table, RowPct) && multiset(table) == multiset(Joined(g1, g2))
    ensures DistinctKeys(g1) && DistinctKeys(g2) ==>
      && DistinctBy(table, RowKey)
      && (forall k :: Listed(table, k) <==> HasKey(g1, k) || HasKey(g2, k))
      && (forall i :: 0 <= i < |table| ==>
            table[i].before == RevenueIn(g1, table[i].key) && table[i].after == RevenueIn(g2, table[i].key))
  {
    var rows := FirstPeriodRows(g1, g2);
    for i := 0 to |g2|
      invariant rows == AddMissing(FirstPeriodRows(g1, g2), g2[..i])
    {
      var x := g2[i];
      if !Listed(rows, x.key) {
        rows := rows + [ChangeRow(x.key, 0.0, x.amount.revenue)];
      }
      assert g2[..i + 1][..i] == g2[..i];
    }
    assert g2[..|g2|] == g2;
    table := SortBy(rows, RowPct);
    if DistinctKeys(g1) && DistinctKeys(g2) {
      ChangeTableSpec(g1, g2);
    }
  }

  // ---- what the unsorted table holds ----

  /** The first period's rows list exactly the first period's keys. */
  lemma FirstPeriodKeys<K>(g1: seq<Keyed<K>>, g2: seq<Keyed<K>>, k: K)
    ensures Listed(FirstPeriodRows(g1, g2), k) <==> HasKey(g1, k)
  {
    KeyIndex(g1, k);
    var rows := FirstPeriodRows(g1, g2);
    if HasKey(g1, k) {
      var i :| 0 <= i < |g1| && g1[i].key == k;
      assert rows[i].key == k;
    }
  }

  /** Appending keeps what was listed and lists every key of the second period. */
  lemma {:induction false} AddMissingKeys<K>(rows: seq<ChangeRow<K>>, g2: seq<Keyed<K>>, k: K)
    ensures Listed(AddMissing(rows, g2), k) <==> Listed(rows, k) || exists j :: 0 <= j < |g2| && g2[j].key == k
    decreases |g2|
  {
    if g2 != [] {
      var front := g2[..|g2| - 1];
      var x := g2[|g2| - 1];
      var r := AddMissing(rows, front);
      AddMissingKeys(rows, front, k);
      if !Listed(r, x.key) {
        var added := r + [ChangeRow(x.key, 0.0, x.amount.revenue)];
        if Listed(r, k) {
          var i :| 0 <= i < |r| && r[i].key == k;
          assert added[i].key == k;
        }
        if x.key == k {
          assert added[|r|].key == k;
        }
        if Listed(added, k) && x.key != k {
          var i :| 0 <= i < |added| && added[i].key == k;
          assert r[i].key == k;
        }
      }
      if exists j :: 0 <= j < |front| && front[j].key == k {
        var j :| 0 <= j < |front| && front[j].key == k;
        assert g2[j].key == k;
      }
      if x.key != k && exists j :: 0 <= j < |g2| && g2[j].key == k {
        var j :| 0 <= j < |g2| && g2[j].key == k;
        assert front[j].key == k;
      }
    }
  }

  /** Every key of either period is in the table. */
  lemma JoinedKeys<K>(g1: seq<Keyed<K>>, g2: seq<Keyed<K>>, k: K)
    ensures Listed(Joined(g1, g2), k) <==> HasKey(g1, k) || HasKey(g2, k)
  {
    FirstPeriodKeys(g1, g2, k);
    AddMissingKeys(FirstPeriodRows(g1, g2), g2, k);
    KeyIndex(g2, k);
  }

  /** The first period's rows have distinct keys when the first grouping does. */
  lemma FirstPeriodDistinct<K>(g1: seq<Keyed<K>>, g2: seq<Keyed<K>>)
    requires DistinctKeys(g1)
    ensures DistinctBy(FirstPeriodRows(g1, g2), RowKey)
  {
  }

  /** A key is appended only when it is not yet listed, so no key is listed twice. */
  lemma {:induction false} AddMissingDistinct<K>(rows: seq<ChangeRow<K>>, g2: seq<Keyed<K>>)
    requires DistinctBy(rows, RowKey)
    ensures DistinctBy(AddMissing(rows, g2), RowKey)
    decreases |g2|
  {
    if g2 != [] {
      var front := g2[..|g2| - 1];
      var x := g2[|g2| - 1];
      var r := AddMissing(rows, front);
      AddMissingDistinct(rows, front);
      if !Listed(r, x.key) {
        var added := r + [ChangeRow(x.key, 0.0, x.amount.revenue)];
        forall i, j | 0 <= i < j < |added| ensures RowKey(added[i]) != RowKey(added[j]) {
          assert added[i] == r[i];
          if j < |r| {
            assert added[j] == r[j];
          }
        }
      }
    }
  }

  /** Every key is in the table at most once. */
  lemma JoinedDistinct<K>(g1: seq<Keyed<K>>, g2: seq<Keyed<K>>)
    requires DistinctKeys(g1)
    ensures DistinctBy(Joined(g1, g2), RowKey)
  {
    FirstPeriodDistinct(g1, g2);
    AddMissingDistinct(FirstPeriodRows(g1, g2), g2);
  }

  /** A row holds its key's revenue in each period. */
  predicate RowMatches<K(==)>(r: ChangeRow<K>, g1: seq<Keyed<K>>, g2: seq<Keyed<K>>)
  {
    r.before == RevenueIn(g1, r.key) && r.after == RevenueIn(g2, r.key)
  }

  lemma FirstPeriodValues<K>(g1: seq<Keyed<K>>, g2: seq<Keyed<K>>)
    requires DistinctKeys(g1)
    ensures forall i :: 0 <= i < |g1| ==> RowMatches(FirstPeriodRows(g1, g2)[i], g1, g2)
  {
    forall i | 0 <= i < |g1|
      ensures RowMatches(FirstPeriodRows(g1, g2)[i], g1, g2)
    {
      DistinctAmountFor(g1, i);
    }
  }

  /**
   * The rows appended for the first `n` keys of the second period hold their
   * keys' revenue: 0 before (the key is new) and the second period's amount.
   */
  lemma {:induction false} AddedValues<K>(g1: seq<Keyed<K>>, g2: seq<Keyed<K>>, n: nat)
    requires DistinctKeys(g1) && DistinctKeys(g2) && n <= |g2|
    ensures forall i :: 0 <= i < |AddMissing(FirstPeriodRows(g1, g2), g2[..n])| ==>
      RowMatches(AddMissing(FirstPeriodRows(g1, g2), g2[..n])[i], g1, g2)
    decreases n
  {
    var base := FirstPeriodRows(g1, g2);
    if n == 0 {
      assert g2[..0] == [];
      FirstPeriodValues(g1, g2);
    } else {
      AddedValues(g1, g2, n - 1);
      assert g2[..n][..n - 1] == g2[..n - 1];
      var r := AddMissing(base, g2[..n - 1]);
      var x := g2[n - 1];
      if !Listed(r, x.key) {
        AddMissingKeys(base, g2[..n - 1], x.key);
        FirstPeriodKeys(g1, g2, x.key);
        AbsentKeyIsZero(g1, x.key);
        DistinctAmountFor(g2, n - 1);
        var added := r + [ChangeRow(x.key, 0.0, x.amount.revenue)];
        assert RowMatches(added[|r|], g1, g2);
      }
    }
  }

  /** Every row of the unsorted table holds its key's revenue in each period. */
  lemma JoinedValues<K>(g1: seq<Keyed<K>>, g2: seq<Keyed<K>>)
    requires DistinctKeys(g1) && DistinctKeys(g2)
    ensures forall i :: 0 <= i < |Joined(g1, g2)| ==> RowMatches(Joined(g1, g2)[i], g1, g2)
  {
    AddedValues(g1, g2, |g2|);
    assert g2[..|g2|] == g2;
  }

  // ---- the sorted table ----

  /**
   * The table as shown lists every key of either period exactly once, with
   * its revenue in each period (0 where it did not sell), highest 'Change %'
   * first.
   */
  lemma ChangeTableSpec<K>(g1: seq<Keyed<K>>, g2: seq<Keyed<K>>)
    requires DistinctKeys(g1) && DistinctKeys(g2)
    ensures var t := SortBy(Joined(g1, g2), RowPct);
      && SortedBy(t, RowPct)
      && DistinctBy(t, RowKey)
      && (forall k :: Listed(t, k) <==> HasKey(g1, k) || HasKey(g2, k))
      && (forall i :: 0 <= i < |t| ==> t[i].before == RevenueIn(g1, t[i].key) && t[i].after == RevenueIn(g2, t[i].key))
      && (forall i :: 0 <= i < |t| ==> ChangeAmount(t[i]) == RevenueIn(g2, t[i].key) - RevenueIn(g1, t[i].key))
  {
    var j := Joined(g1, g2);
    var t := SortBy(j, RowPct);
    JoinedDistinct(g1, g2);
    SortKeepsDistinct(j, RowPct, RowKey);
    JoinedValues(g1, g2);
    forall i | 0 <= i < |t|
      ensures RowMatches(t[i], g1, g2)
    {
      assert t[i] in multiset(j);
      var a :| 0 <= a < |j| && j[a] == t[i];
    }
    forall k
      ensures Listed(t, k) <==> HasKey(g1, k) || HasKey(g2, k)
    {
      JoinedKeys(g1, g2, k);
      SameKeysListed(j, t, k);
    }
  }

  /** Two tables holding the same rows list the same keys. */
  lemma SameKeysListed<K>(a: seq<ChangeRow<K>>, b: seq<ChangeRow<K>>, k: K)
    requires multiset(a) == multiset(b)
    ensures Listed(a, k) <==> Listed(b, k)
  {
    if Listed(a, k) {
      var i :| 0 <= i < |a| && a[i].key == k;
      assert a[i] in multiset(b);
      var j :| 0 <= j < |b| && b[j] == a[i];
    }
    if Listed(b, k) {
      var i :| 0 <= i < |b| && b[i].key == k;
      assert b[i] in multiset(a);
      var j :| 0 <= j < |a| && a[j] == b[i];
    }
  }

  // ---- the Change $ column against the header ----

  function Before<K>(r: ChangeRow<K>): real
  {
    r.before
  }

  function After<K>(r: ChangeRow<K>): real
  {
    r.after
  }

  lemma {:induction false} SumOfChanges<K>(rows: seq<ChangeRow<K>>)
    ensures SumBy(rows, ChangeAmount) == SumBy(rows, After) - SumBy(rows, Before)
  {
    if rows != [] {
      SumOfChanges(rows[1..]);
    }
  }

  /** The first-period column of the starting frame adds up to the first period's total. */
  lemma {:induction false} FirstPeriodBefore<K>(g1: seq<Keyed<K>>, g2: seq<Keyed<K>>)
    ensures SumBy(FirstPeriodRows(g1, g2), Before) == Total(g1).revenue
  {
    if g1 != [] {
      assert FirstPeriodRows(g1, g2)[1..] == FirstPeriodRows(g1[1..], g2);
      FirstPeriodBefore(g1[1..], g2);
    }
  }

  /** Rows the loop appends have 0 before, so the first-period column keeps its sum. */
  lemma {:induction false} AddMissingBefore<K>(rows: seq<ChangeRow<K>>, g2: seq<Keyed<K>>)
    ensures SumBy(AddMissing(rows, g2), Before) == SumBy(rows, Before)
    decreases |g2|
  {
    if g2 != [] {
      var front := g2[..|g2| - 1];
      var x := g2[|g2| - 1];
      var r := AddMissing(rows, front);
      AddMissingBefore(rows, front);
      SumByConcat(r, [ChangeRow(x.key, 0.0, x.amount.revenue)], Before);
    }
  }

  /**
   * One more second-period row changes the reindexed column by its revenue
   * when its key is one of the first period's, and not at all otherwise.
   */
  lemma {:induction false} FirstPeriodAfterStep<K>(g1: seq<Keyed<K>>, h: seq<Keyed<K>>, x: Keyed<K>)
    requires DistinctKeys(g1)
    ensures SumBy(FirstPeriodRows(g1, h + [x]), After)
      == SumBy(FirstPeriodRows(g1, h), After) + (if HasKey(g1, x.key) then x.amount.revenue else 0.0)
  {
    if g1 != [] {
      var k := g1[0].key;
      assert FirstPeriodRows(g1, h + [x])[1..] == FirstPeriodRows(g1[1..], h + [x]);
      assert FirstPeriodRows(g1, h)[1..] == FirstPeriodRows(g1[1..], h);
      AmountForAppend(h, x, k);
      FirstPeriodAfterStep(g1[1..], h, x);
      if k == x.key {
        HeadKeyUnique(g1);
      }
    }
  }

  /** The revenue of the second-period rows whose key is in neither the first period nor earlier. */
  function Fresh<K(==)>(g1: seq<Keyed<K>>, h: seq<Keyed<K>>): real
    decreases |h|
  {
    if h == [] then 0.0
    else
      var front := h[..|h| - 1];
      var x := h[|h| - 1];
      Fresh(g1, front) + (if HasKey(g1, x.key) || HasKey(front, x.key) then 0.0 else x.amount.revenue)
  }

  /** The loop adds exactly the fresh revenue to the second-period column. */
  lemma {:induction false} AddMissingAfter<K>(g1: seq<Keyed<K>>, g2: seq<Keyed<K>>, h: seq<Keyed<K>>)
    ensures SumBy(AddMissing(FirstPeriodRows(g1, g2), h), After) == SumBy(FirstPeriodRows(g1, g2), After) + Fresh(g1, h)
    decreases |h|
  {
    if h != [] {
      var base := FirstPeriodRows(g1, g2);
      var front := h[..|h| - 1];
      var x := h[|h| - 1];
      var r := AddMissing(base, front);
      AddMissingAfter(g1, g2, front);
      AddMissingKeys(base, front, x.key);
      FirstPeriodKeys(g1, g2, x.key);
      KeyIndex(front, x.key);
      SumByConcat(r, [ChangeRow(x.key, 0.0, x.amount.revenue)], After);
    }
  }

  /** Matched and fresh second-period revenue together make the second period's total. */
  lemma {:induction false} SecondPeriodSplit<K>(g1: seq<Keyed<K>>, h: seq<Keyed<K>>)
    requires DistinctKeys(g1) && DistinctKeys(h)
    ensures SumBy(FirstPeriodRows(g1, h), After) + Fresh(g1, h) == Total(h).revenue
    decreases |h|
  {
    if h == [] {
      assert FirstPeriodRows(g1, h) == seq(|g1|, i requires 0 <= i < |g1| => ChangeRow(g1[i].key, g1[i].amount.revenue, 0.0));
      ZeroAfter(g1);
    } else {
      var front := h[..|h| - 1];
      var x := h[|h| - 1];
      assert h == front + [x];
      SecondPeriodSplit(g1, front);
      FirstPeriodAfterStep(g1, front, x);
      KeyIndex(front, x.key);
      TotalAppend(front, x);
    }
  }

  lemma {:induction false} ZeroAfter<K>(g1: seq<Keyed<K>>)
    ensures SumBy(seq(|g1|, i requires 0 <= i < |g1| => ChangeRow(g1[i].key, g1[i].amount.revenue, 0.0)), After) == 0.0
  {
    if g1 != [] {
      assert seq(|g1|, i requires 0 <= i < |g1| => ChangeRow(g1[i].key, g1[i].amount.revenue, 0.0))[1..]
        == seq(|g1[1..]|, i requires 0 <= i < |g1[1..]| => ChangeRow(g1[1..][i].key, g1[1..][i].amount.revenue, 0.0));
      ZeroAfter(g1[1..]);
    }
  }

  /**
   * The Change $ column adds up to the difference of the two periods'
   * totals, the revenue change the header shows.
   */
  lemma ChangeColumnAddsUp<K>(g1: seq<Keyed<K>>, g2: seq<Keyed<K>>)
    requires DistinctKeys(g1) && DistinctKeys(g2)
    ensures SumBy(SortBy(Joined(g1, g2), RowPct), ChangeAmount) == Total(g2).revenue - Total(g1).revenue
  {
    var j := Joined(g1, g2);
    SumByPermutation(SortBy(j, RowPct), j, ChangeAmount);
    SumOfChanges(j);
    FirstPeriodBefore(g1, g2);
    AddMissingBefore(FirstPeriodRows(g1, g2), g2);
    AddMissingAfter(g1, g2, g2);
    SecondPeriodSplit(g1, g2);
  }

  /**
   * For tables built from two periods' records grouped by any key, the
   * Change $ column adds up to the header's revenue change.
   */
  lemma TableMatchesHeader<K(!new)>(p1: seq<SaleRecord>, p2: seq<SaleRecord>, keyOf: SaleRecord -> K)
    ensures var g1, g2 := GroupSum(KeyedBy(p1, keyOf)), GroupSum(KeyedBy(p2, keyOf));
      SumBy(SortBy(Joined(g1, g2), RowPct), ChangeAmount) == PeriodTotal(p2).revenue - PeriodTotal(p1).revenue
  {
    var g1, g2 := GroupSum(KeyedBy(p1, keyOf)), GroupSum(KeyedBy(p2, keyOf));
    ChangeColumnAddsUp(g1, g2);
    GroupingAddsUp(p1, keyOf);
    GroupingAddsUp(p2, keyOf);
  }
}
