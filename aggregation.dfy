/**
 * The `groupby(key).agg({'Revenue': 'sum', 'Quantity': 'sum'})` views, the
 * average-price guard and the category/product quick filters.
 */
module Aggregation {
  import opened Wrappers
  import opened Categories
  import opened Ingest
  import opened Seqs

  /** Summed revenue and quantity. */
  datatype Amount = Amount(revenue: real, quantity: real)

  const Zero := Amount(0.0, 0.0)

  function Plus(a: Amount, b: Amount): Amount
  {
    Amount(a.revenue + b.revenue, a.quantity + b.quantity)
  }

  /** One row of a grouping: a key and its amount. */
  datatype Keyed<K> = Keyed(key: K, amount: Amount)

  /** The amount of one record. */
  function AmountOf(r: SaleRecord): Amount
  {
    Amount(r.revenue, r.quantity)
  }

  /** The sum of all amounts. */
  function Total<K>(s: seq<Keyed<K>>): Amount
  {
    if s == [] then Zero else Plus(s[0].amount, Total(s[1..]))
  }

  /** The sum of the amounts filed under key `k`. */
  function AmountFor<K(==)>(s: seq<Keyed<K>>, k: K): Amount
  {
    if s == [] then Zero
    else Plus(if s[0].key == k then s[0].amount else Zero, AmountFor(s[1..], k))
  }

  /** Some row of `s` is filed under `k`. */
  predicate HasKey<K(==)>(s: seq<Keyed<K>>, k: K)
  {
    s != [] && (s[0].key == k || HasKey(s[1..], k))
  }

  predicate DistinctKeys<K(==)>(s: seq<Keyed<K>>)
  {
    forall i, j :: 0 <= i < j < |s| ==> s[i].key != s[j].key
  }

  lemma {:induction false} KeyIndex<K>(s: seq<Keyed<K>>, k: K)
    ensures HasKey(s, k) <==> exists i :: 0 <= i < |s| && s[i].key == k
  {
    if s != [] {
      KeyIndex(s[1..], k);
      if exists i :: 0 <= i < |s| && s[i].key == k {
        var i :| 0 <= i < |s| && s[i].key == k;
        if i > 0 {
          assert s[1..][i - 1].key == k;
        }
      }
      if HasKey(s[1..], k) {
        var i :| 0 <= i < |s[1..]| && s[1..][i].key == k;
        assert s[i + 1].key == k;
      }
    }
  }

  lemma {:induction false} HasKeyAppend<K>(s: seq<Keyed<K>>, x: Keyed<K>, k: K)
    ensures HasKey(s + [x], k) <==> HasKey(s, k) || x.key == k
  {
    if s == [] {
      assert [x][1..] == [];
    } else {
      assert (s + [x])[1..] == s[1..] + [x];
      HasKeyAppend(s[1..], x, k);
    }
  }

  lemma {:induction false} TotalAppend<K>(s: seq<Keyed<K>>, x: Keyed<K>)
    ensures Total(s + [x]) == Plus(Total(s), x.amount)
  {
    if s != [] {
      assert (s + [x])[1..] == s[1..] + [x];
      TotalAppend(s[1..], x);
    }
  }

  lemma {:induction false} AmountForAppend<K>(s: seq<Keyed<K>>, x: Keyed<K>, k: K)
    ensures AmountFor(s + [x], k) == Plus(AmountFor(s, k), if x.key == k then x.amount else Zero)
  {
    if s != [] {
      assert (s + [x])[1..] == s[1..] + [x];
      AmountForAppend(s[1..], x, k);
    }
  }

  /** A key that does not occur has nothing filed under it. */
  lemma {:induction false} AbsentKeyIsZero<K>(s: seq<Keyed<K>>, k: K)
    requires !HasKey(s, k)
    ensures AmountFor(s, k) == Zero
  {
    if s != [] {
      AbsentKeyIsZero(s[1..], k);
    }
  }

  /** The first key of a sequence with distinct keys does not occur again. */
  lemma HeadKeyUnique<K>(s: seq<Keyed<K>>)
    requires s != [] && DistinctKeys(s)
    ensures !HasKey(s[1..], s[0].key)
  {
    KeyIndex(s[1..], s[0].key);
    assert forall i :: 0 <= i < |s[1..]| ==> s[1..][i].key == s[i + 1].key;
  }

  /** With distinct keys, the amount filed under a key is that key's row. */
  lemma {:induction false} DistinctAmountFor<K>(s: seq<Keyed<K>>, i: nat)
    requires DistinctKeys(s) && i < |s|
    ensures AmountFor(s, s[i].key) == s[i].amount
  {
    if i == 0 {
      HeadKeyUnique(s);
      AbsentKeyIsZero(s[1..], s[0].key);
    } else {
      var t := s[1..];
      assert DistinctKeys(t) by {
        forall a, b | 0 <= a < b < |t| ensures t[a].key != t[b].key {
          assert t[a] == s[a + 1] && t[b] == s[b + 1];
        }
      }
      DistinctAmountFor(t, i - 1);
      assert t[i - 1] == s[i];
      assert s[0].key != s[i].key;
      assert AmountFor(s, s[i].key) == Plus(Zero, AmountFor(t, s[i].key));
    }
  }

  /** Adds one row into a grouping: into its key's row, or as a new last row. */
  function AddTo<K(==,!new)>(groups: seq<Keyed<K>>, x: Keyed<K>): (r: seq<Keyed<K>>)
    requires DistinctKeys(groups)
    ensures DistinctKeys(r)
    ensures forall k :: HasKey(r, k) <==> HasKey(groups, k) || k == x.key
    ensures forall k :: AmountFor(r, k) == Plus(AmountFor(groups, k), if x.key == k then x.amount else Zero)
    ensures Total(r) == Plus(Total(groups), x.amount)
  {
    if groups == [] then
      assert [x][1..] == [];
      [x]
    else if groups[0].key == x.key then
      var r := [Keyed(x.key, Plus(groups[0].amount, x.amount))] + groups[1..];
      assert r[1..] == groups[1..];
      assert forall i :: 0 <= i < |r| ==> r[i].key == groups[i].key;
      r
    else
      var rest := AddTo(groups[1..], x);
      var r := [groups[0]] + rest;
      assert r[1..] == rest;
      assert DistinctKeys(r) by {
        HeadKeyUnique(groups);
        forall j | 0 < j < |r| ensures r[j].key != r[0].key {
          KeyIndex(rest, r[j].key);
        }
      }
      r
  }

  /**
   * `groupby(key)[...].sum()`: one row per distinct key, in order of first
   * appearance, holding the sum of that key's amounts.
   */
  function GroupSum<K(==,!new)>(rows: seq<Keyed<K>>): (groups: seq<Keyed<K>>)
    ensures DistinctKeys(groups)
    ensures forall k :: HasKey(groups, k) <==> HasKey(rows, k)
    ensures forall k :: AmountFor(groups, k) == AmountFor(rows, k)
    decreases |rows|
  {
    if rows == [] then []
    else
      var front := rows[..|rows| - 1];
      var x := rows[|rows| - 1];
      var g := AddTo(GroupSum(front), x);
      assert rows == front + [x];
      assert forall k :: AmountFor(rows, k) == Plus(AmountFor(front, k), if x.key == k then x.amount else Zero) by {
        forall k { AmountForAppend(front, x, k); }
      }
      assert forall k :: HasKey(rows, k) <==> HasKey(front, k) || k == x.key by {
        forall k { HasKeyAppend(front, x, k); }
      }
      g
  }

  /** Each group row holds exactly the sum of its key's amounts. */
  lemma GroupRowIsSum<K(!new)>(rows: seq<Keyed<K>>, i: nat)
    requires i < |GroupSum(rows)|
    ensures GroupSum(rows)[i].amount == AmountFor(rows, GroupSum(rows)[i].key)
  {
    DistinctAmountFor(GroupSum(rows), i);
  }

  /** Grouping conserves the totals: revenue and quantity are neither lost nor counted twice. */
  lemma {:induction false} GroupSumConserves<K(!new)>(rows: seq<Keyed<K>>)
    ensures Total(GroupSum(rows)) == Total(rows)
    decreases |rows|
  {
    if rows != [] {
      var front := rows[..|rows| - 1];
      var x := rows[|rows| - 1];
      assert rows == front + [x];
      assert GroupSum(rows) == AddTo(GroupSum(front), x);
      GroupSumConserves(front);
      TotalAppend(front, x);
    }
  }

  /** Two rows with the same key group into one row holding their sum. */
  lemma SameKeyPair<K(!new)>(x1: Keyed<K>, x2: Keyed<K>)
    requires x1.key == x2.key
    ensures GroupSum([x1, x2]) == [Keyed(x1.key, Plus(x1.amount, x2.amount))]
  {
    assert GroupSum([x1]) == [x1] by {
      assert [x1][..0] == [];
    }
    assert GroupSum([x1, x2]) == AddTo([x1], x2) by {
      assert [x1, x2][..1] == [x1];
    }
    assert [x1][1..] == [];
  }

  /** The rows of a view keyed by `keyOf`. */
  function KeyedBy<K>(records: seq<SaleRecord>, keyOf: SaleRecord -> K): (s: seq<Keyed<K>>)
    ensures |s| == |records|
    ensures forall i :: 0 <= i < |records| ==> s[i] == Keyed(keyOf(records[i]), AmountOf(records[i]))
  {
    seq(|records|, i requires 0 <= i < |records| => Keyed(keyOf(records[i]), AmountOf(records[i])))
  }

  /** `groupby('Hour')`, `groupby('Description')` and `groupby('Category')`. */
  function ByHour(records: seq<SaleRecord>): seq<Keyed<int>>
  {
    GroupSum(KeyedBy(records, (r: SaleRecord) => r.hour))
  }

  function ByProduct(records: seq<SaleRecord>): seq<Keyed<string>>
  {
    GroupSum(KeyedBy(records, (r: SaleRecord) => r.product))
  }

  function ByCategory(records: seq<SaleRecord>): seq<Keyed<Category>>
  {
    GroupSum(KeyedBy(records, (r: SaleRecord) => r.category))
  }

  /** `Revenue.sum()` and `Quantity.sum()` over a record set. */
  function PeriodTotal(records: seq<SaleRecord>): Amount
  {
    if records == [] then Zero else Plus(AmountOf(records[0]), PeriodTotal(records[1..]))
  }

  /** Any grouping of a record set adds up to the record set's totals. */
  lemma {:induction false} GroupingAddsUp<K(!new)>(records: seq<SaleRecord>, keyOf: SaleRecord -> K)
    ensures Total(GroupSum(KeyedBy(records, keyOf))) == PeriodTotal(records)
  {
    GroupSumConserves(KeyedBy(records, keyOf));
    KeyedTotal(records, keyOf);
  }

  lemma {:induction false} KeyedTotal<K>(records: seq<SaleRecord>, keyOf: SaleRecord -> K)
    ensures Total(KeyedBy(records, keyOf)) == PeriodTotal(records)
  {
    if records != [] {
      KeyedTotal(records[1..], keyOf);
      assert KeyedBy(records, keyOf)[1..] == KeyedBy(records[1..], keyOf);
    }
  }

  /** The average price: revenue per unit, and 0 when no units were sold. */
  function AveragePrice(a: Amount): (p: real)
    ensures a.quantity > 0.0 ==> p * a.quantity == a.revenue
    ensures a.quantity <= 0.0 ==> p == 0.0
    ensures a.quantity > 0.0 && a.revenue >= 0.0 ==> p >= 0.0
  {
    if a.quantity > 0.0 then a.revenue / a.quantity else 0.0
  }

  /** The quick filters; `None` stands for "All Categories" / "All Products". */
  function CategoryIs(category: Option<Category>): SaleRecord -> bool
  {
    (r: SaleRecord) => category.None? || r.category == category.value
  }

  function ProductIs(product: Option<string>): SaleRecord -> bool
  {
    (r: SaleRecord) => product.None? || r.product == product.value
  }

  function ApplyFilters(records: seq<SaleRecord>, category: Option<Category>, product: Option<string>): seq<SaleRecord>
  {
    Filter(Filter(records, CategoryIs(category)), ProductIs(product))
  }

  /** The filters keep exactly the selected records. */
  lemma ApplyFiltersSelects(records: seq<SaleRecord>, category: Option<Category>, product: Option<string>)
    ensures forall r :: r in ApplyFilters(records, category, product) <==>
      r in records && (category.None? || r.category == category.value) && (product.None? || r.product == product.value)
  {
    FilterMembership(records, CategoryIs(category));
    FilterMembership(Filter(records, CategoryIs(category)), ProductIs(product));
  }

  /** The filters keep the selected records in their original order. */
  lemma ApplyFiltersKeepsOrder(records: seq<SaleRecord>, category: Option<Category>, product: Option<string>)
    ensures IsSubsequence(ApplyFilters(records, category, product), records)
  {
    var a := Filter(records, CategoryIs(category));
    FilterIsSubsequence(records, CategoryIs(category));
    FilterIsSubsequence(a, ProductIs(product));
    SubsequenceTransitive(Filter(a, ProductIs(product)), a, records);
  }

  /** With both filters on "All", nothing is dropped. */
  lemma NoFilterKeepsAll(records: seq<SaleRecord>)
    ensures ApplyFilters(records, None, None) == records
  {
    FilterKeepsAll(records, CategoryIs(None));
    FilterKeepsAll(records, ProductIs(None));
  }
}
