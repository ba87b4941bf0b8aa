/**
 * How the dashboard buckets a loaded record set in time: the analysis mode
 * chosen from the number of days covered, and the month-relative weeks
 * ("Dec 1-7", "Dec 8-14", ...) of the monthly view.
 */
module Buckets {
  import opened Wrappers
  import opened Text
  import opened Dates
  import opened Ingest
  import opened Aggregation
  import opened Categories

  /** The three layouts of the main view. */
  datatype AnalysisMode = Daily | Weekly | Monthly

  /** The layout for a record set covering `span` days. */
  function ModeFor(span: int): (m: AnalysisMode)
    ensures m == Daily <==> span == 1
    ensures span >= 1 ==> (m == Weekly <==> 2 <= span <= 14) && (m == Monthly <==> span >= 15)
  {
    if span == 1 then Daily
    else if span <= 14 then Weekly
    else Monthly
  }

  /** The dates of the dated records, in order; `min()`/`max()` skip the rest. */
  function RecordDates(records: seq<SaleRecord>): (ds: seq<Date>)
    ensures forall d :: d in ds <==> exists i :: 0 <= i < |records| && records[i].date == Some(d)
    decreases |records|
  {
    if records == [] then []
    else
      var front := RecordDates(records[..|records| - 1]);
      var last := records[|records| - 1];
      assert forall i :: 0 <= i < |records| - 1 ==> records[..|records| - 1][i] == records[i];
      if last.date.Some? then front + [last.date.value] else front
  }

  predicate AllValid(ds: seq<Date>)
  {
    forall i :: 0 <= i < |ds| ==> IsValidDate(ds[i])
  }

  /** The earliest of a non-empty list of dates. */
  function Earliest(ds: seq<Date>): (r: Date)
    requires ds != []
    ensures r in ds
    ensures forall i :: 0 <= i < |ds| ==> NotAfter(r, ds[i])
  {
    if |ds| == 1 then ds[0]
    else
      var rest := Earliest(ds[1..]);
      assert forall i :: 1 <= i < |ds| ==> ds[i] == ds[1..][i - 1];
      if NotAfter(ds[0], rest) then ds[0] else rest
  }

  /** The latest of a non-empty list of dates. */
  function Latest(ds: seq<Date>): (r: Date)
    requires ds != []
    ensures r in ds
    ensures forall i :: 0 <= i < |ds| ==> NotAfter(ds[i], r)
  {
    if |ds| == 1 then ds[0]
    else
      var rest := Latest(ds[1..]);
      assert forall i :: 1 <= i < |ds| ==> ds[i] == ds[1..][i - 1];
      if NotAfter(rest, ds[0]) then ds[0] else rest
  }

  lemma DayNumberMonotone(a: Date, b: Date)
    requires IsValidDate(a) && IsValidDate(b) && NotAfter(a, b)
    ensures DayNumber(a) <= DayNumber(b)
  {
    if a != b {
      DayNumberIncreasing(a, b);
    }
  }

  /** `(max_date - min_date).days + 1`: the number of calendar days covered. */
  function DaySpan(ds: seq<Date>): (span: int)
    requires ds != [] && AllValid(ds)
    ensures span >= 1
    ensures forall i :: 0 <= i < |ds| ==> DayNumber(Earliest(ds)) <= DayNumber(ds[i]) < DayNumber(Earliest(ds)) + span
    ensures exists i :: 0 <= i < |ds| && DayNumber(ds[i]) == DayNumber(Earliest(ds)) + span - 1
  {
    var lo := Earliest(ds);
    var hi := Latest(ds);
    assert IsValidDate(lo) && IsValidDate(hi);
    forall i | 0 <= i < |ds| ensures DayNumber(lo) <= DayNumber(ds[i]) <= DayNumber(hi) {
      DayNumberMonotone(lo, ds[i]);
      DayNumberMonotone(ds[i], hi);
    }
    var k :| 0 <= k < |ds| && ds[k] == hi;
    DayNumber(hi) - DayNumber(lo) + 1
  }

  /** A span of one day means every record falls on the same day, and conversely. */
  lemma DailyExactlyWhenOneDay(ds: seq<Date>)
    requires ds != [] && AllValid(ds)
    ensures ModeFor(DaySpan(ds)) == Daily <==> forall i :: 0 <= i < |ds| ==> ds[i] == ds[0]
  {
    var lo := Earliest(ds);
    if DaySpan(ds) == 1 {
      forall i | 0 <= i < |ds| ensures ds[i] == ds[0] {
        DayNumberInjective(ds[i], lo);
        DayNumberInjective(ds[0], lo);
      }
    } else {
      var hi := Latest(ds);
      assert lo != hi;
      var i :| 0 <= i < |ds| && ds[i] == hi;
    }
  }

  /** `((day - 1) // 7) + 1`: the week of the month, days 1-7 being week 1. */
  function WeekOfMonth(day: int): (w: int)
    ensures 7 * (w - 1) + 1 <= day <= 7 * w
    ensures 1 <= day <= 31 ==> 1 <= w <= 5
  {
    (day - 1) / 7 + 1
  }

  /** `%b`: the English month abbreviation. */
  function MonthAbbrev(m: int): (s: string)
    requires 1 <= m <= 12
    ensures |s| == 3
  {
    ["Jan", "Feb", "Mar", "Apr", "May", "Jun", "Jul", "Aug", "Sep", "Oct", "Nov", "Dec"][m - 1]
  }

  /** The key of the monthly week chart: month name and week number, no year. */
  datatype MonthWeek = MonthWeek(month: int, week: int)

  function MonthWeekOf(d: Date): MonthWeek
  {
    MonthWeek(d.month, WeekOfMonth(d.day))
  }

  /** Dated records keyed by `keyOf` of their date; undated ones have no key and drop out. */
  function DatedKeyed<K>(records: seq<SaleRecord>, keyOf: Date -> K): (s: seq<Keyed<K>>)
    decreases |records|
  {
    if records == [] then []
    else
      var front := DatedKeyed(records[..|records| - 1], keyOf);
      var last := records[|records| - 1];
      if last.date.Some? then front + [Keyed(keyOf(last.date.value), AmountOf(last))] else front
  }

  /** The dates of the records filed under `k`. */
  function DatesUnder<K(==)>(records: seq<SaleRecord>, keyOf: Date -> K, k: K): (ds: seq<Date>)
    ensures forall d :: d in ds <==> exists i :: 0 <= i < |records| && records[i].date == Some(d) && keyOf(d) == k
    decreases |records|
  {
    if records == [] then []
    else
      var front := DatesUnder(records[..|records| - 1], keyOf, k);
      var last := records[|records| - 1];
      assert forall i :: 0 <= i < |records| - 1 ==> records[..|records| - 1][i] == records[i];
      if last.date.Some? && keyOf(last.date.value) == k then front + [last.date.value] else front
  }

  /** Every key of the grouping has at least one date filed under it. */
  lemma {:induction false} KeyHasDates<K(!new)>(records: seq<SaleRecord>, keyOf: Date -> K, k: K)
    requires HasKey(DatedKeyed(records, keyOf), k)
    ensures DatesUnder(records, keyOf, k) != []
    decreases |records|
  {
    var front := records[..|records| - 1];
    var last := records[|records| - 1];
    if last.date.Some? {
      HasKeyAppend(DatedKeyed(front, keyOf), Keyed(keyOf(last.date.value), AmountOf(last)), k);
    }
    if !(last.date.Some? && keyOf(last.date.value) == k) {
      KeyHasDates(front, keyOf, k);
    }
  }

  /** The buckets of a key: one per distinct key, summing revenue and quantity. */
  function Bucketed<K(==,!new)>(records: seq<SaleRecord>, keyOf: Date -> K): seq<Keyed<K>>
  {
    GroupSum(DatedKeyed(records, keyOf))
  }

  /**
   * `groupby(['MonthName', 'WeekNum']).agg(...)`, as written: the key has no
   * year, so the same week of the same month in two years is one bucket.
   */
  function WeeklySummary(records: seq<SaleRecord>): seq<Keyed<MonthWeek>>
  {
    Bucketed(records, MonthWeekOf)
  }

  /** The key the week chart evidently means: the week of a month of a year. */
  datatype YearMonthWeek = YearMonthWeek(year: int, month: int, week: int)

  function YearMonthWeekOf(d: Date): YearMonthWeek
  {
    YearMonthWeek(d.year, d.month, WeekOfMonth(d.day))
  }

  /** The label of one bucket: month, first day and last day, as in "Dec 1-7". */
  function RangeLabel(month: int, first: Date, last: Date): string
    requires 1 <= month <= 12 && first.day >= 0 && last.day >= 0
  {
    MonthAbbrev(month) + " " + Decimal(first.day) + "-" + Decimal(last.day)
  }

  /** Dates as pandas holds them: calendar days. */
  predicate ValidDates(records: seq<SaleRecord>)
  {
    forall i :: 0 <= i < |records| && records[i].date.Some? ==> IsValidDate(records[i].date.value)
  }

  lemma DatesUnderValid<K>(records: seq<SaleRecord>, keyOf: Date -> K, k: K)
    requires ValidDates(records)
    ensures AllValid(DatesUnder(records, keyOf, k))
  {
    var ds := DatesUnder(records, keyOf, k);
    forall j | 0 <= j < |ds| ensures IsValidDate(ds[j]) {
      assert ds[j] in ds;
    }
  }

  /** The label of the bucket `k`, from the earliest and latest date filed under it. */
  function BucketLabel<K(==)>(records: seq<SaleRecord>, keyOf: Date -> K, k: K): string
    requires ValidDates(records) && DatesUnder(records, keyOf, k) != []
  {
    var ds := DatesUnder(records, keyOf, k);
    DatesUnderValid(records, keyOf, k);
    var first := Earliest(ds);
    RangeLabel(first.month, first, Latest(ds))
  }

  /** The `week_labels` loop: one label per bucket, in bucket order. */
  method WeekLabels<K(==,!new)>(records: seq<SaleRecord>, keyOf: Date -> K) returns (labels: seq<string>)
    requires ValidDates(records)
    ensures |labels| == |Bucketed(records, keyOf)|
    ensures forall i :: 0 <= i < |labels| ==>
      DatesUnder(records, keyOf, Bucketed(records, keyOf)[i].key) != [] &&
      labels[i] == BucketLabel(records, keyOf, Bucketed(records, keyOf)[i].key)
  {
    var summary := Bucketed(records, keyOf);
    labels := [];
    for i := 0 to |summary|
      invariant |labels| == i
      invariant forall j :: 0 <= j < i ==>
        DatesUnder(records, keyOf, summary[j].key) != [] &&
        labels[j] == BucketLabel(records, keyOf, summary[j].key)
    {
      assert HasKey(summary, summary[i].key) by {
        KeyIndex(summary, summary[i].key);
      }
      KeyHasDates(records, keyOf, summary[i].key);
      labels := labels + [BucketLabel(records, keyOf, summary[i].key)];
    }
  }

  /** Every date of a month-week bucket lies in that bucket's seven days of its month. */
  lemma BucketDaysInWindow(records: seq<SaleRecord>, b: MonthWeek, d: Date)
    requires d in DatesUnder(records, MonthWeekOf, b)
    ensures d.month == b.month && 7 * (b.week - 1) + 1 <= d.day <= 7 * b.week
  {
  }

  /** Two dated records whose dates share a key make one bucket holding both amounts. */
  lemma TwoRecordsOneBucket<K(!new)>(r1: SaleRecord, r2: SaleRecord, keyOf: Date -> K)
    requires r1.date.Some? && r2.date.Some? && keyOf(r1.date.value) == keyOf(r2.date.value)
    ensures Bucketed([r1, r2], keyOf) == [Keyed(keyOf(r1.date.value), Plus(AmountOf(r1), AmountOf(r2)))]
  {
    var x1 := Keyed(keyOf(r1.date.value), AmountOf(r1));
    var x2 := Keyed(keyOf(r2.date.value), AmountOf(r2));
    DatedPair(r1, r2, keyOf);
    SameKeyPair(x1, x2);
  }

  lemma DatedPair<K>(r1: SaleRecord, r2: SaleRecord, keyOf: Date -> K)
    requires r1.date.Some? && r2.date.Some?
    ensures DatedKeyed([r1, r2], keyOf) == [Keyed(keyOf(r1.date.value), AmountOf(r1)), Keyed(keyOf(r2.date.value), AmountOf(r2))]
  {
    assert [r1, r2][..1] == [r1] && [r1][..0] == [];
    assert DatedKeyed([r1], keyOf) == [Keyed(keyOf(r1.date.value), AmountOf(r1))];
  }

  /** The two dates of such a pair are filed under their common key, in record order. */
  lemma TwoRecordsDates<K>(r1: SaleRecord, r2: SaleRecord, keyOf: Date -> K)
    requires r1.date.Some? && r2.date.Some? && keyOf(r1.date.value) == keyOf(r2.date.value)
    ensures DatesUnder([r1, r2], keyOf, keyOf(r1.date.value)) == [r1.date.value, r2.date.value]
  {
    var k := keyOf(r1.date.value);
    assert [r1][..0] == [];
    assert DatesUnder([r1], keyOf, k) == DatesUnder([], keyOf, k) + [r1.date.value] == [r1.date.value];
    assert [r1, r2][..1] == [r1];
    assert DatesUnder([r1, r2], keyOf, k) == DatesUnder([r1], keyOf, k) + [r2.date.value];
  }

  /**
   * As written, two records from the first week of December in two years
   * share one bucket, and its label runs backwards: "Dec 6-2".
   */
  lemma MergedYearsLabel(r1: SaleRecord, r2: SaleRecord)
    requires r1.date == Some(Date(2023, 12, 6)) && r2.date == Some(Date(2024, 12, 2))
    ensures WeeklySummary([r1, r2]) == [Keyed(MonthWeek(12, 1), Plus(AmountOf(r1), AmountOf(r2)))]
    ensures ValidDates([r1, r2]) && DatesUnder([r1, r2], MonthWeekOf, MonthWeek(12, 1)) != []
    ensures BucketLabel([r1, r2], MonthWeekOf, MonthWeek(12, 1)) == "Dec 6-2"
  {
    var a, b := r1.date.value, r2.date.value;
    assert MonthWeekOf(a) == MonthWeek(12, 1) == MonthWeekOf(b);
    TwoRecordsOneBucket(r1, r2, MonthWeekOf);
    TwoRecordsDates(r1, r2, MonthWeekOf);
    var ds := DatesUnder([r1, r2], MonthWeekOf, MonthWeek(12, 1));
    assert ds == [a, b];
    assert Earliest(ds) == a && Latest(ds) == b by {
      assert ds[1..] == [b];
    }
    assert Decimal(6) == "6" && Decimal(2) == "2";
  }

  /**
   * With the year in the key, every label reads as a range inside its week:
   * the first day is no later than the last, and both lie in the week's
   * seven days.
   */
  lemma LabelIsRange(records: seq<SaleRecord>, b: YearMonthWeek)
    requires ValidDates(records) && DatesUnder(records, YearMonthWeekOf, b) != []
    ensures var ds := DatesUnder(records, YearMonthWeekOf, b);
      Earliest(ds).day <= Latest(ds).day &&
      7 * (b.week - 1) + 1 <= Earliest(ds).day && Latest(ds).day <= 7 * b.week
  {
    var ds := DatesUnder(records, YearMonthWeekOf, b);
    var first := Earliest(ds);
    var last := Latest(ds);
    assert first in ds && last in ds;
    assert YearMonthWeekOf(first) == b && YearMonthWeekOf(last) == b;
    assert ds[0] in ds;
    assert NotAfter(first, ds[0]) && NotAfter(ds[0], last);
  }
}
