/**
 * `extract_date_from_filename`: the leftmost run of eight decimal digits in a
 * file name, read as `YYYYMMDD`; "no date" when there is no such run or when
 * the digits do not name a day that a pandas timestamp can hold.
 */
module FilenameDate {
  import opened Wrappers
  import opened Text
  import opened Dates

  /** Eight decimal digits start at index `i` of `s`. */
  predicate DigitRunAt(s: string, i: nat)
  {
    i + 8 <= |s| && AllDigits(s[i..i + 8])
  }

  /** The search of `re.search(r'(\d{8})', s)` from index `from` onwards. */
  function FirstDigitRunFrom(s: string, from: nat): (r: Option<nat>)
    requires from <= |s|
    ensures r.Some? ==> from <= r.value && DigitRunAt(s, r.value)
    ensures r.Some? ==> forall j :: from <= j < r.value ==> !DigitRunAt(s, j)
    ensures r.None? ==> forall j :: from <= j ==> !DigitRunAt(s, j)
    decreases |s| - from
  {
    if from + 8 > |s| then None
    else if AllDigits(s[from..from + 8]) then Some(from)
    else FirstDigitRunFrom(s, from + 1)
  }

  /** The leftmost eight-digit window of `s`, if any. */
  function FirstDigitRun(s: string): (r: Option<nat>)
    ensures r.Some? ==> DigitRunAt(s, r.value) && forall j :: 0 <= j < r.value ==> !DigitRunAt(s, j)
    ensures r.None? ==> forall j: nat :: !DigitRunAt(s, j)
  {
    FirstDigitRunFrom(s, 0)
  }

  /** `YYYYMMDD` read field by field, before any validity check. */
  function ReadYmd(w: string): (d: Date)
    requires |w| == 8 && AllDigits(w)
    ensures 0 <= d.year <= 9999 && 0 <= d.month <= 99 && 0 <= d.day <= 99
  {
    DigitsBelow(w[..4]);
    DigitsBelow(w[4..6]);
    DigitsBelow(w[6..]);
    Date(DigitsValue(w[..4]), DigitsValue(w[4..6]), DigitsValue(w[6..]))
  }

  lemma {:induction false} DigitsBelow(s: string)
    requires AllDigits(s)
    ensures DigitsValue(s) < Pow10(|s|)
    decreases |s|
  {
    if s != [] {
      DigitsBelow(s[..|s| - 1]);
    }
  }

  function Pow10(k: nat): (r: nat)
    ensures r >= 1
  {
    if k == 0 then 1 else 10 * Pow10(k - 1)
  }

  /** What `pd.to_datetime(w, format='%Y%m%d')` accepts. */
  predicate Acceptable(d: Date)
  {
    IsValidDate(d) && InTimestampRange(d)
  }

  /** `extract_date_from_filename(filename)`. */
  function ExtractDate(filename: string): (r: Option<Date>)
    ensures r.Some? ==> Acceptable(r.value)
    ensures r.Some? <==> exists i: nat :: DigitRunAt(filename, i)
                                          && (forall j :: 0 <= j < i ==> !DigitRunAt(filename, j))
                                          && Acceptable(ReadYmd(filename[i..i + 8]))
    ensures r.Some? ==> exists i: nat :: DigitRunAt(filename, i)
                                         && (forall j :: 0 <= j < i ==> !DigitRunAt(filename, j))
                                         && r.value == ReadYmd(filename[i..i + 8])
  {
    match FirstDigitRun(filename)
    case None => None
    case Some(i) =>
      var d := ReadYmd(filename[i..i + 8]);
      if Acceptable(d) then Some(d) else None
  }

  /** `strftime('%Y%m%d')`: the eight-digit stamp of a date of years 0..9999. */
  function Stamp(d: Date): (w: string)
    requires 0 <= d.year <= 9999 && 0 <= d.month <= 99 && 0 <= d.day <= 99
  {
    ZeroFill(Decimal(d.year), 4) + ZeroFill(Decimal(d.month), 2) + ZeroFill(Decimal(d.day), 2)
  }

  lemma {:induction false} DecimalShort(n: nat, k: nat)
    requires n < Pow10(k) && k >= 1
    ensures |Decimal(n)| <= k
    decreases n
  {
    if n >= 10 {
      assert k >= 2;
      DecimalShort(n / 10, k - 1);
    }
  }

  /** A zero-filled decimal of `n < 10^k` is `k` digits that read back as `n`. */
  lemma Field(n: nat, k: nat)
    requires n < Pow10(k) && k >= 1
    ensures |ZeroFill(Decimal(n), k)| == k
    ensures AllDigits(ZeroFill(Decimal(n), k)) && DigitsValue(ZeroFill(Decimal(n), k)) == n
  {
    DecimalShort(n, k);
    DecimalRoundTrip(n);
    var s := Decimal(n);
    if |s| < k {
      PaddedValue(k - |s|, s);
    }
  }

  /** Eight digits split as four, two and two read back field by field. */
  lemma ReadFields(a: string, b: string, c: string)
    requires |a| == 4 && |b| == 2 && |c| == 2 && AllDigits(a) && AllDigits(b) && AllDigits(c)
    ensures AllDigits(a + b + c)
    ensures ReadYmd(a + b + c) == Date(DigitsValue(a), DigitsValue(b), DigitsValue(c))
  {
    var w := a + b + c;
    assert w[..4] == a;
    assert w[4..6] == b;
    assert w[6..] == c;
  }

  /** The stamp is eight digits and reads back as the same date. */
  lemma StampRoundTrip(d: Date)
    requires 0 <= d.year <= 9999 && 0 <= d.month <= 99 && 0 <= d.day <= 99
    ensures |Stamp(d)| == 8 && AllDigits(Stamp(d)) && ReadYmd(Stamp(d)) == d
  {
    var a, b, c := ZeroFill(Decimal(d.year), 4), ZeroFill(Decimal(d.month), 2), ZeroFill(Decimal(d.day), 2);
    assert Pow10(2) == 100 && Pow10(4) == 10000 by {
      assert Pow10(3) == 1000;
    }
    Field(d.year, 4);
    Field(d.month, 2);
    Field(d.day, 2);
    ReadFields(a, b, c);
    assert Stamp(d) == a + b + c;
  }

  /** Behind a digit-free prefix, an eight-digit window is the one that is read. */
  lemma ExtractWindow(prefix: string, w: string, suffix: string)
    requires |w| == 8 && AllDigits(w)
    requires forall k :: 0 <= k < |prefix| ==> !IsDigit(prefix[k])
    ensures ExtractDate(prefix + w + suffix) == if Acceptable(ReadYmd(w)) then Some(ReadYmd(w)) else None
  {
    var s := prefix + w + suffix;
    var p := |prefix|;
    assert s[p..p + 8] == w;
    assert DigitRunAt(s, p);
    forall j | 0 <= j < p
      ensures !DigitRunAt(s, j)
    {
      if j + 8 <= |s| {
        assert s[j..j + 8][0] == prefix[j];
      }
    }
    assert FirstDigitRun(s) == Some(p);
  }

  /**
   * A file name made of a digit-free prefix, the stamp of an acceptable date
   * and any suffix yields that date.
   */
  lemma ExtractStamped(prefix: string, d: Date, suffix: string)
    requires Acceptable(d)
    requires forall k :: 0 <= k < |prefix| ==> !IsDigit(prefix[k])
    ensures ExtractDate(prefix + Stamp(d) + suffix) == Some(d)
  {
    StampRoundTrip(d);
    ExtractWindow(prefix, Stamp(d), suffix);
  }

  /** A daily export named `sales_20240601.xlsx` carries 1 June 2024. */
  lemma SalesExportName(name: string)
    requires name == "sales_20240601.xlsx"
    ensures ExtractDate(name) == Some(Date(2024, 6, 1))
  {
    var w := name[6..14];
    assert name == "sales_" + w + name[14..];
    JuneStamp(w);
    ExtractWindow("sales_", w, name[14..]);
  }

  lemma JuneStamp(w: string)
    requires w == "20240601"
    ensures |w| == 8 && AllDigits(w) && ReadYmd(w) == Date(2024, 6, 1) && Acceptable(ReadYmd(w))
  {
    assert DigitsValue("20") == 20;
    assert DigitsValue("2024") == 2024 by {
      assert "2024"[..3] == "202" && "202"[..2] == "20";
    }
    assert w[..4] == "2024" && w[4..6] == "06" && w[6..] == "01";
    assert AllDigits(w);
    assert DigitsValue("06") == 6 && DigitsValue("01") == 1 by {
      assert "06"[..1] == "0" && "01"[..1] == "0" && DigitsValue("0") == 0;
    }
    assert DigitsValue(w[..4]) == 2024 && DigitsValue(w[4..6]) == 6 && DigitsValue(w[6..]) == 1;
    assert Acceptable(ReadYmd(w)) by {
      assert ReadYmd(w) == Date(2024, 6, 1);
    }
  }

  /** Eight digits that are not a calendar day give no date. */
  lemma NotACalendarDay()
    ensures ExtractDate("99999999") == None
  {
    assert DigitRunAt("99999999", 0);
    assert ReadYmd("99999999").month == 99;
  }
}
