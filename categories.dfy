/**
 * `get_bakery_category`: the product taxonomy and the ordered keyword rules
 * that assign a product label to one category. The first rule whose marker
 * occurs in the upper-cased, stripped label decides.
 */
module Categories {
  import opened Text

  datatype Category =
    | Ignore
    | BakeAtHome
    | WeekendSpecial
    | XLLoaves
    | StandardLoaves
    | Pastries
    | FMT
    | RetailItems
    | BunsAndRolls
    | Other

  const CategoryLabels: seq<string> := [
    "Ignore", "Bake at Home", "Weekend Special", "XL Loaves", "Standard Loaves",
    "Pastries", "FMT", "Retail Items", "Buns & Rolls", "Other"]

  /** The label string the dashboard shows for a category. */
  function Label(c: Category): (s: string)
    ensures s in CategoryLabels
  {
    match c
    case Ignore => "Ignore"
    case BakeAtHome => "Bake at Home"
    case WeekendSpecial => "Weekend Special"
    case XLLoaves => "XL Loaves"
    case StandardLoaves => "Standard Loaves"
    case Pastries => "Pastries"
    case FMT => "FMT"
    case RetailItems => "Retail Items"
    case BunsAndRolls => "Buns & Rolls"
    case Other => "Other"
  }

  /** Different categories are shown under different labels. */
  lemma LabelsDistinct(a: Category, b: Category)
    requires a != b
    ensures Label(a) != Label(b)
  {
    assert Label(a)[..|Label(a)|] == Label(a);
  }

  const BakeAtHomeMarkers: seq<string> := ["BAKE AT HOME", "BAH", "S/ROLL", "CHEESY VEG", "SHARE PIE"]
  const WeekendMarkers: seq<string> := ["STOLLEN", "SALT & PEPPER BAGUETTE", "SALT AND PEPPER BAGUETTE"]
  const LoafMarkers: seq<string> := ["SOURDOUGH", "BATARD", "BAGUETTE", "S/DOUGH"]
  const PastryMarkers: seq<string> := ["DANISH", "CROISSANT", "SCROLL", "PASTRY", "ESCARGOT"]
  const FmtMarkers: seq<string> := ["FMT", "GINGER SNAP", "TART"]
  const RetailMarkers: seq<string> :=
    ["COOKIE", "GRANOLA", "COFFEE", "REDBRICK", "HONEY", "BEYOND BREAD", "BAKERS OVEN", "B&B"]
  const BunMarkers: seq<string> := ["BUN", "ROLL"]

  /** Some marker of `markers` occurs in `key`. */
  predicate ContainsAny(key: string, markers: seq<string>)
  {
    exists i :: 0 <= i < |markers| && Contains(key, markers[i])
  }

  /** `str(item).upper().strip()`. */
  function Key(item: string): (k: string)
    ensures IsTrimmed(k)
  {
    Trim(Upper(item))
  }

  /** The texts that stand for "no product": empty, pandas' `nan`, and `blank`. */
  predicate IsPlaceholder(key: string)
  {
    key == [] || key == "NAN" || key == "BLANK"
  }

  /** `get_bakery_category(item)`: the rules applied to the normalised key. */
  function Categorize(item: string): Category
  {
    CategorizeKey(Key(item))
  }

  /** The rule chain of `get_bakery_category`, on an already normalised key. */
  function CategorizeKey(k: string): (c: Category)
    ensures c == Ignore <==> IsPlaceholder(k)
  {
    if IsPlaceholder(k) then Ignore
    else if ContainsAny(k, BakeAtHomeMarkers) then BakeAtHome
    else if ContainsAny(k, WeekendMarkers) then WeekendSpecial
    else if ContainsAny(k, LoafMarkers) then (if Contains(k, "XL") then XLLoaves else StandardLoaves)
    else if ContainsAny(k, PastryMarkers) then Pastries
    else if ContainsAny(k, FmtMarkers) then FMT
    else if ContainsAny(k, RetailMarkers) then RetailItems
    else if ContainsAny(k, BunMarkers) then BunsAndRolls
    else Other
  }

  /**
   * The same taxonomy as an explicit rule table: a rule fires when one of
   * `anyOf` and every one of `allOf` occur in the key.
   */
  datatype Rule = Rule(anyOf: seq<string>, allOf: seq<string>, category: Category)

  predicate Fires(rule: Rule, key: string)
  {
    ContainsAny(key, rule.anyOf) && forall i :: 0 <= i < |rule.allOf| ==> Contains(key, rule.allOf[i])
  }

  /** The category of the first rule that fires, or `fallback`. */
  function FirstMatch(key: string, rules: seq<Rule>, fallback: Category): (c: Category)
    ensures c == fallback || exists i :: 0 <= i < |rules| && Fires(rules[i], key) && c == rules[i].category
    ensures forall i :: (0 <= i < |rules| && Fires(rules[i], key) && forall j :: 0 <= j < i ==> !Fires(rules[j], key))
                        ==> c == rules[i].category
    ensures (forall i :: 0 <= i < |rules| ==> !Fires(rules[i], key)) ==> c == fallback
  {
    if rules == [] then fallback
    else if Fires(rules[0], key) then rules[0].category
    else
      var c := FirstMatch(key, rules[1..], fallback);
      assert forall i :: 1 <= i < |rules| ==> rules[i] == rules[1..][i - 1];
      c
  }

  const Placeholders: seq<string> := ["", "NAN", "BLANK"]

  /** Rule table for the non-placeholder keys, in the order the source tries them. */
  const RuleTable: seq<Rule> := [
    Rule(BakeAtHomeMarkers, [], BakeAtHome),
    Rule(WeekendMarkers, [], WeekendSpecial),
    Rule(LoafMarkers, ["XL"], XLLoaves),
    Rule(LoafMarkers, [], StandardLoaves),
    Rule(PastryMarkers, [], Pastries),
    Rule(FmtMarkers, [], FMT),
    Rule(RetailMarkers, [], RetailItems),
    Rule(BunMarkers, [], BunsAndRolls)]

  /** What it takes for each entry of the rule table to fire. */
  lemma RuleTableFires(k: string)
    ensures Fires(RuleTable[0], k) <==> ContainsAny(k, BakeAtHomeMarkers)
    ensures Fires(RuleTable[1], k) <==> ContainsAny(k, WeekendMarkers)
    ensures Fires(RuleTable[2], k) <==> ContainsAny(k, LoafMarkers) && Contains(k, "XL")
    ensures Fires(RuleTable[3], k) <==> ContainsAny(k, LoafMarkers)
    ensures Fires(RuleTable[4], k) <==> ContainsAny(k, PastryMarkers)
    ensures Fires(RuleTable[5], k) <==> ContainsAny(k, FmtMarkers)
    ensures Fires(RuleTable[6], k) <==> ContainsAny(k, RetailMarkers)
    ensures Fires(RuleTable[7], k) <==> ContainsAny(k, BunMarkers)
  {
    var xl := RuleTable[2].allOf;
    assert |xl| == 1 && xl[0] == "XL";
    assert (forall i :: 0 <= i < |xl| ==> Contains(k, xl[i])) <==> Contains(k, xl[0]);
  }

  /** The if-chain of the source is exactly the rule table read top to bottom. */
  lemma CategorizeFollowsRuleTable(k: string)
    requires !IsPlaceholder(k)
    ensures CategorizeKey(k) == FirstMatch(k, RuleTable, Other)
  {
    var t := RuleTable;
    RuleTableFires(k);
    var i := FirstFiring(k, t);
    if i < |t| {
      assert FirstMatch(k, t, Other) == t[i].category;
    }
  }

  /** The index of the first rule of `rules` that fires on `key`, or `|rules|`. */
  function FirstFiring(key: string, rules: seq<Rule>): (i: nat)
    ensures i <= |rules|
    ensures i < |rules| ==> Fires(rules[i], key)
    ensures forall j :: 0 <= j < i ==> !Fires(rules[j], key)
  {
    if rules == [] || Fires(rules[0], key) then 0
    else
      var i := FirstFiring(key, rules[1..]);
      assert forall j :: 1 <= j < |rules| ==> rules[j] == rules[1..][j - 1];
      i + 1
  }

  /** No placeholder key holds a bake-at-home marker. */
  lemma PlaceholdersHoldNoBakeAtHomeMarker(key: string)
    requires IsPlaceholder(key)
    ensures !ContainsAny(key, BakeAtHomeMarkers)
  {
    var m := BakeAtHomeMarkers;
    MissingChar(key, m[0], 3);
    MissingChar(key, m[1], 2);
    MissingChar(key, m[2], 1);
    MissingChar(key, m[3], 1);
    MissingChar(key, m[4], 1);
  }

  /**
   * Rule order: a label holding any bake-at-home marker is "Bake at Home",
   * whatever later markers (ESCARGOT, DANISH, ...) it also holds.
   */
  lemma BakeAtHomeWins(item: string)
    requires ContainsAny(Key(item), BakeAtHomeMarkers)
    ensures Categorize(item) == BakeAtHome
  {
    if IsPlaceholder(Key(item)) {
      PlaceholdersHoldNoBakeAtHomeMarker(Key(item));
    }
  }

  /** A label that reaches the loaf rule is an XL loaf exactly when it holds "XL". */
  lemma LoafSplit(item: string)
    requires !IsPlaceholder(Key(item))
    requires !ContainsAny(Key(item), BakeAtHomeMarkers) && !ContainsAny(Key(item), WeekendMarkers)
    requires ContainsAny(Key(item), LoafMarkers)
    ensures Categorize(item) in {XLLoaves, StandardLoaves}
    ensures Categorize(item) == XLLoaves <==> Contains(Key(item), "XL")
  {
  }

  /** Categorising does not depend on letter case. */
  lemma CaseInsensitive(item: string)
    ensures Categorize(Upper(item)) == Categorize(item)
  {
    UpperIdempotent(item);
  }

  /** Bake-at-home escargot is caught by the first rule. */
  lemma BakeAtHomeEscargot(item: string)
    requires item == "BAH Escargot"
    ensures Categorize(item) == BakeAtHome
  {
    assert Upper(item) == "BAH ESCARGOT";
    TrimOfTrimmed(Upper(item));
    BahEscargotKey(Key(item));
  }

  lemma BahEscargotKey(k: string)
    requires k == "BAH ESCARGOT"
    ensures CategorizeKey(k) == BakeAtHome
  {
    StartsWithBah(k);
  }

  /** A key that starts with the "BAH" marker is bake-at-home. */
  lemma StartsWithBah(k: string)
    requires |k| >= 3 && k[..3] == "BAH"
    ensures CategorizeKey(k) == BakeAtHome
  {
    FoundAt(k, BakeAtHomeMarkers[1], 0);
    if IsPlaceholder(k) {
      PlaceholdersHoldNoBakeAtHomeMarker(k);
    }
  }

  /** Plain escargot passes the first three rules and is a pastry. */
  lemma PlainEscargot(item: string)
    requires item == "Escargot"
    ensures Categorize(item) == Pastries
  {
    assert Upper(item) == "ESCARGOT";
    TrimOfTrimmed(Upper(item));
    EscargotKey(Key(item));
  }

  lemma EscargotKey(k: string)
    requires k == "ESCARGOT"
    ensures CategorizeKey(k) == Pastries
  {
    EscargotSkipsEarlierRules(k);
    FoundAt(k, PastryMarkers[4], 0);
    PastryRule(k);
  }

  lemma EscargotSkipsEarlierRules(k: string)
    requires k == "ESCARGOT"
    ensures !ContainsAny(k, BakeAtHomeMarkers) && !ContainsAny(k, WeekendMarkers) && !ContainsAny(k, LoafMarkers)
  {
    NoneOf(k, BakeAtHomeMarkers, [0, 0, 1, 1, 1]);
    NoneOf(k, WeekendMarkers, [3, 2, 2]);
    NoneOf(k, LoafMarkers, [2, 0, 0, 1]);
  }

  /** A key that no earlier rule claims and that holds a pastry marker is a pastry. */
  lemma PastryRule(k: string)
    requires !IsPlaceholder(k) && ContainsAny(k, PastryMarkers)
    requires !ContainsAny(k, BakeAtHomeMarkers) && !ContainsAny(k, WeekendMarkers) && !ContainsAny(k, LoafMarkers)
    ensures CategorizeKey(k) == Pastries
  {
  }

  /** Rules a marker list out of `key` by one missing character per marker. */
  lemma NoneOf(key: string, markers: seq<string>, at: seq<nat>)
    requires |at| == |markers|
    requires forall i :: 0 <= i < |markers| ==> at[i] < |markers[i]| && markers[i][at[i]] !in key
    ensures !ContainsAny(key, markers)
  {
    forall i | 0 <= i < |markers|
      ensures !Contains(key, markers[i])
    {
      MissingChar(key, markers[i], at[i]);
    }
  }
}
