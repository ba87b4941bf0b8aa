/**
 * `clean_product_name`: strip the label, drop one leading brand marker
 * "TMB " (any letter case), and strip again.
 */
module Names {
  import opened Text

  const BrandPrefix := "TMB "

  /** `name.upper().startswith('TMB ')`. */
  predicate HasBrandPrefix(t: string)
  {
    |t| >= 4 && Upper(t[..4]) == BrandPrefix
  }

  /** `clean_product_name(name)`. */
  function CleanProductName(name: string): (r: string)
    ensures IsTrimmed(r)
    ensures !HasBrandPrefix(Trim(name)) ==> r == Trim(name)
    ensures HasBrandPrefix(Trim(name)) ==> r == Trim(Trim(name)[4..])
    ensures |r| <= |Trim(name)|
  {
    var t := Trim(name);
    var u := if HasBrandPrefix(t) then t[4..] else t;
    TrimOfTrimmed(t);
    Trim(u)
  }

  /**
   * Only one brand marker is removed per call, so cleaning is not idempotent:
   * a label with two markers, such as "TMB TMB Loaf", cleans to "TMB Loaf",
   * which cleans again to "Loaf".
   */
  lemma NotIdempotent(rest: string)
    requires rest != [] && IsTrimmed(rest)
    ensures CleanProductName(BrandPrefix + BrandPrefix + rest) == BrandPrefix + rest
    ensures CleanProductName(CleanProductName(BrandPrefix + BrandPrefix + rest)) == rest
  {
    var once := BrandPrefix + rest;
    assert IsTrimmed(once) by {
      assert once[0] == 'T' && once[|once| - 1] == rest[|rest| - 1];
    }
    assert BrandPrefix + BrandPrefix + rest == BrandPrefix + once;
    OneBrandPrefix(BrandPrefix + once, once);
    OneBrandPrefix(once, rest);
  }

  /** A trimmed label "TMB " + rest, rest trimmed and non-empty, cleans to rest. */
  lemma OneBrandPrefix(name: string, rest: string)
    requires name == BrandPrefix + rest && rest != [] && IsTrimmed(rest)
    ensures CleanProductName(name) == rest
  {
    assert IsTrimmed(name) by {
      assert name[0] == 'T' && name[|name| - 1] == rest[|rest| - 1];
    }
    assert HasBrandPrefix(name) by {
      assert name[..4] == BrandPrefix;
    }
    StripsMarker(name, rest);
  }

  /** Removing the marker from a trimmed, branded name leaves the trimmed rest. */
  lemma StripsMarker(name: string, rest: string)
    requires |name| >= 4 && name[4..] == rest && IsTrimmed(rest)
    requires IsTrimmed(name) && HasBrandPrefix(name)
    ensures CleanProductName(name) == rest
  {
    TrimOfTrimmed(name);
    TrimOfTrimmed(rest);
    BrandedClean(name);
  }

  lemma BrandedClean(name: string)
    requires Trim(name) == name && HasBrandPrefix(name)
    ensures CleanProductName(name) == Trim(name[4..])
  {
  }

  /** Cleaning a cleaned name changes nothing unless it still carries the brand marker. */
  lemma IdempotentUnlessBranded(name: string)
    requires !HasBrandPrefix(CleanProductName(name))
    ensures CleanProductName(CleanProductName(name)) == CleanProductName(name)
  {
    TrimOfTrimmed(CleanProductName(name));
  }

  /** The marker is recognised in any letter case. */
  lemma AnyCase(name: string, rest: string)
    requires |name| == 4 + |rest| && name[4..] == rest && rest != [] && IsTrimmed(rest)
    requires name[0] in "tT" && name[1] in "mM" && name[2] in "bB" && name[3] == ' '
    ensures CleanProductName(name) == rest
  {
    assert IsTrimmed(name) by {
      assert name[|name| - 1] == rest[|rest| - 1];
    }
    assert HasBrandPrefix(name) by {
      assert Upper(name[..4]) == BrandPrefix;
    }
    StripsMarker(name, rest);
  }
}
