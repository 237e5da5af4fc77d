/** Worked cases of the map component on its own tables. */
module MapExamples {
  import opened JsString
  import opened Normalizer
  import opened Gazetteer
  import opened Resolver

  /** A capital followed by letters that are already lower case. */
  lemma LowerCapitalised(c: char, d: char, tail: string)
    requires LowerChar(c) == [d]
    requires Lower(tail) == tail
    ensures Lower([c] + tail) == [d] + tail
  {
    LowerAppend([c], tail);
  }

  lemma EngelkoyStable()
    ensures Lower("engelköy") == "engelköy"
  {
    LowerOfPlain("engelköy");
  }

  /** Letters `a` to `z` and `ö` are their own lower case. */
  lemma LowerOfPlain(s: string)
    requires forall i :: 0 <= i < |s| ==> 'a' <= s[i] <= 'z' || s[i] == 'ö'
    ensures Lower(s) == s
  {
    forall i | 0 <= i < |s|
      ensures LowerChar(s[i]) == [s[i]]
    {
      PlainLetter(s[i]);
    }
    LowerStable(s);
  }

  lemma PlainLetter(c: char)
    requires 'a' <= c <= 'z' || c == 'ö'
    ensures LowerChar(c) == [c]
  {
  }

  /** The first key of the district, `Çengelköy`, passes the exact test for
      the query `çengelköy`: `Ç` lower-cases to `ç`, the other letters are
      already lower case, and the query has nothing to trim. */
  lemma CengelkoyKeyMatches(key: string, raw: string)
    requires key == ['Ç'] + "engelköy" && raw == ['ç'] + "engelköy"
    ensures ExactKey(key, raw)
  {
    EngelkoyStable();
    CengelkoyQueryTrimmed(raw);
    LowerCedilla();
    CapitalisedKeyMatches(key, raw, 'Ç', 'ç', "engelköy");
  }

  lemma LowerCedilla()
    ensures LowerChar('Ç') == ['ç'] && LowerChar('ç') == ['ç']
  {
  }

  /** A key whose capital lower-cases to the query's first letter, with the
      same lower-case rest, passes the exact test for an untrimmed query. */
  lemma CapitalisedKeyMatches(key: string, raw: string, c: char, d: char, tail: string)
    requires key == [c] + tail && raw == [d] + tail
    requires LowerChar(c) == [d] && LowerChar(d) == [d] && Lower(tail) == tail && Trim(raw) == raw
    ensures ExactKey(key, raw)
  {
    LowerCapitalised(c, d, tail);
    LowerCapitalised(d, d, tail);
    ExactKeyOf(key, raw, raw);
  }

  /** The exact test from the lower case of each side. */
  lemma ExactKeyOf(key: string, raw: string, low: string)
    requires Lower(key) == low && Lower(raw) == low && Trim(low) == low
    ensures ExactKey(key, raw)
  {
  }

  lemma CengelkoyQueryTrimmed(raw: string)
    requires raw == ['ç'] + "engelköy"
    ensures Trim(raw) == raw
  {
    assert raw[0] == 'ç' && raw[|raw| - 1] == 'y';
    TrimOfBordered(raw);
  }

  /** A lower-case query for a capitalised key is found by the exact test,
      before any normalisation, at the first entry of the district. */
  lemma CengelkoyIsExact()
    ensures Resolve(Istanbul, Some("Üsküdar"), Some("çengelköy")) == Resolution(Exact, Coord(410579, 290514))
  {
    Listed("Üsküdar", UskudarEntries);
    CengelkoyFirst(UskudarEntries, "çengelköy");
    ResolveUsesMatch(Istanbul, "Üsküdar", "çengelköy");
  }

  lemma CengelkoyFirst(es: Entries, raw: string)
    requires es == UskudarEntries && raw == "çengelköy"
    ensures MatchNeighborhood(es, raw) == Some(Resolution(Exact, Coord(410579, 290514)))
  {
    assert raw == ['ç'] + "engelköy";
    assert es[0].0 == ['Ç'] + "engelköy";
    CengelkoyKeyMatches(es[0].0, raw);
    MatchExactTier(es, raw, 0);
  }

  /** The entries listed for a district with neighbourhoods. */
  lemma Listed(d: string, es: Entries)
    requires (d == "Üsküdar" && es == UskudarEntries) || (d == "Kadıköy" && es == KadikoyEntries)
    ensures d in Istanbul.neighborhoods && Istanbul.neighborhoods[d] == es
  {
  }

  /** A name typed exactly as the first key resolves to that key. */
  lemma ModaIsExact()
    ensures Resolve(Istanbul, Some("Kadıköy"), Some("Moda")) == Resolution(Exact, Coord(409803, 290253))
  {
    Listed("Kadıköy", KadikoyEntries);
    ModaFirst(KadikoyEntries, "Moda");
    ResolveUsesMatch(Istanbul, "Kadıköy", "Moda");
  }

  lemma ModaFirst(es: Entries, raw: string)
    requires es == KadikoyEntries && raw == "Moda"
    ensures MatchNeighborhood(es, raw) == Some(Resolution(Exact, Coord(409803, 290253)))
  {
    ModaKeyMatches(es[0].0, raw);
    MatchExactTier(es, raw, 0);
  }

  /** `Moda` typed as listed passes the exact test against its own key. */
  lemma ModaKeyMatches(key: string, raw: string)
    requires key == "Moda" && raw == "Moda"
    ensures ExactKey(key, raw)
  {
    LowerModa(key);
    ModaTrimmed("moda");
    ExactKeyOf(key, raw, "moda");
  }

  lemma LowerModa(name: string)
    requires name == "Moda"
    ensures Lower(name) == "moda"
  {
    LowerOfPlain("oda");
    LowerCapitalised('M', 'm', "oda");
    assert name == ['M'] + "oda";
  }

  lemma ModaTrimmed(low: string)
    requires low == "moda"
    ensures Trim(low) == low
  {
    assert low[0] == 'm' && low[|low| - 1] == 'a';
    TrimOfBordered(low);
  }

  /** A district alone centres on its centroid at the district zoom. */
  lemma UskudarAlone()
    ensures Resolve(Istanbul, Some("Üsküdar"), None) == Resolution(District, Coord(410214, 290119))
    ensures ZoomLevel(Some("Üsküdar"), None) == 13
  {
    UskudarCentroid("Üsküdar");
    ResolveDistrictFallback(Istanbul, Some("Üsküdar"), None);
  }

  /** Neither name: the city centre at the city zoom. */
  lemma NothingGiven()
    ensures Resolve(Istanbul, None, None) == Resolution(Default, DefaultCenter)
    ensures ZoomLevel(None, None) == 11
  {
  }

  /** A district missing from both tables falls back to the city centre,
      even with a neighbourhood, which still selects the neighbourhood zoom. */
  lemma UnknownDistrict(raw: string)
    requires raw != []
    ensures Resolve(Istanbul, Some("Bayrampaşa"), Some(raw)) == Resolution(Default, DefaultCenter)
    ensures ZoomLevel(Some("Bayrampaşa"), Some(raw)) == 15
  {
    Uncharted("Bayrampaşa");
    ResolveDistrictFallback(Istanbul, Some("Bayrampaşa"), Some(raw));
  }
}
