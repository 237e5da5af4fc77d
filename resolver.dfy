/** `getCenter` and the zoom choice of the map component: where to put the
    marker for a district and a neighbourhood typed by the user, tried in five
    tiers, and how far to zoom. */
module Resolver {
  import opened JsString
  import opened Normalizer
  import opened Gazetteer

  /** Which tier produced the position. The component returns only the
      coordinate; the tier is recorded so that the lemmas can name it. */
  datatype Tier = Exact | Normalized | Partial | District | Default

  datatype Resolution = Resolution(tier: Tier, position: Coord)

  /** `Array.prototype.find` as an index: the first position whose element satisfies `p`. */
  function FindFirst<T>(s: seq<T>, p: T -> bool): (r: Option<nat>)
    ensures r.Some? ==> r.value < |s| && p(s[r.value])
    ensures r.Some? ==> forall j :: 0 <= j < r.value ==> !p(s[j])
    ensures r.None? <==> forall j :: 0 <= j < |s| ==> !p(s[j])
  {
    if s == [] then None
    else if p(s[0]) then Some(0)
    else
      match FindFirst(s[1..], p)
      case None => None
      case Some(k) =>
        assert forall j :: 1 <= j <= k ==> s[j] == s[1..][j - 1];
        Some(k + 1)
  }

  /** An element satisfying `p` with none before it is what `FindFirst` finds. */
  lemma FindFirstAt<T>(s: seq<T>, p: T -> bool, i: nat)
    requires i < |s| && p(s[i]) && forall j :: 0 <= j < i ==> !p(s[j])
    ensures FindFirst(s, p) == Some(i)
  {
    var r := FindFirst(s, p);
    assert r.Some?;
    assert !(r.value < i) && !(r.value > i);
  }

  // ------------------------------------------------------ the three tests

  /** The exact test: the key, lower-cased, equals the typed name lower-cased
      and trimmed. The key itself is not trimmed. */
  predicate ExactKey(key: string, raw: string)
  {
    Lower(key) == Trim(Lower(raw))
  }

  /** The normalised test: the key normalises to a non-empty name equal, up
      to lower case, to the normalised typed name `nn`. */
  predicate NormalizedKey(key: string, nn: string)
  {
    var nk := Normalize(Some(key));
    Truthy(nk) && Lower(nk.value) == Lower(nn)
  }

  /** What the partial test searches for: the normalised typed name when that
      is non-empty, else the typed name trimmed. */
  function SearchTerm(raw: string): (t: string)
    ensures Truthy(Normalize(Some(raw))) ==> t == Normalize(Some(raw)).value
    ensures !Truthy(Normalize(Some(raw))) ==> t == Trim(raw)
  {
    var nn := Normalize(Some(raw));
    if Truthy(nn) then nn.value else Trim(raw)
  }

  /** The partial test: both the normalised key and the search term are
      non-empty and, lower-cased, they are equal or one contains the other. */
  predicate PartialKey(key: string, term: string)
  {
    var nk := Normalize(Some(key));
    Truthy(nk) && term != [] &&
      (Lower(nk.value) == Lower(term) || Includes(Lower(nk.value), Lower(term)) || Includes(Lower(term), Lower(nk.value)))
  }

  function FindExact(es: Entries, raw: string): Option<nat>
  {
    FindFirst(es, (e: (string, Coord)) => ExactKey(e.0, raw))
  }

  function FindNormalized(es: Entries, nn: string): Option<nat>
  {
    FindFirst(es, (e: (string, Coord)) => NormalizedKey(e.0, nn))
  }

  function FindPartial(es: Entries, term: string): Option<nat>
  {
    FindFirst(es, (e: (string, Coord)) => PartialKey(e.0, term))
  }

  // ------------------------------------------------------ the resolution

  /** The three neighbourhood tiers over one district's entries, in order. The
      exact tier takes the first key passing the exact test, and only when
      that key is non-empty (a found empty key is falsy, and the search goes
      on to the next tier). */
  function MatchNeighborhood(es: Entries, raw: string): (r: Option<Resolution>)
    ensures r.Some? ==> r.value.tier in {Exact, Normalized, Partial}
    ensures r.Some? ==> exists i :: 0 <= i < |es| && es[i].1 == r.value.position
    ensures r.Some? && r.value.tier == Exact ==>
      exists i :: 0 <= i < |es| && es[i].0 != [] && ExactKey(es[i].0, raw) && es[i].1 == r.value.position
    ensures r.Some? && r.value.tier == Normalized ==>
      Truthy(Normalize(Some(raw))) &&
      exists i :: 0 <= i < |es| && NormalizedKey(es[i].0, Normalize(Some(raw)).value) && es[i].1 == r.value.position
    ensures r.Some? && r.value.tier == Partial ==>
      exists i :: 0 <= i < |es| && PartialKey(es[i].0, SearchTerm(raw)) && es[i].1 == r.value.position
  {
    var nn := Normalize(Some(raw));
    var exact := FindExact(es, raw);
    if exact.Some? && es[exact.value].0 != [] then Some(Resolution(Exact, es[exact.value].1))
    else
      var normalized := if Truthy(nn) then FindNormalized(es, nn.value) else None;
      if normalized.Some? then Some(Resolution(Normalized, es[normalized.value].1))
      else
        var partial := FindPartial(es, SearchTerm(raw));
        if partial.Some? then Some(Resolution(Partial, es[partial.value].1)) else None
  }

  /** Where the marker goes. The neighbourhood tiers are tried only when both
      names are non-empty and the district has entries; then the district's
      centroid, then the fallback. */
  function Resolve(g: Places, district: Option<string>, neighborhood: Option<string>): (r: Resolution)
    ensures r.tier in {Exact, Normalized, Partial} ==>
      Truthy(district) && Truthy(neighborhood) && district.value in g.neighborhoods &&
      exists i :: 0 <= i < |g.neighborhoods[district.value]| && g.neighborhoods[district.value][i].1 == r.position
    ensures r.tier == District ==>
      Truthy(district) && district.value in g.centroids && r.position == g.centroids[district.value]
    ensures r.tier == Default ==> r.position == g.fallback && !(Truthy(district) && district.value in g.centroids)
  {
    var m := if Truthy(district) && Truthy(neighborhood) && district.value in g.neighborhoods
      then MatchNeighborhood(g.neighborhoods[district.value], neighborhood.value) else None;
    if m.Some? then m.value
    else if Truthy(district) && district.value in g.centroids then Resolution(District, g.centroids[district.value])
    else Resolution(Default, g.fallback)
  }

  /** `getCenter`, step by step: two `find` calls, then the loop over the
      entries that returns at the first partial match, then the fallbacks. */
  method GetCenter(g: Places, district: Option<string>, neighborhood: Option<string>) returns (center: Coord)
    ensures center == Resolve(g, district, neighborhood).position
  {
    if Truthy(district) && Truthy(neighborhood) && district.value in g.neighborhoods {
      var es := g.neighborhoods[district.value];
      var found := MatchEntries(es, neighborhood.value);
      if found.Some? {
        return found.value;
      }
    }
    if Truthy(district) && district.value in g.centroids {
      return g.centroids[district.value];
    }
    return g.fallback;
  }

  /** The neighbourhood part of `getCenter` for one district's entries. */
  method MatchEntries(es: Entries, raw: string) returns (found: Option<Coord>)
    ensures MatchNeighborhood(es, raw).Some? ==> found == Some(MatchNeighborhood(es, raw).value.position)
    ensures MatchNeighborhood(es, raw).None? ==> found.None?
  {
    var normalizedNeighborhood := Normalize(Some(raw));
    var exactMatch := FindExact(es, raw);
    if exactMatch.Some? && es[exactMatch.value].0 != [] {
      return Some(es[exactMatch.value].1);
    }
    if Truthy(normalizedNeighborhood) {
      var normalizedMatch := FindNormalized(es, normalizedNeighborhood.value);
      if normalizedMatch.Some? {
        return Some(es[normalizedMatch.value].1);
      }
    }
    var searchNormalized := if Truthy(normalizedNeighborhood) then normalizedNeighborhood.value else Trim(raw);
    var partial := ScanPartial(es, searchNormalized);
    if partial.Some? {
      return Some(es[partial.value].1);
    }
    return None;
  }

  /** The `for ... of` loop of the partial tier: the first entry whose
      normalised key and the search term are equal or contain one another. */
  method ScanPartial(es: Entries, searchNormalized: string) returns (found: Option<nat>)
    ensures found == FindPartial(es, searchNormalized)
  {
    var i := 0;
    while i < |es|
      invariant 0 <= i <= |es|
      invariant forall j :: 0 <= j < i ==> !PartialKey(es[j].0, searchNormalized)
    {
      if PartialKey(es[i].0, searchNormalized) {
        FindPartialFirst(es, searchNormalized, i);
        return Some(i);
      }
      NoPartialThrough(es, searchNormalized, i);
      i := i + 1;
    }
    FindPartialFirst(es, searchNormalized, i);
    return None;
  }

  /** `zoomLevel`: 15 with a neighbourhood, 13 with only a district, 11 with neither. */
  function ZoomLevel(district: Option<string>, neighborhood: Option<string>): (z: int)
    ensures z == 15 <==> Truthy(neighborhood)
    ensures z == 13 <==> !Truthy(neighborhood) && Truthy(district)
    ensures z == 11 <==> !Truthy(neighborhood) && !Truthy(district)
  {
    if Truthy(neighborhood) then 15 else if Truthy(district) then 13 else 11
  }

  // ------------------------------------------------------ the tiers

  /** Each find is `FindFirst` with the test applied to the key. */
  lemma FindExactFirst(es: Entries, raw: string, i: nat)
    requires i <= |es| && forall j :: 0 <= j < i ==> !ExactKey(es[j].0, raw)
    ensures i < |es| && ExactKey(es[i].0, raw) ==> FindExact(es, raw) == Some(i)
    ensures i == |es| ==> FindExact(es, raw).None?
  {
    if i < |es| && ExactKey(es[i].0, raw) {
      FindFirstAt(es, (e: (string, Coord)) => ExactKey(e.0, raw), i);
    }
  }

  lemma FindNormalizedFirst(es: Entries, nn: string, i: nat)
    requires i <= |es| && forall j :: 0 <= j < i ==> !NormalizedKey(es[j].0, nn)
    ensures i < |es| && NormalizedKey(es[i].0, nn) ==> FindNormalized(es, nn) == Some(i)
    ensures i == |es| ==> FindNormalized(es, nn).None?
  {
    if i < |es| && NormalizedKey(es[i].0, nn) {
      FindFirstAt(es, (e: (string, Coord)) => NormalizedKey(e.0, nn), i);
    }
  }

  lemma FindPartialFirst(es: Entries, term: string, i: nat)
    requires i <= |es| && forall j :: 0 <= j < i ==> !PartialKey(es[j].0, term)
    ensures i < |es| && PartialKey(es[i].0, term) ==> FindPartial(es, term) == Some(i)
    ensures i == |es| ==> FindPartial(es, term).None?
  {
    if i < |es| && PartialKey(es[i].0, term) {
      FindFirstAt(es, (e: (string, Coord)) => PartialKey(e.0, term), i);
    }
  }

  /** One more entry failing the partial test extends the failing prefix. */
  lemma NoPartialThrough(es: Entries, term: string, i: nat)
    requires i < |es| && !PartialKey(es[i].0, term)
    requires forall j :: 0 <= j < i ==> !PartialKey(es[j].0, term)
    ensures forall j :: 0 <= j <= i ==> !PartialKey(es[j].0, term)
  {
  }

  /** The first entry passing the exact test wins when its key is non-empty. */
  lemma MatchExactTier(es: Entries, raw: string, i: nat)
    requires i < |es| && es[i].0 != [] && ExactKey(es[i].0, raw)
    requires forall j :: 0 <= j < i ==> !ExactKey(es[j].0, raw)
    ensures MatchNeighborhood(es, raw) == Some(Resolution(Exact, es[i].1))
  {
    FindExactFirst(es, raw, i);
  }

  /** Without an exact match, the first entry passing the normalised test wins. */
  lemma MatchNormalizedTier(es: Entries, raw: string, i: nat)
    requires forall j :: 0 <= j < |es| ==> !ExactKey(es[j].0, raw)
    requires Truthy(Normalize(Some(raw)))
    requires i < |es| && NormalizedKey(es[i].0, Normalize(Some(raw)).value)
    requires forall j :: 0 <= j < i ==> !NormalizedKey(es[j].0, Normalize(Some(raw)).value)
    ensures MatchNeighborhood(es, raw) == Some(Resolution(Normalized, es[i].1))
  {
    FindExactFirst(es, raw, |es|);
    FindNormalizedFirst(es, Normalize(Some(raw)).value, i);
    MatchWhenNormalized(es, raw, i);
  }

  lemma MatchWhenNormalized(es: Entries, raw: string, i: nat)
    requires FindExact(es, raw).None? && Truthy(Normalize(Some(raw)))
    requires FindNormalized(es, Normalize(Some(raw)).value) == Some(i)
    ensures MatchNeighborhood(es, raw) == Some(Resolution(Normalized, es[i].1))
  {
  }

  /** Without an exact or a normalised match, the first entry passing the partial test wins. */
  lemma MatchPartialTier(es: Entries, raw: string, i: nat)
    requires forall j :: 0 <= j < |es| ==> !ExactKey(es[j].0, raw)
    requires Truthy(Normalize(Some(raw))) ==> forall j :: 0 <= j < |es| ==> !NormalizedKey(es[j].0, Normalize(Some(raw)).value)
    requires i < |es| && PartialKey(es[i].0, SearchTerm(raw))
    requires forall j :: 0 <= j < i ==> !PartialKey(es[j].0, SearchTerm(raw))
    ensures MatchNeighborhood(es, raw) == Some(Resolution(Partial, es[i].1))
  {
    FindExactFirst(es, raw, |es|);
    if Truthy(Normalize(Some(raw))) {
      FindNormalizedFirst(es, Normalize(Some(raw)).value, |es|);
    }
    FindPartialFirst(es, SearchTerm(raw), i);
    MatchWhenPartial(es, raw, i);
  }

  lemma MatchWhenPartial(es: Entries, raw: string, i: nat)
    requires FindExact(es, raw).None?
    requires Truthy(Normalize(Some(raw))) ==> FindNormalized(es, Normalize(Some(raw)).value).None?
    requires FindPartial(es, SearchTerm(raw)) == Some(i)
    ensures MatchNeighborhood(es, raw) == Some(Resolution(Partial, es[i].1))
  {
  }

  /** No tier matches exactly when no entry passes any test, an exact hit on
      an empty key aside: such a key is falsy, and `find` has then stopped at
      the first exact hit, so no non-empty key can pass the exact test. */
  lemma MatchNoneIff(es: Entries, raw: string)
    ensures MatchNeighborhood(es, raw).None? <==>
      forall j :: 0 <= j < |es| ==>
        && (ExactKey(es[j].0, raw) ==> es[j].0 == [])
        && (Truthy(Normalize(Some(raw))) ==> !NormalizedKey(es[j].0, Normalize(Some(raw)).value))
        && !PartialKey(es[j].0, SearchTerm(raw))
  {
    MatchNoneByFinds(es, raw);
    var exact := FindExact(es, raw);
    if exact.Some? && es[exact.value].0 == [] {
      EmptyExactKey(es, raw, exact.value);
    }
  }

  /** No tier matches exactly when each `find` comes back empty-handed, the
      exact one possibly with an empty key. */
  lemma MatchNoneByFinds(es: Entries, raw: string)
    ensures MatchNeighborhood(es, raw).None? <==>
      && (FindExact(es, raw).None? || es[FindExact(es, raw).value].0 == [])
      && (Truthy(Normalize(Some(raw))) ==> FindNormalized(es, Normalize(Some(raw)).value).None?)
      && FindPartial(es, SearchTerm(raw)).None?
  {
  }

  /** When an empty key passes the exact test, only empty keys pass it. */
  lemma EmptyExactKey(es: Entries, raw: string, k: nat)
    requires k < |es| && es[k].0 == [] && ExactKey(es[k].0, raw)
    ensures forall j :: 0 <= j < |es| && ExactKey(es[j].0, raw) ==> es[j].0 == []
  {
    assert Trim(Lower(raw)) == [];
    forall j | 0 <= j < |es| && ExactKey(es[j].0, raw)
      ensures es[j].0 == []
    {
      assert |Lower(es[j].0)| == 0;
    }
  }

  /** A neighbourhood that passes no test leaves the marker where the district
      alone puts it: its centroid if it has one, the fallback otherwise. */
  lemma NothingMatchesFallsBack(g: Places, district: string, raw: string)
    requires district in g.neighborhoods
    requires forall j :: 0 <= j < |g.neighborhoods[district]| ==>
      var key := g.neighborhoods[district][j].0;
      && (ExactKey(key, raw) ==> key == [])
      && (Truthy(Normalize(Some(raw))) ==> !NormalizedKey(key, Normalize(Some(raw)).value))
      && !PartialKey(key, SearchTerm(raw))
    ensures district != [] && district in g.centroids ==>
      Resolve(g, Some(district), Some(raw)) == Resolution(District, g.centroids[district])
    ensures !(district != [] && district in g.centroids) ==>
      Resolve(g, Some(district), Some(raw)) == Resolution(Default, g.fallback)
  {
    MatchNoneIff(g.neighborhoods[district], raw);
    ResolveDistrictFallback(g, Some(district), Some(raw));
  }

  /** A found neighbourhood is where the marker goes. */
  lemma ResolveUsesMatch(g: Places, district: string, raw: string)
    requires district != [] && raw != [] && district in g.neighborhoods
    requires MatchNeighborhood(g.neighborhoods[district], raw).Some?
    ensures Resolve(g, Some(district), Some(raw)) == MatchNeighborhood(g.neighborhoods[district], raw).value
  {
  }

  /** When no neighbourhood tier applies the position depends on the district
      alone: its centroid if it has one, the fallback otherwise. */
  lemma ResolveDistrictFallback(g: Places, district: Option<string>, neighborhood: Option<string>)
    requires !Truthy(neighborhood) || !Truthy(district) || district.value !in g.neighborhoods ||
      MatchNeighborhood(g.neighborhoods[district.value], neighborhood.value).None?
    ensures Truthy(district) && district.value in g.centroids ==>
      Resolve(g, district, neighborhood) == Resolution(District, g.centroids[district.value])
    ensures !(Truthy(district) && district.value in g.centroids) ==>
      Resolve(g, district, neighborhood) == Resolution(Default, g.fallback)
    ensures Resolve(g, district, neighborhood) == Resolve(g, district, None)
  {
    ResolveByDistrict(g, district, neighborhood);
    ResolveByDistrict(g, district, None);
  }

  lemma ResolveByDistrict(g: Places, district: Option<string>, neighborhood: Option<string>)
    requires !Truthy(neighborhood) || !Truthy(district) || district.value !in g.neighborhoods ||
      MatchNeighborhood(g.neighborhoods[district.value], neighborhood.value).None?
    ensures Resolve(g, district, neighborhood) ==
      if Truthy(district) && district.value in g.centroids then Resolution(District, g.centroids[district.value])
      else Resolution(Default, g.fallback)
  {
  }

  /** A query of white space only lower-cases and trims to the empty string,
      normalises to the empty string, and so searches for the empty string. */
  lemma BlankQuery(raw: string)
    requires raw != [] && forall i :: 0 <= i < |raw| ==> IsSpace(raw[i])
    ensures Trim(Lower(raw)) == [] && Normalize(Some(raw)) == Some([]) && SearchTerm(raw) == []
  {
    LowerStable(raw);
    TrimEmptyIffBlank(raw);
    NormalizeBlank(raw);
  }

  /** For a blank query only an empty key passes the exact test, and no key the partial one. */
  lemma BlankMatchesNothing(es: Entries, raw: string)
    requires raw != [] && forall i :: 0 <= i < |raw| ==> IsSpace(raw[i])
    ensures MatchNeighborhood(es, raw).None?
  {
    BlankQuery(raw);
    var exact := FindExact(es, raw);
    if exact.Some? {
      assert Lower(es[exact.value].0) == [];
    }
    FindPartialFirst(es, [], |es|);
  }

  /** A neighbourhood of white space only matches nothing, so the marker goes
      where it would go with no neighbourhood at all. */
  lemma BlankNeighborhoodIgnored(g: Places, district: Option<string>, raw: string)
    requires raw != [] && forall i :: 0 <= i < |raw| ==> IsSpace(raw[i])
    ensures Resolve(g, district, Some(raw)) == Resolve(g, district, None)
  {
    if Truthy(district) && district.value in g.neighborhoods {
      BlankMatchesNothing(g.neighborhoods[district.value], raw);
    }
    ResolveDistrictFallback(g, district, Some(raw));
  }

  /** A resolved neighbourhood always comes with the neighbourhood zoom, and the
      city-wide zoom only ever shows the fallback position. */
  lemma ZoomAgreesWithTier(g: Places, district: Option<string>, neighborhood: Option<string>)
    ensures Resolve(g, district, neighborhood).tier in {Exact, Normalized, Partial} ==> ZoomLevel(district, neighborhood) == 15
    ensures Resolve(g, district, neighborhood).tier == District ==> ZoomLevel(district, neighborhood) in {13, 15}
    ensures ZoomLevel(district, neighborhood) == 11 ==> Resolve(g, district, neighborhood) == Resolution(Default, g.fallback)
  {
  }
}
