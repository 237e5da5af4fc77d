/** `normalizeNeighborhood` of the map component: three end-anchored,
    case-insensitive suffix removals in a fixed order, then every run of white
    space becomes one space, then the ends are trimmed. */
module Normalizer {
  import opened JsString

  /** ASCII upper case. A regular expression with the `i` flag and without the
      `u` flag folds a character only when its upper case is a single character
      and, for a non-ASCII character, not an ASCII one; so against the ASCII
      letters and the `.` of the suffix patterns this is exactly the folding used
      (`ı`, `İ` and `ſ` match none of them). */
  function AsciiUpper(c: char): char
  {
    if 'a' <= c <= 'z' then (c as int - 32) as char else c
  }

  /** `s` ends with `pat`, compared case-insensitively in the regular-expression sense. */
  predicate EndsWithIgnoringCase(s: string, pat: string)
  {
    |pat| <= |s| && forall i :: 0 <= i < |pat| ==> AsciiUpper(s[|s| - |pat| + i]) == AsciiUpper(pat[i])
  }

  /** `s.replace(/<stem><last>?$/i, '')`. The leftmost match wins, and the
      longer alternative starts further left, so a trailing `stem + [last]` is
      removed if there is one, else a trailing `stem`; at most one removal. */
  function StripSuffix(s: string, stem: string, last: char): (r: string)
    ensures |r| <= |s| && r == s[..|r|]
    ensures EndsWithIgnoringCase(s, stem + [last]) ==> |r| == |s| - |stem| - 1
    ensures !EndsWithIgnoringCase(s, stem + [last]) && EndsWithIgnoringCase(s, stem) ==> |r| == |s| - |stem|
    ensures !EndsWithIgnoringCase(s, stem + [last]) && !EndsWithIgnoringCase(s, stem) ==> r == s
  {
    if EndsWithIgnoringCase(s, stem + [last]) then s[..|s| - |stem| - 1]
    else if EndsWithIgnoringCase(s, stem) then s[..|s| - |stem|]
    else s
  }

  /** Lines 31-33 in order: `Mah`/`Mah.`, then `Mahalles`/`Mahallesi`, then `Mh`/`Mh.`. */
  function StripSuffixes(s: string): (r: string)
    ensures |r| <= |s| && r == s[..|r|]
  {
    StripSuffix(StripSuffix(StripSuffix(s, "Mah", '.'), "Mahalles", 'i'), "Mh", '.')
  }

  /** No white space but single `' '` characters, and never two in a row. */
  predicate SpacesCollapsed(s: string)
  {
    forall i :: 0 <= i < |s| && IsSpace(s[i]) ==> s[i] == ' ' && (i + 1 < |s| ==> !IsSpace(s[i + 1]))
  }

  /** The shape of every normalised name: spaces collapsed and no white space at either end. */
  predicate Canonical(s: string)
  {
    SpacesCollapsed(s) && (s != [] ==> !IsSpace(s[0]) && !IsSpace(s[|s| - 1]))
  }

  /** Any character but white space. */
  predicate NotSpace(c: char)
  {
    !IsSpace(c)
  }

  /** `s.replace(/\s+/g, ' ')`: every maximal run of white space becomes one
      space; the other characters are kept, all of them and in their order. */
  function CollapseSpaces(s: string): (r: string)
    ensures SpacesCollapsed(r)
    ensures s == [] <==> r == []
    ensures s != [] ==> r[0] == if IsSpace(s[0]) then ' ' else s[0]
    ensures s != [] ==> (IsSpace(r[|r| - 1]) <==> IsSpace(s[|s| - 1]))
    decreases |s|
  {
    if s == [] then []
    else if IsSpace(s[0]) then
      var t := TrimStart(s);
      SkipSpaces(s);
      var rest := CollapseSpaces(t);
      ConsCollapsed(' ', rest);
      ConsEnds(' ', rest);
      [' '] + rest
    else
      var rest := CollapseSpaces(s[1..]);
      ConsCollapsed(s[0], rest);
      ConsEnds(s[0], rest);
      [s[0]] + rest
  }

  /** Collapsing keeps every character that is not white space, in order. */
  lemma {:induction false} CollapseKeepsText(s: string)
    ensures Filter(CollapseSpaces(s), NotSpace) == Filter(s, NotSpace)
    decreases |s|
  {
    if s != [] {
      var r := CollapseSpaces(s);
      if IsSpace(s[0]) {
        SkipSpaces(s);
        FilterSkipsSpaces(s);
        CollapseKeepsText(TrimStart(s));
        assert r[1..] == CollapseSpaces(TrimStart(s));
      } else {
        CollapseKeepsText(s[1..]);
        assert r[1..] == CollapseSpaces(s[1..]);
      }
    }
  }

  /** Leading white space contributes nothing to the non-space characters. */
  lemma {:induction false} FilterSkipsSpaces(s: string)
    ensures Filter(TrimStart(s), NotSpace) == Filter(s, NotSpace)
  {
    if s != [] && IsSpace(s[0]) {
      FilterSkipsSpaces(s[1..]);
    }
  }

  /** Leading white space before a string that starts with a non-space is
      exactly what trimming the start removes. */
  lemma {:induction false} TrimStartOfRun(w: string, b: string)
    requires forall i :: 0 <= i < |w| ==> IsSpace(w[i])
    requires b == [] || !IsSpace(b[0])
    ensures TrimStart(w + b) == b
  {
    if w == [] {
      assert w + b == b;
    } else {
      assert (w + b)[1..] == w[1..] + b;
      TrimStartOfRun(w[1..], b);
    }
  }

  /** Collapsing distributes over a concatenation cut right after a non-space:
      no run of white space crosses the cut. */
  lemma {:induction false} CollapseAppend(a: string, t: string)
    requires a == [] || !IsSpace(a[|a| - 1])
    ensures CollapseSpaces(a + t) == CollapseSpaces(a) + CollapseSpaces(t)
  {
    if a == [] {
      assert a + t == t;
    } else {
      var u := a[1..];
      assert (a + t)[0] == a[0] && (a + t)[1..] == u + t;
      CollapseAppend(u, t);
      if IsSpace(a[0]) {
        assert (a + t)[1] == a[1];
        CollapseSpaceStep(a);
        CollapseSpaceStep(a + t);
        if IsSpace(a[1]) {
          assert CollapseSpaces(a + t) == CollapseSpaces(u) + CollapseSpaces(t);
        } else {
          assert CollapseSpaces(a + t) == [' '] + (CollapseSpaces(u) + CollapseSpaces(t));
          assert CollapseSpaces(a) == [' '] + CollapseSpaces(u);
          ConcatAssoc([' '], CollapseSpaces(u), CollapseSpaces(t));
        }
      } else {
        CollapseCharStep(a);
        CollapseCharStep(a + t);
        assert CollapseSpaces(a + t) == [a[0]] + (CollapseSpaces(u) + CollapseSpaces(t));
        ConcatAssoc([a[0]], CollapseSpaces(u), CollapseSpaces(t));
      }
    }
  }

  /** Concatenation regroups freely. */
  lemma ConcatAssoc(x: string, y: string, z: string)
    ensures (x + y) + z == x + (y + z)
  {
  }

  /** Collapsing past a leading white-space character: it is dropped when more
      white space follows, and becomes the run's one space otherwise. */
  lemma CollapseSpaceStep(s: string)
    requires |s| >= 2 && IsSpace(s[0])
    ensures CollapseSpaces(s) == if IsSpace(s[1]) then CollapseSpaces(s[1..]) else [' '] + CollapseSpaces(s[1..])
  {
    var u := s[1..];
    assert TrimStart(s) == TrimStart(u);
    if !IsSpace(s[1]) {
      assert TrimStart(u) == u;
    }
  }

  /** Collapsing a string that starts with white space: its leading run becomes one space. */
  lemma CollapseRunStep(s: string)
    requires s != [] && IsSpace(s[0])
    ensures CollapseSpaces(s) == [' '] + CollapseSpaces(TrimStart(s))
  {
  }

  /** Collapsing past a leading character that is not white space keeps it. */
  lemma CollapseCharStep(s: string)
    requires s != [] && !IsSpace(s[0])
    ensures CollapseSpaces(s) == [s[0]] + CollapseSpaces(s[1..])
  {
  }

  /** A run of white space between a non-space (or the start) and a non-space
      (or the end), however long and of whatever kind, becomes one space and
      leaves both sides as they would collapse on their own. */
  lemma CollapseRun(a: string, w: string, b: string)
    requires a == [] || !IsSpace(a[|a| - 1])
    requires w != [] && forall i :: 0 <= i < |w| ==> IsSpace(w[i])
    requires b == [] || !IsSpace(b[0])
    ensures CollapseSpaces(a + w + b) == CollapseSpaces(a) + " " + CollapseSpaces(b)
  {
    var t := w + b;
    assert a + w + b == a + t && t[0] == w[0];
    CollapseAppend(a, t);
    TrimStartOfRun(w, b);
    CollapseRunStep(t);
    assert " " == [' '];
    ConcatAssoc(CollapseSpaces(a), " ", CollapseSpaces(b));
  }

  /** Skipping a run of leading white space leaves a shorter string that
      starts with a non-space and ends where the original ends. */
  lemma SkipSpaces(s: string)
    requires s != [] && IsSpace(s[0])
    ensures |TrimStart(s)| < |s|
    ensures TrimStart(s) != [] ==> !IsSpace(TrimStart(s)[0]) && TrimStart(s)[|TrimStart(s)| - 1] == s[|s| - 1]
    ensures TrimStart(s) == [] ==> IsSpace(s[|s| - 1])
  {
    var t := TrimStart(s);
    assert t == s[|s| - |t|..];
  }

  /** The ends of a string with one character put before it. */
  lemma ConsEnds(c: char, rest: string)
    ensures ([c] + rest)[0] == c
    ensures rest != [] ==> ([c] + rest)[|rest|] == rest[|rest| - 1]
  {
  }

  /** A character put before a collapsed string keeps it collapsed when it is
      not white space, or is a single space before a non-space. */
  lemma ConsCollapsed(c: char, rest: string)
    requires SpacesCollapsed(rest)
    requires IsSpace(c) ==> c == ' ' && (rest != [] ==> !IsSpace(rest[0]))
    ensures SpacesCollapsed([c] + rest)
  {
    var r := [c] + rest;
    forall i | 0 <= i < |r| && IsSpace(r[i])
      ensures r[i] == ' ' && (i + 1 < |r| ==> !IsSpace(r[i + 1]))
    {
      if i > 0 {
        assert r[i] == rest[i - 1];
        assert i + 1 < |r| ==> r[i + 1] == rest[i];
      }
    }
  }

  /** `normalizeNeighborhood`: absent for an absent or empty name; otherwise a
      string, in canonical form, possibly empty. */
  function Normalize(o: Option<string>): (r: Option<string>)
    ensures r.None? <==> !Truthy(o)
    ensures r.Some? ==> Canonical(r.value)
  {
    if !Truthy(o) then None
    else
      var c := CollapseSpaces(StripSuffixes(o.value));
      TrimCanonical(c);
      Some(Trim(c))
  }

  /** Trimming a collapsed string gives a canonical one. */
  lemma TrimCanonical(c: string)
    requires SpacesCollapsed(c)
    ensures Canonical(Trim(c))
  {
    var t := Trim(c);
    CollapsedSlice(c, TrimOffset(c), TrimOffset(c) + |t|);
  }

  /** A slice of a collapsed string is collapsed. */
  lemma CollapsedSlice(s: string, i: nat, j: nat)
    requires i <= j <= |s| && SpacesCollapsed(s)
    ensures SpacesCollapsed(s[i..j])
  {
    forall k | 0 <= k < j - i && IsSpace(s[i..j][k])
      ensures s[i..j][k] == ' ' && (k + 1 < j - i ==> !IsSpace(s[i..j][k + 1]))
    {
      assert s[i..j][k] == s[i + k];
    }
  }

  /** Collapsing an already collapsed string changes nothing. */
  lemma {:induction false} CollapseOfCollapsed(s: string)
    requires SpacesCollapsed(s)
    ensures CollapseSpaces(s) == s
    decreases |s|
  {
    if s != [] {
      var tail := s[1..];
      CollapsedSlice(s, 1, |s|);
      CollapseOfCollapsed(tail);
      CollapseStep(s);
      assert s == [s[0]] + tail;
    }
  }

  /** In a collapsed string, collapsing moves past the first character one step at a time. */
  lemma CollapseStep(s: string)
    requires s != [] && SpacesCollapsed(s)
    ensures CollapseSpaces(s) == [if IsSpace(s[0]) then ' ' else s[0]] + CollapseSpaces(s[1..])
  {
    if IsSpace(s[0]) {
      var tail := s[1..];
      assert tail != [] ==> tail[0] == s[1] && !IsSpace(tail[0]);
      assert TrimStart(tail) == tail;
      assert TrimStart(s) == tail;
    }
  }

  /** A canonical string is a fixed point of the collapse-and-trim part. */
  lemma CanonicalFixed(s: string)
    requires Canonical(s)
    ensures Trim(CollapseSpaces(s)) == s
  {
    CollapseOfCollapsed(s);
    TrimOfBordered(s);
  }

  /** One trailing space after a canonical string: collapse keeps it and trim removes it. */
  lemma TrailingSpaceTrimmed(base: string)
    requires Canonical(base)
    ensures Trim(CollapseSpaces(base + " ")) == base
  {
    var s := base + " ";
    assert SpacesCollapsed(s) by {
      assert base != [] ==> s[|base| - 1] == base[|base| - 1];
      forall i | 0 <= i < |s| && IsSpace(s[i]) ensures s[i] == ' ' && (i + 1 < |s| ==> !IsSpace(s[i + 1])) {
        if i + 1 < |base| { assert s[i] == base[i] && s[i + 1] == base[i + 1]; }
      }
    }
    CollapseOfCollapsed(s);
    assert TrimEnd(s) == base by {
      assert s[..|s| - 1] == base;
      assert TrimEnd(base) == base;
    }
    if base == [] {
      assert TrimStart(s) == [];
    } else {
      assert TrimStart(s) == s;
    }
  }

  /** The last character of every suffix pattern is a letter or `.`, so a
      name ending in white space keeps all its suffixes. */
  lemma TrailingSpaceBlocksStripping(s: string)
    requires s != [] && IsSpace(s[|s| - 1])
    ensures StripSuffixes(s) == s
  {
    assert AsciiUpper(s[|s| - 1]) == s[|s| - 1];
    LastCharMismatch(s, "Mah" + ['.']);
    LastCharMismatch(s, "Mah");
    LastCharMismatch(s, "Mahalles" + ['i']);
    LastCharMismatch(s, "Mahalles");
    LastCharMismatch(s, "Mh" + ['.']);
    LastCharMismatch(s, "Mh");
  }

  /** A string whose last character differs from the pattern's last one does not end with the pattern. */
  lemma LastCharMismatch(s: string, pat: string)
    requires s != [] && pat != [] && AsciiUpper(s[|s| - 1]) != AsciiUpper(pat[|pat| - 1])
    ensures !EndsWithIgnoringCase(s, pat)
  {
    if |pat| <= |s| {
      assert s[|s| - |pat| + (|pat| - 1)] == s[|s| - 1];
    }
  }

  // ---------------------------------------------------- suffix behaviour

  /** Equal up to the regular-expression case folding. */
  predicate SameIgnoringCase(a: string, b: string)
  {
    |a| == |b| && forall i :: 0 <= i < |a| ==> AsciiUpper(a[i]) == AsciiUpper(b[i])
  }

  /** The six spellings the three patterns remove, in the order they are tried. */
  const SuffixForms: seq<string> := ["Mah.", "Mah", "Mahallesi", "Mahalles", "Mh.", "Mh"]

  /** A pattern without spaces can only match within the word after the last space. */
  lemma EndsWithAfterSpace(base: string, w: string, pat: string)
    requires ' ' !in pat
    ensures EndsWithIgnoringCase(base + " " + w, pat) <==> |pat| <= |w| && EndsWithIgnoringCase(w, pat)
  {
    var s := base + " " + w;
    if |pat| <= |w| {
      forall i | 0 <= i < |pat|
        ensures AsciiUpper(s[|s| - |pat| + i]) == AsciiUpper(pat[i]) <==> AsciiUpper(w[|w| - |pat| + i]) == AsciiUpper(pat[i])
      {
        assert s[|s| - |pat| + i] == w[|w| - |pat| + i];
      }
    } else if |pat| <= |s| {
      var k := |pat| - |w| - 1;
      assert s[|s| - |pat| + k] == ' ';
      assert pat[k] != ' ';
      assert AsciiUpper(s[|s| - |pat| + k]) != AsciiUpper(pat[k]);
    }
  }

  /** Whether a word ends with a pattern depends on the word only up to case. */
  lemma EndsWithSameCase(w: string, f: string, pat: string)
    requires SameIgnoringCase(w, f)
    ensures EndsWithIgnoringCase(w, pat) <==> EndsWithIgnoringCase(f, pat)
  {
    if |pat| <= |w| {
      forall i | 0 <= i < |pat|
        ensures AsciiUpper(w[|w| - |pat| + i]) == AsciiUpper(pat[i]) <==> AsciiUpper(f[|f| - |pat| + i]) == AsciiUpper(pat[i])
      {
      }
    }
  }

  /** A name ending in white space is left alone by any one pattern. */
  lemma SpaceEndUnstripped(s: string, stem: string, last: char)
    requires s != [] && IsSpace(s[|s| - 1]) && stem != [] && !IsSpace(last) && !IsSpace(stem[|stem| - 1])
    ensures StripSuffix(s, stem, last) == s
  {
    assert AsciiUpper(s[|s| - 1]) == s[|s| - 1];
    assert (stem + [last])[|stem|] == last;
    MismatchAt(s, stem + [last], |stem|);
    MismatchAt(s, stem, |stem| - 1);
  }

  /** A string differing from a pattern at one aligned position does not end with it. */
  lemma MismatchAt(s: string, pat: string, k: nat)
    requires k < |pat| && (|pat| <= |s| ==> AsciiUpper(s[|s| - |pat| + k]) != AsciiUpper(pat[k]))
    ensures !EndsWithIgnoringCase(s, pat)
  {
  }

  /** One removal after a space acts on the last word alone, and on a case
      variant of a word exactly as on the word. */
  lemma StripAfterSpace(base: string, w: string, f: string, stem: string, last: char)
    requires SameIgnoringCase(w, f) && ' ' !in stem && last != ' '
    ensures |StripSuffix(f, stem, last)| <= |w|
    ensures StripSuffix(base + " " + w, stem, last) == base + " " + w[..|StripSuffix(f, stem, last)|]
  {
    var s := base + " " + w;
    var long := stem + [last];
    assert ' ' !in long;
    EndsWithAfterSpace(base, w, long);
    EndsWithSameCase(w, f, long);
    EndsWithAfterSpace(base, w, stem);
    EndsWithSameCase(w, f, stem);
    var n := |StripSuffix(f, stem, last)|;
    assert s[..|s| - (|w| - n)] == base + " " + w[..n];
  }

  /** The three removals after a space act on the last word alone. */
  lemma StripSuffixesAfterSpace(base: string, w: string, f: string)
    requires SameIgnoringCase(w, f)
    ensures |StripSuffixes(f)| <= |w|
    ensures StripSuffixes(base + " " + w) == base + " " + w[..|StripSuffixes(f)|]
  {
    var f1 := StripSuffix(f, "Mah", '.');
    StripAfterSpace(base, w, f, "Mah", '.');
    var w1 := w[..|f1|];
    var f2 := StripSuffix(f1, "Mahalles", 'i');
    StripAfterSpace(base, w1, f1, "Mahalles", 'i');
    var w2 := w1[..|f2|];
    StripAfterSpace(base, w2, f2, "Mh", '.');
  }

  /** Each of the six spellings is removed entirely. */
  lemma SuffixFormsVanish(f: string)
    requires f in SuffixForms
    ensures StripSuffixes(f) == []
  {
    var p1, p3, p5 := "Mah" + ['.'], "Mahalles" + ['i'], "Mh" + ['.'];
    assert p1 == "Mah." && p3 == "Mahallesi" && p5 == "Mh.";
    if f == "Mah." {
      assert EndsWithIgnoringCase(f, p1);
    } else if f == "Mah" {
      MismatchAt(f, p1, 3);
      assert EndsWithIgnoringCase(f, "Mah");
    } else if f == "Mahallesi" {
      MismatchAt(f, p1, 0);
      MismatchAt(f, "Mah", 0);
      assert EndsWithIgnoringCase(f, p3);
    } else if f == "Mahalles" {
      MismatchAt(f, p1, 0);
      MismatchAt(f, "Mah", 0);
      MismatchAt(f, p3, 8);
      assert EndsWithIgnoringCase(f, "Mahalles");
    } else if f == "Mh." {
      MismatchAt(f, "Mah", 1);
      assert EndsWithIgnoringCase(f, p5);
    } else {
      MismatchAt(f, p5, 2);
      assert EndsWithIgnoringCase(f, "Mh");
    }
  }

  /** Any case variant of one of the six suffix spellings, after a space, is
      removed, and the canonical name before it is what remains. */
  lemma NormalizeStripsSuffixWord(base: string, w: string, f: string)
    requires Canonical(base) && f in SuffixForms && SameIgnoringCase(w, f)
    ensures Normalize(Some(base + " " + w)) == Some(base)
  {
    StripSuffixesAfterSpace(base, w, f);
    SuffixFormsVanish(f);
    assert base + " " + w[..0] == base + " ";
    TrailingSpaceTrimmed(base);
  }

  /** However wide and of whatever white space the gap between two words of a
      suffixed name, the normalised name has one space there. */
  lemma NormalizeCollapsesInnerRun(x: string, w: string, y: string, v: string, f: string)
    requires Canonical(x + " " + y)
    requires w != [] && forall i :: 0 <= i < |w| ==> IsSpace(w[i])
    requires f in SuffixForms && SameIgnoringCase(v, f)
    ensures Normalize(Some(x + w + y + " " + v)) == Some(x + " " + y)
  {
    var s := x + w + y + " " + v;
    var stripped := x + w + (y + " ");
    SuffixWordRemoved(x + w + y, v, f);
    assert x + w + y + " " == stripped;
    WidenedGapTrimmed(x, w, y);
  }

  /** A canonical two-part name followed by a space, with its gap widened to
      any run of white space, collapses and trims back to the name. */
  lemma WidenedGapTrimmed(x: string, w: string, y: string)
    requires Canonical(x + " " + y)
    requires w != [] && forall i :: 0 <= i < |w| ==> IsSpace(w[i])
    ensures Trim(CollapseSpaces(x + w + (y + " "))) == x + " " + y
  {
    WidenedGapCollapses(x, w, y);
    TrailingSpaceTrimmed(x + " " + y);
  }

  /** Widening the gap of a canonical two-part name followed by a space does
      not change its collapsed form. */
  lemma WidenedGapCollapses(x: string, w: string, y: string)
    requires Canonical(x + " " + y)
    requires w != [] && forall i :: 0 <= i < |w| ==> IsSpace(w[i])
    ensures CollapseSpaces(x + w + (y + " ")) == CollapseSpaces(x + " " + y + " ")
  {
    CanonicalAroundSpace(x, y);
    assert (y + " ")[0] == y[0];
    RunsCollapseAlike(x, w, " ", y + " ");
    assert x + " " + (y + " ") == x + " " + y + " ";
  }

  /** Two runs of white space in the same place collapse to the same string. */
  lemma RunsCollapseAlike(a: string, w: string, w': string, b: string)
    requires a == [] || !IsSpace(a[|a| - 1])
    requires w != [] && forall i :: 0 <= i < |w| ==> IsSpace(w[i])
    requires w' != [] && forall i :: 0 <= i < |w'| ==> IsSpace(w'[i])
    requires b == [] || !IsSpace(b[0])
    ensures CollapseSpaces(a + w + b) == CollapseSpaces(a + w' + b)
  {
    CollapseRun(a, w, b);
    CollapseRun(a, w', b);
  }

  /** A case variant of one of the six suffix spellings after a space is
      removed, and the space before it stays. */
  lemma SuffixWordRemoved(base: string, v: string, f: string)
    requires f in SuffixForms && SameIgnoringCase(v, f)
    ensures StripSuffixes(base + " " + v) == base + " "
  {
    StripSuffixesAfterSpace(base, v, f);
    SuffixFormsVanish(f);
    assert v[..0] == [];
  }

  /** The words either side of a space in a canonical string are non-empty and
      end, and start, with a non-space. */
  lemma CanonicalAroundSpace(x: string, y: string)
    requires Canonical(x + " " + y)
    ensures x != [] && !IsSpace(x[|x| - 1])
    ensures y != [] && !IsSpace(y[0])
  {
    var c := x + " " + y;
    assert c[|x|] == ' ';
    assert c[0] == if x == [] then ' ' else x[0];
    if x != [] {
      assert c[|x| - 1] == x[|x| - 1];
    }
    assert c[|c| - 1] == if y == [] then ' ' else y[|y| - 1];
    if y != [] {
      assert c[|x| + 1] == y[0];
    }
  }

  /** A canonical name with none of the six spellings at its end comes back unchanged. */
  lemma NormalizeKeepsPlainName(s: string)
    requires Canonical(s) && s != []
    requires forall f :: f in SuffixForms ==> !EndsWithIgnoringCase(s, f)
    ensures Normalize(Some(s)) == Some(s)
  {
    assert "Mah" + ['.'] == SuffixForms[0] && "Mah" == SuffixForms[1];
    assert "Mahalles" + ['i'] == SuffixForms[2] && "Mahalles" == SuffixForms[3];
    assert "Mh" + ['.'] == SuffixForms[4] && "Mh" == SuffixForms[5];
    assert StripSuffixes(s) == s;
    CanonicalFixed(s);
  }

  /** The suffixes are removed before the white space is trimmed, so a canonical
      name followed by a space keeps any suffix it ends with. */
  lemma NormalizeKeepsSuffixBeforeSpace(base: string)
    requires Canonical(base)
    ensures Normalize(Some(base + " ")) == Some(base)
  {
    TrailingSpaceBlocksStripping(base + " ");
    TrailingSpaceTrimmed(base);
  }

  /** One pass removes only the last suffix of a doubly suffixed name. */
  lemma NormalizeRemovesOnlyLastSuffix()
    ensures Normalize(Some("Moda Mh. Mah.")) == Some("Moda Mh.")
  {
    var first := "Moda Mh.";
    assert forall i :: 0 <= i < |first| && IsSpace(first[i]) ==> i == 4;
    assert SameIgnoringCase("Mah.", "Mah.");
    assert "Moda Mh. Mah." == first + " " + "Mah.";
    NormalizeStripsSuffixWord(first, "Mah.", "Mah.");
  }

  /** The abbreviated suffix `Mh.` is removed. */
  lemma NormalizeRemovesMh()
    ensures Normalize(Some("Moda Mh.")) == Some("Moda")
  {
    var second := "Moda";
    assert forall i :: 0 <= i < |second| ==> !IsSpace(second[i]);
    assert SameIgnoringCase("Mh.", "Mh.");
    assert "Moda Mh." == second + " " + "Mh.";
    NormalizeStripsSuffixWord(second, "Mh.", "Mh.");
  }

  /** Each pattern is applied once, so normalising is not idempotent: a second
      pass can remove a suffix that the first one uncovered. */
  lemma NormalizeNotIdempotent()
    ensures Normalize(Normalize(Some("Moda Mh. Mah."))) != Normalize(Some("Moda Mh. Mah."))
  {
    NormalizeRemovesOnlyLastSuffix();
    NormalizeRemovesMh();
  }

  /** A name made of white space only is truthy but normalises to the empty string. */
  lemma NormalizeBlank(s: string)
    requires s != [] && forall i :: 0 <= i < |s| ==> IsSpace(s[i])
    ensures Normalize(Some(s)) == Some("")
  {
    TrailingSpaceBlocksStripping(s);
    var c := CollapseSpaces(s);
    assert forall i :: 0 <= i < |c| ==> IsSpace(c[i]) by {
      BlankCollapse(s);
    }
    TrimEmptyIffBlank(c);
  }

  /** Collapsing a blank string gives one space. */
  lemma BlankCollapse(s: string)
    requires s != [] && forall i :: 0 <= i < |s| ==> IsSpace(s[i])
    ensures CollapseSpaces(s) == " "
  {
    assert TrimStart(s) == [];
  }
}
