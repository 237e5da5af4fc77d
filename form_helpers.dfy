/** The input helpers of the listing-check and comparison pages: digit
    filtering for the numeric inputs, dot removal for the price input, the
    room-count parser and the verdict colour. The comparison page repeats the
    same definitions; its two unguarded variants are here too, proved equal. */
module FormHelpers {
  import opened JsString
  import opened JsNumber

  /** The six room options offered by both pages, in display order. */
  const RoomOptions: seq<string> := ["Stüdyo", "1+1", "2+1", "3+1", "4+1", "5+1"]

  /** `formatNumber`: nothing for an empty input, otherwise `replace(/\D/g, '')`. */
  function FormatNumber(value: string): (r: string)
    ensures AllDigits(r)
    ensures |r| <= |value|
  {
    if value == [] then [] else Filter(value, IsDigit)
  }

  /** Every digit of the input is kept, as often as it occurs, and nothing else. */
  lemma FormatNumberCounts(value: string)
    ensures forall c :: multiset(FormatNumber(value))[c] == if IsDigit(c) then multiset(value)[c] else 0
  {
    FilterCounts(value, IsDigit);
  }

  /** The digits of a concatenation are the digits of each part, in order. */
  lemma FormatNumberAppend(a: string, b: string)
    ensures FormatNumber(a + b) == FormatNumber(a) + FormatNumber(b)
  {
    if a == [] {
      assert a + b == b;
    } else {
      FilterAppend(a, b, IsDigit);
      assert FormatNumber(b) == Filter(b, IsDigit);
    }
  }

  /** A digit string is left as it is, so filtering twice is filtering once. */
  lemma FormatNumberIdempotent(value: string)
    ensures FormatNumber(FormatNumber(value)) == FormatNumber(value)
  {
    FormatNumberKeepsDigits(FormatNumber(value));
  }

  lemma FormatNumberKeepsDigits(value: string)
    requires AllDigits(value)
    ensures FormatNumber(value) == value
  {
    if value != [] {
      FilterKeepsAll(value, IsDigit);
    }
  }

  /** `formatNumber` of the comparison page, without the empty-input guard. */
  function FormatNumberUnguarded(value: string): (r: string)
    ensures r == FormatNumber(value)
  {
    Filter(value, IsDigit)
  }

  /** What the price input displays: nothing when the input holds no digit,
      otherwise its digits grouped by `toLocaleString('tr-TR')`, which is kept
      abstract here. */
  datatype PriceDisplay = Blank | Grouped(digits: string)

  /** `formatPrice`: blank for an empty input and for an input without digits. */
  function FormatPrice(value: string): (r: PriceDisplay)
    ensures r.Blank? <==> forall i :: 0 <= i < |value| ==> !IsDigit(value[i])
    ensures r.Grouped? ==> r.digits != [] && r.digits == FormatNumber(value)
  {
    if value == [] then Blank
    else
      var numbers := Filter(value, IsDigit);
      NoDigitsFilterEmpty(value);
      if numbers == [] then Blank else Grouped(numbers)
  }

  /** `formatPrice` of the comparison page, without the empty-input guard. */
  function FormatPriceUnguarded(value: string): (r: PriceDisplay)
    ensures r == FormatPrice(value)
  {
    var numbers := Filter(value, IsDigit);
    NoDigitsFilterEmpty(value);
    if numbers == [] then Blank else Grouped(numbers)
  }

  /** The digit filter is empty exactly when the input has no digit. */
  lemma NoDigitsFilterEmpty(value: string)
    ensures Filter(value, IsDigit) == [] <==> forall i :: 0 <= i < |value| ==> !IsDigit(value[i])
  {
    var f := Filter(value, IsDigit);
    FilterCounts(value, IsDigit);
    if f == [] {
      forall i | 0 <= i < |value| ensures !IsDigit(value[i]) {
        assert value[i] in multiset(value);
        assert multiset(f)[value[i]] == 0;
      }
    } else {
      assert f[0] in multiset(f);
      assert multiset(value)[f[0]] > 0;
      var i :| 0 <= i < |value| && value[i] == f[0];
      assert IsDigit(value[i]);
    }
  }

  predicate NotDot(c: char) {
    c != '.'
  }

  /** `parsePrice`: `replace(/\./g, '')`, every `.` removed and everything else kept. */
  function ParsePrice(value: string): (r: string)
    ensures '.' !in r
  {
    var r := Filter(value, NotDot);
    assert forall i :: 0 <= i < |r| ==> r[i] != '.';
    r
  }

  /** Every other character keeps its number of occurrences. */
  lemma ParsePriceCounts(value: string)
    ensures forall c :: c != '.' ==> multiset(ParsePrice(value))[c] == multiset(value)[c]
  {
    FilterCounts(value, NotDot);
  }

  /** The kept characters stay in their order. */
  lemma ParsePriceAppend(a: string, b: string)
    ensures ParsePrice(a + b) == ParsePrice(a) + ParsePrice(b)
  {
    FilterAppend(a, b, NotDot);
  }

  /** Removing the dots twice is removing them once; a string without dots is unchanged. */
  lemma ParsePriceIdempotent(value: string)
    ensures ParsePrice(ParsePrice(value)) == ParsePrice(value)
  {
    FilterIdempotent(value, NotDot);
  }

  lemma ParsePriceWithoutDots(value: string)
    requires '.' !in value
    ensures ParsePrice(value) == value
  {
    FilterKeepsAll(value, NotDot);
  }

  /** The grouped display of a price reads back as its digits: `parsePrice`
      undoes the dots that grouping inserts. */
  lemma {:induction false} ParsePriceOfGroupedDigits(groups: seq<string>)
    requires |groups| >= 1 && forall k :: 0 <= k < |groups| ==> AllDigits(groups[k])
    ensures ParsePrice(Join(groups, '.')) == Concat(groups)
    decreases |groups|
  {
    DigitsHaveNoDot(groups[0]);
    if |groups| > 1 {
      var rest := Join(groups[1..], '.');
      assert Join(groups, '.') == groups[0] + ['.'] + rest;
      assert Concat(groups) == groups[0] + Concat(groups[1..]);
      ParsePriceOfGroupedDigits(groups[1..]);
      ParsePriceSkipsDot(groups[0], rest);
    } else {
      ParsePriceWithoutDots(groups[0]);
      assert Concat(groups) == groups[0] + Concat([]);
    }
  }

  lemma DigitsHaveNoDot(n: string)
    requires AllDigits(n)
    ensures '.' !in n
  {
    assert forall i :: 0 <= i < |n| ==> IsDigit(n[i]);
  }

  /** A dot after a dot-free prefix disappears and the prefix stays. */
  lemma ParsePriceSkipsDot(a: string, rest: string)
    requires '.' !in a
    ensures ParsePrice(a + ['.'] + rest) == a + ParsePrice(rest)
  {
    ParsePriceAppend(a + ['.'], rest);
    ParsePriceAppend(a, ['.']);
    ParsePriceWithoutDots(a);
    assert ParsePrice(['.']) == [];
  }

  /** The pieces concatenated. */
  function Concat(parts: seq<string>): string
  {
    if parts == [] then [] else parts[0] + Concat(parts[1..])
  }

  /** Digit groups concatenated are digits. */
  lemma {:induction false} ConcatOfDigits(groups: seq<string>)
    requires forall k :: 0 <= k < |groups| ==> AllDigits(groups[k])
    ensures AllDigits(Concat(groups))
    decreases |groups|
  {
    if groups != [] {
      ConcatOfDigits(groups[1..]);
      var rest := Concat(groups[1..]);
      assert forall i :: 0 <= i < |groups[0] + rest| ==>
        (groups[0] + rest)[i] == if i < |groups[0]| then groups[0][i] else rest[i - |groups[0]|];
    }
  }

  /** `reduce((a, b) => a + b, 0)` over the pieces mapped through `Number`. */
  function SumOfNumbers(parts: seq<string>): JsNum
  {
    if parts == [] then Num(0)
    else Plus(SumOfNumbers(parts[..|parts| - 1]), ToNumber(parts[|parts| - 1]))
  }

  /** `parseRooms`: 0 for no choice, 1 for a studio, otherwise the sum of the
      `+`-separated numbers (NaN when one of them is not a number). */
  function ParseRooms(rooms: string): JsNum
  {
    if rooms == [] then Num(0)
    else if rooms == "Stüdyo" then Num(1)
    else SumOfNumbers(Split(rooms, '+'))
  }

  /** A digit string holds no `+`. */
  lemma DigitsHaveNoPlus(n: string)
    requires AllDigits(n)
    ensures '+' !in n
  {
    assert forall i :: 0 <= i < |n| ==> IsDigit(n[i]);
  }

  /** `n+m` for two digit strings is the sum of their values. */
  lemma ParseRoomsOfSum(n: string, m: string)
    requires n != [] && AllDigits(n) && AllDigits(m)
    ensures ParseRooms(n + "+" + m) == Num(DecimalValue(n) + DecimalValue(m))
  {
    SumIsNotStudio(n, m);
    SplitOfSum(n, m);
    ToNumberOfDigits(n);
    ToNumberOfDigits(m);
    SumOfTwo([n, m], DecimalValue(n), DecimalValue(m));
  }

  lemma SumIsNotStudio(n: string, m: string)
    requires n != [] && AllDigits(n)
    ensures n + "+" + m != [] && n + "+" + m != "Stüdyo"
  {
    var s := n + "+" + m;
    assert s[|n|] == '+';
    assert '+' !in "Stüdyo";
  }

  lemma SplitOfSum(n: string, m: string)
    requires AllDigits(n) && AllDigits(m)
    ensures Split(n + "+" + m, '+') == [n, m]
  {
    DigitsHaveNoPlus(n);
    DigitsHaveNoPlus(m);
    SplitAtFirst(n, '+', m);
    SplitNoSeparator(m, '+');
    assert n + "+" + m == n + ['+'] + m;
  }

  /** The sum adds the pieces left to right, as `reduce` does. */
  lemma SumOfNumbersSnoc(parts: seq<string>, x: string)
    ensures SumOfNumbers(parts + [x]) == Plus(SumOfNumbers(parts), ToNumber(x))
  {
    assert (parts + [x])[..|parts|] == parts;
  }

  /** Two pieces reading as `a` and `b` sum to `a + b`. */
  lemma SumOfTwo(parts: seq<string>, a: int, b: int)
    requires |parts| == 2 && ToNumber(parts[0]) == Num(a) && ToNumber(parts[1]) == Num(b)
    ensures SumOfNumbers(parts) == Num(a + b)
  {
    SumOfFirstValue(parts, a);
    SumOfLast(parts, a, b);
  }

  lemma SumOfFirstValue(parts: seq<string>, a: int)
    requires |parts| >= 1 && ToNumber(parts[0]) == Num(a)
    ensures SumOfNumbers(parts[..1]) == Num(a)
  {
    var first := parts[..1];
    assert first[..0] == [];
  }

  /** The last piece's number is added to the sum of the others. */
  lemma SumOfLast(parts: seq<string>, a: int, b: int)
    requires |parts| >= 1 && SumOfNumbers(parts[..|parts| - 1]) == Num(a)
    requires ToNumber(parts[|parts| - 1]) == Num(b)
    ensures SumOfNumbers(parts) == Num(a + b)
  {
  }

  /** Adding a digit string to a numeric sum adds its value. */
  lemma SumOfDigitsSnoc(parts: seq<string>, x: string)
    requires AllDigits(x) && SumOfNumbers(parts).Num?
    ensures SumOfNumbers(parts + [x]) == Num(SumOfNumbers(parts).value + DecimalValue(x))
  {
    var xs := parts + [x];
    assert xs[..|xs| - 1] == parts;
    ToNumberOfDigits(x);
  }

  lemma SumOfOne(n: string)
    requires AllDigits(n)
    ensures SumOfNumbers([n]) == Num(DecimalValue(n))
  {
    SumOfDigitsSnoc([], n);
    assert [] + [n] == [n];
  }

  /** A single digit string is its own value. */
  lemma ParseRoomsOfDigits(n: string)
    requires n != [] && AllDigits(n)
    ensures ParseRooms(n) == Num(DecimalValue(n))
  {
    assert n != "Stüdyo" by {
      assert IsDigit(n[0]) && n[0] != 'S';
    }
    DigitsHaveNoPlus(n);
    SplitNoSeparator(n, '+');
    SumOfOne(n);
  }

  /** The six options count 1 to 6 rooms, in order. */
  lemma RoomOptionValues()
    ensures forall k :: 0 <= k < |RoomOptions| ==> ParseRooms(RoomOptions[k]) == Num(k + 1)
  {
    forall k | 1 <= k < 6 ensures ParseRooms(RoomOptions[k]) == Num(k + 1) {
      var d := [('0' as int + k) as char];
      assert RoomOptions[k] == d + "+" + "1";
      assert DecimalValue(d) == k by {
        assert d[..0] == [];
      }
      assert DecimalValue("1") == 1 by {
        assert "1"[..0] == [];
      }
      ParseRoomsOfSum(d, "1");
    }
  }

  /** The colour of a verdict badge. */
  datatype Color = Green | Red | Blue

  /** `getVerdictColor`: green when the verdict contains `IYI` or `İYİ`,
      otherwise red when it contains `KOTU` or `KÖTÜ`, otherwise, and for an
      absent verdict, blue. The matching is case-sensitive. */
  function VerdictColor(verdict: Option<string>): (c: Color)
    ensures c == Green <==> verdict.Some? && (Includes(verdict.value, "IYI") || Includes(verdict.value, "İYİ"))
    ensures c == Red <==> verdict.Some? && !(Includes(verdict.value, "IYI") || Includes(verdict.value, "İYİ"))
                                       && (Includes(verdict.value, "KOTU") || Includes(verdict.value, "KÖTÜ"))
  {
    if verdict.Some? && (Includes(verdict.value, "IYI") || Includes(verdict.value, "İYİ")) then Green
    else if verdict.Some? && (Includes(verdict.value, "KOTU") || Includes(verdict.value, "KÖTÜ")) then Red
    else Blue
  }

  /** A verdict without the capitals `I` and `İ` is never green, and one that
      also lacks `K` is blue: lower-case wording does not count. */
  lemma VerdictColorNeedsCapitals(v: string)
    requires 'I' !in v && 'İ' !in v
    ensures VerdictColor(Some(v)) != Green
    ensures 'K' !in v ==> VerdictColor(Some(v)) == Blue
  {
    if Includes(v, "IYI") { IncludesChars(v, "IYI", 'I'); }
    if Includes(v, "İYİ") { IncludesChars(v, "İYİ", 'İ'); }
    if 'K' !in v {
      if Includes(v, "KOTU") { IncludesChars(v, "KOTU", 'K'); }
      if Includes(v, "KÖTÜ") { IncludesChars(v, "KÖTÜ", 'K'); }
    }
  }

  /** Whatever else a verdict says, a good marker anywhere in it makes it green. */
  lemma VerdictColorGoodWins(a: string, b: string)
    ensures VerdictColor(Some(a + "İYİ" + b)) == Green
  {
    var v := a + "İYİ" + b;
    assert OccursAt(v, "İYİ", |a|) by {
      assert v[|a|..|a| + 3] == "İYİ";
    }
  }
}
