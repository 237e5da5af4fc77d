/** The market-trends page's two rules: naming the month of a `YYYY-MM` date
    and classifying the price trend into a demand level. */
module Trends {
  import opened JsString
  import opened JsNumber

  /** The Turkish month names, January first. */
  const Months: seq<string> := [
    "Ocak", "Şubat", "Mart", "Nisan", "Mayıs", "Haziran",
    "Temmuz", "Ağustos", "Eylül", "Ekim", "Kasım", "Aralık"]

  /** `months[parseInt(month) - 1]` as text: the month's name, or `undefined`
      when the number is not 1 to 12 or did not parse. */
  function MonthName(month: Option<string>): string
  {
    // `parseInt(undefined)` reads the text `undefined` and gives NaN.
    MonthOfNumber(if month.Some? then ParseInt(month.value) else NaN)
  }

  /** `months[n - 1]` as text. */
  function MonthOfNumber(n: JsNum): string
  {
    if n.Num? && 1 <= n.value <= 12 then Months[n.value - 1] else "undefined"
  }

  /** A month of decimal digits from 1 to 12 names that month. */
  lemma MonthNameInRange(mm: string)
    requires AllDigits(mm) && mm != [] && 1 <= DecimalValue(mm) <= 12
    ensures MonthName(Some(mm)) == Months[DecimalValue(mm) - 1]
  {
    ParseIntOfDigits(mm);
    MonthNameOfNumber(mm, DecimalValue(mm));
  }

  lemma MonthNameOfNumber(mm: string, v: int)
    requires 1 <= v <= 12 && ParseInt(mm) == Num(v)
    ensures MonthName(Some(mm)) == Months[v - 1]
  {
  }

  /** A month of decimal digits outside 1 to 12 names no month. */
  lemma MonthNameOutOfRange(mm: string)
    requires AllDigits(mm) && mm != [] && !(1 <= DecimalValue(mm) <= 12)
    ensures MonthName(Some(mm)) == "undefined"
  {
    ParseIntOfDigits(mm);
    assert MonthName(Some(mm)) == MonthOfNumber(Num(DecimalValue(mm)));
  }

  /** `formatMonth`: the date is split at its dashes, the first piece is kept
      as the year and the second names the month. */
  function FormatMonth(date: string): string
  {
    var parts := Split(date, '-');
    var month := if |parts| >= 2 then Some(parts[1]) else None;
    MonthName(month) + " " + parts[0]
  }

  /** A `YYYY-MM` date with a month from 01 to 12 gives that month's name, a
      space and the year text unchanged. */
  lemma FormatMonthOfDate(year: string, mm: string)
    requires '-' !in year && |mm| == 2 && AllDigits(mm)
    requires 1 <= 10 * DigitValue(mm[0]) + DigitValue(mm[1]) <= 12
    ensures FormatMonth(year + "-" + mm) == Months[10 * DigitValue(mm[0]) + DigitValue(mm[1]) - 1] + " " + year
  {
    TwoDigitValue(mm);
    MonthPieces(year, mm);
    MonthNameInRange(mm);
  }

  /** A month number outside 1 to 12 names no month. */
  lemma FormatMonthOutOfRange(year: string, mm: string)
    requires '-' !in year && mm != [] && AllDigits(mm)
    requires DecimalValue(mm) == 0 || DecimalValue(mm) > 12
    ensures FormatMonth(year + "-" + mm) == "undefined " + year
  {
    MonthPieces(year, mm);
    FormatMonthOfParts(year + "-" + mm, year, mm);
    MonthNameOutOfRange(mm);
    UndefinedThen(MonthName(Some(mm)), year);
  }

  lemma UndefinedThen(u: string, rest: string)
    requires u == "undefined"
    ensures u + " " + rest == "undefined " + rest
  {
    assert u + " " == "undefined ";
  }

  lemma FormatMonthOfParts(date: string, year: string, mm: string)
    requires Split(date, '-') == [year, mm]
    ensures FormatMonth(date) == MonthName(Some(mm)) + " " + year
  {
  }

  /** A date without a dash has no month part. */
  lemma FormatMonthWithoutDash(date: string)
    requires '-' !in date
    ensures FormatMonth(date) == "undefined " + date
  {
    SplitNoSeparator(date, '-');
  }

  lemma MonthPieces(year: string, mm: string)
    requires '-' !in year && AllDigits(mm)
    ensures Split(year + "-" + mm, '-') == [year, mm]
  {
    assert year + "-" + mm == year + ['-'] + mm;
    SplitAtFirst(year, '-', mm);
    SplitNoSeparator(mm, '-');
  }

  // ------------------------------------------------------ demand

  datatype Demand = VeryHigh | High | Medium | Low

  /** The label shown for each level. */
  function Label(d: Demand): string
  {
    match d
    case VeryHigh => "Çok Yüksek"
    case High => "Yüksek"
    case Medium => "Orta"
    case Low => "Düşük"
  }

  /** The demand level of a trend percentage: above 5 very high, above 2 high,
      above -2 medium, otherwise low. */
  function DemandOf(trend: real): (d: Demand)
    ensures d == VeryHigh <==> trend > 5.0
    ensures d == High <==> 2.0 < trend <= 5.0
    ensures d == Medium <==> -2.0 < trend <= 2.0
    ensures d == Low <==> trend <= -2.0
  {
    if trend > 5.0 then VeryHigh
    else if trend > 2.0 then High
    else if trend > -2.0 then Medium
    else Low
  }

  /** The levels in increasing order. */
  function Rank(d: Demand): nat
  {
    match d
    case Low => 0
    case Medium => 1
    case High => 2
    case VeryHigh => 3
  }

  /** A higher trend never gives a lower demand level. */
  lemma DemandMonotone(a: real, b: real)
    requires a <= b
    ensures Rank(DemandOf(a)) <= Rank(DemandOf(b))
  {
  }

  /** `data.trendInfo.trend || 0`: the trend percentage the page works with.
      `None` stands for every falsy value the response can carry there
      (missing, `null`, NaN); all of them become 0, and a number is kept,
      0 included. */
  function TrendPercent(trend: Option<real>): (r: real)
    ensures trend.None? ==> r == 0.0
    ensures trend.Some? ==> r == trend.value
  {
    if trend.Some? && trend.value != 0.0 then trend.value else 0.0
  }

  /** The demand level shown for the trend of a response. */
  function ShownDemand(trend: Option<real>): string
  {
    Label(DemandOf(TrendPercent(trend)))
  }

  /** A missing, null or NaN trend counts as 0 and is shown as medium demand,
      the same as a trend of exactly 0. */
  lemma MissingTrendIsMedium()
    ensures ShownDemand(None) == "Orta"
    ensures ShownDemand(None) == ShownDemand(Some(0.0))
  {
  }
}
