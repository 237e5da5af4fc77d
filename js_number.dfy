/** The JavaScript number conversions the pages use (`Number(string)`,
    `parseInt(string)`) and the number operations `||` and `+`, on a number
    model that holds the integers and NaN. */
module JsNumber {
  import opened JsString

  /** A JavaScript number as far as the pages compute with it: an integer or NaN. */
  datatype JsNum = Num(value: int) | NaN

  /** `0` and `NaN` are the falsy numbers. */
  predicate IsTruthy(n: JsNum) {
    n.Num? && n.value != 0
  }

  /** `a || b` on numbers: `a` when it is truthy, `b` otherwise. */
  function Or(a: JsNum, b: JsNum): (r: JsNum)
    ensures IsTruthy(a) ==> r == a
    ensures !IsTruthy(a) ==> r == b
  {
    if IsTruthy(a) then a else b
  }

  /** `a + b`: NaN absorbs. */
  function Plus(a: JsNum, b: JsNum): (r: JsNum)
    ensures r.NaN? <==> a.NaN? || b.NaN?
    ensures r.Num? ==> r.value == a.value + b.value
  {
    if a.Num? && b.Num? then Num(a.value + b.value) else NaN
  }

  function DigitValue(c: char): nat
    requires IsDigit(c)
  {
    c as int - '0' as int
  }

  /** The value of a string of decimal digits; the empty string is 0. */
  function DecimalValue(s: string): nat
    requires AllDigits(s)
  {
    if s == [] then 0 else DecimalValue(s[..|s| - 1]) * 10 + DigitValue(s[|s| - 1])
  }

  predicate IsHexDigit(c: char) {
    IsDigit(c) || 'a' <= c <= 'f' || 'A' <= c <= 'F'
  }

  function HexDigitValue(c: char): nat
    requires IsHexDigit(c)
  {
    if IsDigit(c) then DigitValue(c)
    else if 'a' <= c <= 'f' then c as int - 'a' as int + 10
    else c as int - 'A' as int + 10
  }

  function HexValue(s: string): nat
    requires forall i :: 0 <= i < |s| ==> IsHexDigit(s[i])
  {
    if s == [] then 0 else HexValue(s[..|s| - 1]) * 16 + HexDigitValue(s[|s| - 1])
  }

  /** The longest prefix of `s` made of characters satisfying `p`. */
  function LongestPrefix(s: string, p: char -> bool): (r: string)
    ensures |r| <= |s| && r == s[..|r|]
    ensures forall i :: 0 <= i < |r| ==> p(r[i])
    ensures |r| < |s| ==> !p(s[|r|])
  {
    if s != [] && p(s[0]) then [s[0]] + LongestPrefix(s[1..], p) else []
  }

  /** `Number(s)` for a string: surrounding white space is ignored, the empty
      string is 0, decimal digits with an optional sign are their value, and
      anything else is NaN (see the README for the numeric syntaxes this leaves out). The white
      space is skipped one character at a time; `ToNumberOfTrim` shows this is
      the same as reading the trimmed string. */
  function ToNumber(s: string): JsNum
    decreases |s|
  {
    if s != [] && IsSpace(s[0]) then ToNumber(s[1..])
    else if s != [] && IsSpace(s[|s| - 1]) then ToNumber(s[..|s| - 1])
    else NumberOfText(s)
  }

  /** A string without surrounding white space read as a number: decimal
      digits, optionally after one sign, give their value; the empty string
      gives 0; anything else gives NaN. */
  function NumberOfText(t: string): JsNum
  {
    if AllDigits(t) then Num(DecimalValue(t))
    else if |t| >= 2 && t[0] == '-' && AllDigits(t[1..]) then Num(-(DecimalValue(t[1..]) as int))
    else if |t| >= 2 && t[0] == '+' && AllDigits(t[1..]) then Num(DecimalValue(t[1..]))
    else NaN
  }

  /** `Number(s)` reads `s.trim()`: the value of its digits with their
      optional sign, 0 when it is empty, and NaN when it holds anything else. */
  lemma {:induction false} ToNumberOfTrim(s: string)
    ensures ToNumber(s) == NumberOfText(Trim(s))
    decreases |s|
  {
    if s != [] && IsSpace(s[0]) {
      ToNumberOfTrim(s[1..]);
      TrimDropsLeading(s);
    } else if s != [] && IsSpace(s[|s| - 1]) {
      ToNumberOfTrim(s[..|s| - 1]);
      TrimDropsTrailing(s);
    } else {
      BorderedNumber(s);
    }
  }

  /** One sign before non-empty decimal digits is read: `-` negates, `+`
      keeps the value. */
  lemma ToNumberOfSigned(digits: string)
    requires digits != [] && AllDigits(digits)
    ensures ToNumber("-" + digits) == Num(-(DecimalValue(digits) as int))
    ensures ToNumber("+" + digits) == Num(DecimalValue(digits))
  {
    SignedText('-', digits);
    SignedText('+', digits);
  }

  lemma SignedText(sign: char, digits: string)
    requires sign == '-' || sign == '+'
    requires digits != [] && AllDigits(digits)
    ensures ToNumber([sign] + digits) == (if sign == '-' then Num(-(DecimalValue(digits) as int)) else Num(DecimalValue(digits)))
  {
    var t := [sign] + digits;
    assert t[0] == sign && t[1..] == digits;
    assert !IsSpace(t[0]) && t[|t| - 1] == digits[|digits| - 1];
    assert !AllDigits(t);
  }

  lemma BorderedNumber(s: string)
    requires s != [] ==> !IsSpace(s[0]) && !IsSpace(s[|s| - 1])
    ensures ToNumber(s) == NumberOfText(Trim(s))
  {
    TrimOfBordered(s);
  }

  /** `Number` of a digit string is its decimal value; of a blank string, 0. */
  lemma {:induction false} ToNumberOfDigits(s: string)
    ensures AllDigits(s) ==> ToNumber(s) == Num(DecimalValue(s))
    ensures (forall i :: 0 <= i < |s| ==> IsSpace(s[i])) ==> ToNumber(s) == Num(0)
    decreases |s|
  {
    if s != [] && IsSpace(s[0]) {
      ToNumberOfDigits(s[1..]);
      assert !AllDigits(s);
      assert (forall i :: 0 <= i < |s| ==> IsSpace(s[i])) ==> (forall i :: 0 <= i < |s| - 1 ==> IsSpace(s[1..][i]));
    } else if s != [] {
      assert !(forall i :: 0 <= i < |s| ==> IsSpace(s[i]));
      assert AllDigits(s) ==> !IsSpace(s[|s| - 1]);
    }
  }

  /** `parseInt(s)` with no radix: leading white space is skipped, then an
      optional sign, then a `0x`/`0X` prefix selects base 16; the longest run of
      digits of the base is read, and no digit at all gives NaN. */
  function ParseInt(s: string): JsNum
  {
    Signed(TrimStart(s))
  }

  /** The optional sign, then the magnitude. */
  function Signed(t: string): JsNum
  {
    var negative := t != [] && t[0] == '-';
    var u := if t != [] && (t[0] == '-' || t[0] == '+') then t[1..] else t;
    var m := Magnitude(u);
    if m.NaN? then NaN else if negative then Num(-m.value) else m
  }

  /** The digits after the sign, hexadecimal after `0x` or `0X`. */
  function Magnitude(u: string): JsNum
  {
    if |u| >= 2 && u[0] == '0' && (u[1] == 'x' || u[1] == 'X') then
      var h := LongestPrefix(u[2..], IsHexDigit);
      if h == [] then NaN else Num(HexValue(h))
    else
      var d := LongestPrefix(u, IsDigit);
      if d == [] then NaN else Num(DecimalValue(d))
  }

  /** `parseInt` of a string of decimal digits is its value; of the empty
      string, NaN. */
  lemma ParseIntOfDigits(s: string)
    requires AllDigits(s)
    ensures s != [] ==> ParseInt(s) == Num(DecimalValue(s))
    ensures s == [] ==> ParseInt(s) == NaN
  {
    DigitsUntrimmed(s);
    if s != [] {
      MagnitudeOfDigits(s);
      assert s[0] != '-' && s[0] != '+';
    }
  }

  lemma MagnitudeOfDigits(s: string)
    requires AllDigits(s) && s != []
    ensures Magnitude(s) == Num(DecimalValue(s))
  {
    assert |s| >= 2 ==> s[1] != 'x' && s[1] != 'X';
    WholePrefix(s, IsDigit);
  }

  /** When every character satisfies `p`, the longest prefix is the whole string. */
  lemma WholePrefix(s: string, p: char -> bool)
    requires forall i :: 0 <= i < |s| ==> p(s[i])
    ensures LongestPrefix(s, p) == s
  {
  }

  /** Neither end of a digit string is white space, so trimming keeps it. */
  lemma DigitsUntrimmed(s: string)
    ensures AllDigits(s) ==> TrimStart(s) == s && Trim(s) == s
  {
    if AllDigits(s) && s != [] {
      assert !IsSpace(s[0]) && !IsSpace(s[|s| - 1]);
      TrimOfBordered(s);
    }
  }

  /** The value of a two-digit string. */
  lemma TwoDigitValue(s: string)
    requires |s| == 2 && AllDigits(s)
    ensures DecimalValue(s) == 10 * DigitValue(s[0]) + DigitValue(s[1])
  {
    var h := s[..1];
    assert h[..0] == [] && h[0] == s[0];
    assert DecimalValue(h) == DigitValue(s[0]);
    assert s[..|s| - 1] == h;
  }
}
