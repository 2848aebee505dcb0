/** The JavaScript values that the components compare and convert, with the
    conversions `String(n)` and `Number(s)` restricted to integers written in decimal. */
module JsNumbers {
  import opened Options
  import opened JsStrings

  /** A JavaScript value as it reaches a comparison or a conversion here:
      `undefined`, `null`, an integral number, or a string. */
  datatype JsValue = Undefined | Null | Number(n: int) | Text(s: string)

  predicate IsDigit(c: char)
  {
    '0' <= c <= '9'
  }

  predicate AllDigits(s: string)
  {
    forall i :: 0 <= i < |s| ==> IsDigit(s[i])
  }

  function DigitChar(d: nat): (c: char)
    requires d < 10
    ensures IsDigit(c)
  {
    ('0' as int + d) as char
  }

  /** The decimal digits of `n`, without leading zeros. */
  function NatToString(n: nat): (r: string)
    ensures |r| >= 1 && AllDigits(r)
  {
    if n < 10 then [DigitChar(n)] else NatToString(n / 10) + [DigitChar(n % 10)]
  }

  /** `String(n)` for an integral number `n`: an optional minus sign and decimal digits. */
  function IntToString(n: int): (r: string)
    ensures |r| >= 1
    ensures forall i :: 0 <= i < |r| ==> IsDigit(r[i]) || r[i] == '-'
  {
    if n < 0 then "-" + NatToString(-n) else NatToString(n)
  }

  /** The value of a string of decimal digits. */
  function DigitsValue(s: string): nat
    requires AllDigits(s)
  {
    if s == [] then 0 else DigitsValue(s[..|s| - 1]) * 10 + (s[|s| - 1] as int - '0' as int)
  }

  /** The numeric value of a trimmed, non-empty string: an optional sign followed by
      decimal digits; `None` is NaN. */
  function ParseDecimal(t: string): Option<int>
  {
    if t != [] && (t[0] == '-' || t[0] == '+') then
      var d := t[1..];
      var v: int := if d != [] && AllDigits(d) then DigitsValue(d) else 0;
      if d != [] && AllDigits(d) then Some(if t[0] == '-' then -v else v)
      else None
    else if t != [] && AllDigits(t) then Some(DigitsValue(t))
    else None
  }

  /** `Number(s)`: surrounding white space is ignored and a blank string is 0;
      `None` is NaN. */
  function StringToNumber(s: string): Option<int>
  {
    var t := Trim(s);
    if t == [] then Some(0) else ParseDecimal(t)
  }

  /** The abstract operation ToNumber; `None` is NaN. */
  function ToNumber(v: JsValue): Option<int>
  {
    match v
    case Undefined => None
    case Null => Some(0)
    case Number(n) => Some(n)
    case Text(s) => StringToNumber(s)
  }

  /** `isNaN(v)`. */
  predicate IsNaN(v: JsValue)
  {
    ToNumber(v).None?
  }

  /** `a <= b` where at most one side is a string: both sides are converted to
      numbers, and a comparison with NaN is false. */
  predicate LessEq(a: JsValue, b: JsValue)
    requires !(a.Text? && b.Text?)
  {
    ToNumber(a).Some? && ToNumber(b).Some? && ToNumber(a).value <= ToNumber(b).value
  }

  /** `a < b` where at most one side is a string. */
  predicate Less(a: JsValue, b: JsValue)
    requires !(a.Text? && b.Text?)
  {
    ToNumber(a).Some? && ToNumber(b).Some? && ToNumber(a).value < ToNumber(b).value
  }

  /** Reading back the digits of a natural number gives the number. */
  lemma {:induction false} NatToStringValue(n: nat)
    ensures DigitsValue(NatToString(n)) == n
  {
    if n >= 10 {
      NatToStringValue(n / 10);
      var s := NatToString(n);
      assert s[..|s| - 1] == NatToString(n / 10);
    }
  }

  /** The decimal rendering of an integer has no white space, so `trim` leaves it alone. */
  lemma IntToStringTrimmed(n: int)
    ensures Trim(IntToString(n)) == IntToString(n)
  {
    var s := IntToString(n);
    forall i | 0 <= i < |s| ensures !IsWhitespace(s[i]) {
      assert IsDigit(s[i]) || s[i] == '-';
    }
    TrimWithoutWhitespace(s);
  }

  /** A string of digits reads as its value. */
  lemma ParseDigits(d: string)
    requires |d| >= 1 && AllDigits(d)
    ensures ParseDecimal(d) == Some(DigitsValue(d))
  {
    assert IsDigit(d[0]);
  }

  /** A minus sign followed by digits reads as the negated value. */
  lemma ParseNegative(d: string)
    requires |d| >= 1 && AllDigits(d)
    ensures ParseDecimal("-" + d) == Some(-(DigitsValue(d) as int))
  {
    var t := "-" + d;
    assert t[0] == '-' && t[1..] == d;
  }

  /** `Number(String(n)) === n`: the decimal rendering of an integer parses back to it. */
  lemma IntToStringRoundTrip(n: int)
    ensures StringToNumber(IntToString(n)) == Some(n)
  {
    IntToStringTrimmed(n);
    assert StringToNumber(IntToString(n)) == ParseDecimal(IntToString(n));
    if n < 0 {
      NatToStringValue(-n);
      ParseNegative(NatToString(-n));
    } else {
      NatToStringValue(n);
      ParseDigits(NatToString(n));
    }
  }
}
