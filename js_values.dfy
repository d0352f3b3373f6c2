/**
 * The JavaScript values that reach the core (request bodies, query
 * parameters, driver rows) and the coercions the source applies to them:
 * truthiness and `||`, `Number(...)`, `String(n)` and `padStart`.
 *
 * `Number` on text accepts optional surrounding white space, an optional sign
 * and a decimal numeral with at most one point; the empty (or all-blank) text
 * is 0 and anything else is NaN. NaN is modelled as `None`.
 */
module JsValues {
  import opened Wrappers
  import opened Text

  /** A JavaScript value as the handlers receive it. */
  datatype Value = Undefined | Null | Num(n: real) | NaN | Str(s: string)

  /** JavaScript truthiness: `undefined`, `null`, `0`, `NaN` and `""` are falsy. */
  predicate Truthy(v: Value) {
    match v
    case Num(n) => n != 0.0
    case Str(s) => s != []
    case _ => false
  }

  /** `v || d`. */
  function Or(v: Value, d: Value): Value {
    if Truthy(v) then v else d
  }

  predicate IsDigit(c: char) {
    '0' <= c <= '9'
  }

  predicate AllDigits(s: string) {
    forall i :: 0 <= i < |s| ==> IsDigit(s[i])
  }

  function DigitValue(c: char): nat
    requires IsDigit(c)
  {
    c as int - '0' as int
  }

  function Digit(d: nat): (c: char)
    requires d < 10
    ensures IsDigit(c) && DigitValue(c) == d
  {
    ('0' as int + d) as char
  }

  /** The value of a string of decimal digits, read left to right. */
  function DigitsValue(ds: string): nat
    requires AllDigits(ds)
  {
    if ds == [] then 0 else DigitsValue(ds[..|ds| - 1]) * 10 + DigitValue(ds[|ds| - 1])
  }

  function Pow10(k: nat): (p: nat)
    ensures p >= 1
  {
    if k == 0 then 1 else 10 * Pow10(k - 1)
  }

  /** An unsigned decimal numeral `digits[.digits]` with at least one digit, or NaN. */
  function ParseUnsigned(t: string): Option<real> {
    var k := IndexOf(t, '.');
    var whole := t[..k];
    var frac := if k < |t| then t[k + 1..] else [];
    if AllDigits(whole) && AllDigits(frac) && |whole| + |frac| > 0 then Some(NumeralValue(whole, frac)) else None
  }

  /** The value of the numeral `whole.frac`. */
  function NumeralValue(whole: string, frac: string): real
    requires AllDigits(whole) && AllDigits(frac)
  {
    DigitsValue(whole) as real + DigitsValue(frac) as real / Pow10(|frac|) as real
  }

  /** `Number(s)` for a string `s`. */
  function ParseNumber(s: string): Option<real> {
    ParseSigned(Trim(s))
  }

  /** `Number` on text that is already trimmed. */
  function ParseSigned(t: string): Option<real> {
    if t == [] then Some(0.0)
    else if t[0] == '-' then
      match ParseUnsigned(t[1..])
      case Some(x) => Some(-x)
      case None => None
    else if t[0] == '+' then ParseUnsigned(t[1..])
    else ParseUnsigned(t)
  }

  /** `Number(v)`; `None` stands for NaN. */
  function ToNumber(v: Value): Option<real> {
    match v
    case Undefined => None
    case Null => Some(0.0)
    case Num(n) => Some(n)
    case NaN => None
    case Str(s) => ParseNumber(s)
  }

  /** The JavaScript number a coercion produced, NaN included. */
  function FromNumber(n: Option<real>): Value {
    match n
    case Some(x) => Num(x)
    case None => NaN
  }

  /** `Number(v) || d`: NaN and zero fall back to `d`. */
  function NumberOr(v: Value, d: real): real {
    match ToNumber(v)
    case Some(x) => if x != 0.0 then x else d
    case None => d
  }

  /**
   * `Number(searchParams.get(name)) || d`: a missing parameter is `null`,
   * which is 0 and falls back like zero and NaN do.
   */
  function NumberParamOr(param: Option<string>, d: real): (r: real)
    ensures param.None? ==> r == d
    ensures param.Some? && ParseNumber(param.value).Some? && ParseNumber(param.value).value != 0.0 ==>
      r == ParseNumber(param.value).value
    ensures param.Some? && (ParseNumber(param.value).None? || ParseNumber(param.value).value == 0.0) ==> r == d
  {
    NumberOr(if param.Some? then Str(param.value) else Null, d)
  }

  /** `String(n)` for a natural number. */
  function NatToString(n: nat): (r: string)
    ensures |r| >= 1 && AllDigits(r)
  {
    if n < 10 then [Digit(n)] else NatToString(n / 10) + [Digit(n % 10)]
  }

  /** `String(i)` for an integer. */
  function IntToString(i: int): (r: string)
    ensures |r| >= 1
    ensures i >= 0 ==> AllDigits(r)
    ensures i < 0 ==> r[0] == '-'
  {
    if i < 0 then "-" + NatToString(-i) else NatToString(i)
  }

  /** `String(n)` reads back as `n`: decimal text is a faithful code for naturals. */
  lemma {:induction false} NatToStringValue(n: nat)
    ensures DigitsValue(NatToString(n)) == n
  {
    var r := NatToString(n);
    if n >= 10 {
      NatToStringValue(n / 10);
      assert r[..|r| - 1] == NatToString(n / 10);
    }
  }

  lemma IntToStringInjective(a: int, b: int)
    requires IntToString(a) == IntToString(b)
    ensures a == b
  {
    if a >= 0 && b >= 0 {
      NatToStringValue(a);
      NatToStringValue(b);
    } else if a < 0 && b < 0 {
      assert NatToString(-a) == IntToString(a)[1..] == IntToString(b)[1..] == NatToString(-b);
      NatToStringValue(-a);
      NatToStringValue(-b);
    }
  }

  /** A plain digit string is an unsigned numeral with that value. */
  lemma ParseDigits(ds: string)
    requires |ds| >= 1 && AllDigits(ds)
    ensures ParseUnsigned(ds) == Some(DigitsValue(ds) as real)
  {
    DigitsHaveNoPoint(ds);
    assert ds[..|ds|] == ds;
    WholeNumeral(ds);
  }

  /** A digit string has no decimal point. */
  lemma DigitsHaveNoPoint(ds: string)
    requires AllDigits(ds)
    ensures IndexOf(ds, '.') == |ds|
  {
    if ds != [] {
      assert IsDigit(ds[0]);
      DigitsHaveNoPoint(ds[1..]);
    }
  }

  /** A numeral without a fractional part is worth its digits. */
  lemma WholeNumeral(ds: string)
    requires AllDigits(ds)
    ensures NumeralValue(ds, []) == DigitsValue(ds) as real
  {
    assert DigitsValue([]) == 0 && Pow10(0) == 1;
  }

  /** `Number(String(i)) == i`: the integer text the source writes parses back to the integer. */
  lemma NumberOfIntText(i: int)
    ensures ParseNumber(IntToString(i)) == Some(i as real)
  {
    if i < 0 {
      NumberOfNegativeInt(i);
    } else {
      var ds := NatToString(i);
      NumberOfDigitText(ds);
      NatToStringValue(i);
    }
  }

  lemma NumberOfNegativeInt(i: int)
    requires i < 0
    ensures ParseNumber(IntToString(i)) == Some(i as real)
  {
    var n: nat := -i;
    var ds := NatToString(n);
    NatToStringValue(n);
    assert IntToString(i) == "-" + ds;
    assert -(DigitsValue(ds) as real) == i as real;
    NumberOfNegativeText(IntToString(i), ds);
  }

  /** On text without surrounding white space, `Number` goes straight to the sign and numeral. */
  lemma ParseNumberOfTrimmed(r: string)
    requires Trimmed(r)
    ensures ParseNumber(r) == ParseSigned(r)
  {
    TrimOfTrimmed(r);
  }

  /** A digit string reads back as its value. */
  lemma NumberOfDigitText(ds: string)
    requires |ds| >= 1 && AllDigits(ds)
    ensures ParseNumber(ds) == Some(DigitsValue(ds) as real)
  {
    assert IsDigit(ds[0]) && IsDigit(ds[|ds| - 1]);
    ParseNumberOfTrimmed(ds);
    ParseDigits(ds);
  }

  /** A minus sign followed by a digit string reads back as the negated value. */
  lemma NumberOfNegativeText(r: string, ds: string)
    requires |ds| >= 1 && AllDigits(ds) && r == "-" + ds
    ensures ParseNumber(r) == Some(-(DigitsValue(ds) as real))
  {
    assert r[0] == '-' && r[|r| - 1] == ds[|ds| - 1] && IsDigit(ds[|ds| - 1]);
    ParseNumberOfTrimmed(r);
    assert r[1..] == ds;
    SignedDigits(r, ds);
  }

  lemma SignedDigits(t: string, ds: string)
    requires |ds| >= 1 && AllDigits(ds) && |t| > 0 && t[0] == '-' && t[1..] == ds
    ensures ParseSigned(t) == Some(-(DigitsValue(ds) as real))
  {
    ParseDigits(ds);
  }

  /** `s.padStart(width, c)`. */
  function PadStart(s: string, width: nat, c: char): (r: string)
    ensures |r| == if |s| >= width then |s| else width
    ensures r[|r| - |s|..] == s
    ensures forall i :: 0 <= i < |r| - |s| ==> r[i] == c
    decreases width - |s|
  {
    if |s| >= width then s else PadStart([c] + s, width, c)
  }
}
