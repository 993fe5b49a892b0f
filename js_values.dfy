/**
 * The part of JavaScript's value semantics the inventory screens rely on:
 * `undefined`/`null`, the results of dividing two numbers, `String(n)` on an
 * integer, `Number(s)` on a form field, and `toLowerCase`/`includes` on
 * strings.
 */
module JsValues {

  /** A field that may be `undefined`, `null` or hold a value; `?.` and `??` treat the first two alike. */
  datatype Nullable<T> = Undefined | Null | Defined(value: T)

  /** A JavaScript number as far as these screens can produce one. */
  datatype JsNumber = Finite(value: real) | PositiveInfinity | NegativeInfinity | NaN

  /**
   * `(quantity / minStock) * 100` on two integer-valued numbers. A zero divisor
   * gives an infinity of the dividend's sign, or NaN for `0 / 0`.
   */
  function Percentage(quantity: int, minStock: int): (r: JsNumber)
    ensures r.Finite? <==> minStock != 0
    ensures r.Finite? ==> r.value * (minStock as real) == (quantity as real) * 100.0
    ensures r == PositiveInfinity <==> minStock == 0 && quantity > 0
    ensures r == NegativeInfinity <==> minStock == 0 && quantity < 0
    ensures r == NaN <==> minStock == 0 && quantity == 0
  {
    if minStock != 0 then Finite((quantity as real) / (minStock as real) * 100.0)
    else if quantity > 0 then PositiveInfinity
    else if quantity < 0 then NegativeInfinity
    else NaN
  }

  /** JavaScript's `x <= bound` for a finite bound: false for NaN and +Infinity, true for -Infinity. */
  function AtMost(x: JsNumber, bound: real): (r: bool)
    ensures x.Finite? ==> (r <==> x.value <= bound)
    ensures x.NaN? || x.PositiveInfinity? ==> !r
    ensures x.NegativeInfinity? ==> r
  {
    match x
    case Finite(v) => v <= bound
    case PositiveInfinity => false
    case NegativeInfinity => true
    case NaN => false
  }

  // ---------------------------------------------------------------- strings

  /** `s.toLowerCase()`, character by character through the abstract lowering `lower`. */
  function ToLowerCase(s: string, lower: char -> char): (r: string)
    ensures |r| == |s|
    ensures forall i :: 0 <= i < |s| ==> r[i] == lower(s[i])
  {
    if s == [] then [] else [lower(s[0])] + ToLowerCase(s[1..], lower)
  }

  predicate StartsWith(s: string, prefix: string)
  {
    |prefix| <= |s| && s[..|prefix|] == prefix
  }

  /** `sub` occurs in `s` starting at position `i`. */
  predicate OccursAt(s: string, sub: string, i: nat)
  {
    i + |sub| <= |s| && s[i..i + |sub|] == sub
  }

  /** `s.includes(sub)`: `sub` occurs in `s` at some position. */
  function Includes(s: string, sub: string): (r: bool)
    ensures r <==> exists i: nat :: OccursAt(s, sub, i)
  {
    if StartsWith(s, sub) then
      assert OccursAt(s, sub, 0);
      true
    else if s == [] then
      assert forall i: nat :: !OccursAt(s, sub, i);
      false
    else
      var r := Includes(s[1..], sub);
      assert forall i: nat :: OccursAt(s[1..], sub, i) <==> OccursAt(s, sub, i + 1) by {
        forall i: nat ensures OccursAt(s[1..], sub, i) <==> OccursAt(s, sub, i + 1) {
          if i + 1 + |sub| <= |s| {
            assert s[1..][i..i + |sub|] == s[i + 1..i + 1 + |sub|];
          }
        }
      }
      assert !OccursAt(s, sub, 0);
      assert (exists i: nat :: OccursAt(s, sub, i)) ==> r by {
        if exists i: nat :: OccursAt(s, sub, i) {
          var i: nat :| OccursAt(s, sub, i);
          assert OccursAt(s[1..], sub, i - 1);
        }
      }
      r
  }

  // ------------------------------------------------- String(n) and Number(s)

  predicate IsDigit(c: char)
  {
    '0' <= c <= '9'
  }

  predicate AllDigits(s: string)
  {
    forall i :: 0 <= i < |s| ==> IsDigit(s[i])
  }

  function DigitChar(d: nat): (c: char)
    requires d < 10
    ensures IsDigit(c) && c as int - '0' as int == d
  {
    ('0' as int + d) as char
  }

  /** The value of a run of decimal digits, most significant first. */
  function DigitsValue(s: string): (v: nat)
    requires AllDigits(s)
  {
    if s == [] then 0
    else 10 * DigitsValue(s[..|s| - 1]) + (s[|s| - 1] as int - '0' as int)
  }

  /** The decimal digits of `n`, without leading zeros. */
  function DecimalDigits(n: nat): (s: string)
    ensures |s| >= 1 && AllDigits(s)
  {
    if n < 10 then [DigitChar(n)] else DecimalDigits(n / 10) + [DigitChar(n % 10)]
  }

  /** `String(i)` for an integer-valued number. */
  function IntToString(i: int): (r: string)
    ensures |r| >= 1
    ensures r[0] == '-' <==> i < 0
    ensures AllDigits(if i < 0 then r[1..] else r)
  {
    if i < 0 then "-" + DecimalDigits(-i) else DecimalDigits(i)
  }

  /**
   * `Number(s)` for the strings a form field holds: the empty string is 0, an
   * optional sign followed by decimal digits is that integer, anything else NaN.
   */
  function ToNumber(s: string): (r: JsNumber)
    ensures s == "" ==> r == Finite(0.0)
    ensures r.Finite? || r.NaN?
    ensures s != "" && AllDigits(s) ==> r.Finite? && r.value >= 0.0
    ensures (exists i :: 0 < i < |s| && !IsDigit(s[i])) ==> r.NaN?
  {
    if s == "" then Finite(0.0)
    else if s[0] == '-' && |s| > 1 && AllDigits(s[1..]) then Finite(-(DigitsValue(s[1..]) as real))
    else if s[0] == '+' && |s| > 1 && AllDigits(s[1..]) then Finite(DigitsValue(s[1..]) as real)
    else if AllDigits(s) then Finite(DigitsValue(s) as real)
    else NaN
  }

  lemma {:induction false} DigitsValueOfDecimalDigits(n: nat)
    ensures DigitsValue(DecimalDigits(n)) == n
  {
    if n >= 10 {
      var s := DecimalDigits(n);
      assert s[..|s| - 1] == DecimalDigits(n / 10);
      DigitsValueOfDecimalDigits(n / 10);
    }
  }

  /** `Number(String(i))` gives back `i`. */
  lemma ToNumberOfIntToString(i: int)
    ensures ToNumber(IntToString(i)) == Finite(i as real)
  {
    if i < 0 {
      var s := IntToString(i);
      assert s[1..] == DecimalDigits(-i);
      DigitsValueOfDecimalDigits(-i);
    } else {
      var s := DecimalDigits(i);
      assert IsDigit(s[0]);
      DigitsValueOfDecimalDigits(i);
    }
  }

  /** Distinct integers print differently. */
  lemma IntToStringInjective(i: int, j: int)
    ensures IntToString(i) == IntToString(j) ==> i == j
  {
    ToNumberOfIntToString(i);
    ToNumberOfIntToString(j);
  }
}
