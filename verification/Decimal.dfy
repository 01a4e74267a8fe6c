/** Decimal text: writing integers and decimals, and reading them back. */
module Decimal {
  import opened Prelude

  predicate IsDigit(c: char) {
    '0' <= c <= '9'
  }

  function Digit(d: nat): (c: char)
    requires d < 10
    ensures IsDigit(c) && DigitValue(c) == d
  {
    ('0' as int + d) as char
  }

  function DigitValue(c: char): nat
    requires IsDigit(c)
  {
    c as int - '0' as int
  }

  function NatText(n: nat): (text: string)
    ensures text != []
    ensures forall i :: 0 <= i < |text| ==> IsDigit(text[i])
  {
    if n < 10 then [Digit(n)] else NatText(n / 10) + [Digit(n % 10)]
  }

  function ZeroPadded(text: string, width: nat): string
    decreases if |text| < width then width - |text| else 0
  {
    if |text| < width then ZeroPadded("0" + text, width) else text
  }

  // An integer in at least six characters, padded with zeros after the sign.
  function SixDigits(n: int): string {
    if n < 0 then "-" + ZeroPadded(NatText(-n), 5) else ZeroPadded(NatText(n), 6)
  }

  // ---- Reading ------------------------------------------------------------------

  // Digits, with single underscores allowed between them.
  predicate DigitGroups(text: string) {
    && text != [] && IsDigit(text[0]) && IsDigit(text[|text| - 1])
    && (forall i :: 0 <= i < |text| ==> IsDigit(text[i]) || text[i] == '_')
    && (forall i, j :: 0 <= i < |text| && j == i + 1 && j < |text| ==> IsDigit(text[i]) || IsDigit(text[j]))
  }

  function DigitsOnly(text: string): (digits: string)
    ensures forall i :: 0 <= i < |digits| ==> IsDigit(digits[i])
  {
    if text == [] then []
    else DigitsOnly(text[..|text| - 1]) + if IsDigit(text[|text| - 1]) then [text[|text| - 1]] else []
  }

  function DigitsValue(digits: string): nat
    requires forall i :: 0 <= i < |digits| ==> IsDigit(digits[i])
  {
    if digits == [] then 0
    else DigitsValue(digits[..|digits| - 1]) * 10 + DigitValue(digits[|digits| - 1])
  }

  function ParseNat(text: string): Option<nat> {
    if DigitGroups(text) then Some(DigitsValue(DigitsOnly(text))) else None
  }

  function ParseInt(text: string): Option<int> {
    if text != [] && (text[0] == '-' || text[0] == '+') then
      var n := ParseNat(text[1..]);
      if n.None? then None else Some(if text[0] == '-' then -(n.value as int) else n.value as int)
    else
      var n := ParseNat(text);
      if n.None? then None else Some(n.value)
  }

  function PowerOfTen(k: nat): (p: nat)
    ensures p > 0
  {
    if k == 0 then 1 else 10 * PowerOfTen(k - 1)
  }

  // The value of digits written after a decimal point.
  function FractionValue(digits: string): real
    requires forall i :: 0 <= i < |digits| ==> IsDigit(digits[i])
  {
    DigitsValue(digits) as real / PowerOfTen(|digits|) as real
  }

  // Where the decimal point stands; the length of the text when there is none.
  function PointIndex(text: string): (i: nat)
    ensures i <= |text|
    ensures i < |text| ==> text[i] == '.'
    ensures forall j :: 0 <= j < i ==> text[j] != '.'
  {
    if text == [] || text[0] == '.' then 0 else PointIndex(text[1..]) + 1
  }

  // The value of the digits before and after a point; one of the two may be missing.
  function PointedValue(whole: string, fraction: string): Option<real> {
    if whole == [] && fraction == [] then None
    else if whole != [] && !DigitGroups(whole) then None
    else if fraction != [] && !DigitGroups(fraction) then None
    else Some(DigitsValue(DigitsOnly(whole)) as real + FractionValue(DigitsOnly(fraction)))
  }

  function ParseUnsignedDecimal(text: string): Option<real> {
    var p := PointIndex(text);
    PointedValue(text[..p], if p < |text| then text[p + 1..] else [])
  }

  // Where the exponent's letter stands; the length of the text when there is none.
  function ExponentIndex(text: string): (i: nat)
    ensures i <= |text|
    ensures forall j :: 0 <= j < i ==> text[j] != 'e' && text[j] != 'E'
    ensures i < |text| ==> text[i] == 'e' || text[i] == 'E'
  {
    if text == [] || text[0] == 'e' || text[0] == 'E' then 0 else ExponentIndex(text[1..]) + 1
  }

  function Scaled(x: real, exponent: int): real {
    if exponent >= 0 then x * PowerOfTen(exponent) as real else x / PowerOfTen(-exponent) as real
  }

  function ParseUnsigned(text: string): Option<real> {
    var e := ExponentIndex(text);
    var x := ParseUnsignedDecimal(text[..e]);
    if e == |text| || x.None? then x
    else
      var exponent := ParseInt(text[e + 1..]);
      if exponent.None? then None else Some(Scaled(x.value, exponent.value))
  }

  function ParseDecimal(text: string): Option<real> {
    if text != [] && (text[0] == '-' || text[0] == '+') then
      var x := ParseUnsigned(text[1..]);
      if x.None? then None else Some(if text[0] == '-' then -x.value else x.value)
    else ParseUnsigned(text)
  }

  // ---- Writing and reading back ---------------------------------------------------

  lemma {:induction false} DigitsStay(text: string)
    requires forall i :: 0 <= i < |text| ==> IsDigit(text[i])
    ensures DigitsOnly(text) == text
  {
    if text != [] {
      DigitsStay(text[..|text| - 1]);
    }
  }

  lemma {:induction false} NatTextValue(n: nat)
    ensures DigitsValue(NatText(n)) == n
  {
    if n < 10 {
      assert NatText(n)[..0] == [];
    } else {
      NatTextValue(n / 10);
      assert NatText(n)[..|NatText(n)| - 1] == NatText(n / 10);
    }
  }

  lemma ReadDigits(text: string)
    requires text != [] && forall i :: 0 <= i < |text| ==> IsDigit(text[i])
    ensures DigitGroups(text) && ParseNat(text) == Some(DigitsValue(text))
  {
    DigitsStay(text);
  }

  lemma ReadNat(n: nat)
    ensures ParseNat(NatText(n)) == Some(n)
    ensures ParseInt(NatText(n)) == Some(n)
  {
    var text := NatText(n);
    ReadDigits(text);
    NatTextValue(n);
    assert IsDigit(text[0]);
  }

  // ---- Decimals ---------------------------------------------------------------------

  predicate AreDigits(text: string) {
    forall i :: 0 <= i < |text| ==> IsDigit(text[i])
  }

  type DigitText = text: string | AreDigits(text)

  // A number as a decimal: digits, and the point only with digits after it.
  function DecimalText(whole: DigitText, fraction: DigitText): string {
    if fraction == "" then whole else whole + "." + fraction
  }

  // What it stands for: all its digits as one number, divided by ten for each one after the point.
  function DecimalValue(whole: DigitText, fraction: DigitText): real {
    DigitsValue(whole + fraction) as real / PowerOfTen(|fraction|) as real
  }

  lemma {:induction false} DigitsValueConcat(a: DigitText, b: DigitText)
    ensures DigitsValue(a + b) == DigitsValue(a) * PowerOfTen(|b|) + DigitsValue(b)
    decreases |b|
  {
    if b == "" {
      assert a + b == a;
    } else {
      var init, last := b[..|b| - 1], b[|b| - 1];
      DigitsValueConcat(a, init);
      assert (a + b)[..|a + b| - 1] == a + init;
      assert PowerOfTen(|b|) == 10 * PowerOfTen(|init|);
      assert DigitsValue(a + b) == DigitsValue(a + init) * 10 + DigitValue(last);
    }
  }

  lemma CastProduct(a: nat, b: nat)
    ensures (a * b) as real == a as real * b as real
  {
  }

  lemma Unscaled(whole: nat, scale: nat, value: nat)
    requires scale > 0
    ensures whole as real + value as real / scale as real == (whole * scale + value) as real / scale as real
  {
    CastProduct(whole, scale);
    var (w, s, v) := (whole as real, scale as real, value as real);
    assert (w * s + v) / s == w + v / s;
  }

  lemma DecimalParts(whole: DigitText, fraction: DigitText)
    ensures DigitsValue(whole) as real + FractionValue(fraction) == DecimalValue(whole, fraction)
  {
    DigitsValueConcat(whole, fraction);
    Unscaled(DigitsValue(whole), PowerOfTen(|fraction|), DigitsValue(fraction));
  }

  lemma PointAfter(whole: DigitText, rest: string)
    ensures PointIndex(whole) == |whole| && PointIndex(whole + "." + rest) == |whole|
  {
    var text := whole + "." + rest;
    assert text[|whole|] == '.';
    assert forall j :: 0 <= j < |whole| ==> text[j] == whole[j];
  }

  lemma SplitAtPoint(whole: DigitText, fraction: DigitText)
    ensures ParseUnsignedDecimal(DecimalText(whole, fraction)) == PointedValue(whole, fraction)
  {
    PointAfter(whole, fraction);
    var text := whole + "." + fraction;
    assert text[..|whole|] == whole && text[|whole| + 1..] == fraction;
    assert whole[..|whole|] == whole;
  }

  lemma DigitsAreGroups(text: DigitText)
    requires text != ""
    ensures DigitGroups(text) && DigitsOnly(text) == text
  {
    ReadDigits(text);
    DigitsStay(text);
  }

  lemma PointedDigits(whole: DigitText, fraction: DigitText)
    requires whole != ""
    ensures PointedValue(whole, fraction) == Some(DigitsValue(whole) as real + FractionValue(fraction))
  {
    DigitsAreGroups(whole);
    if fraction != "" {
      DigitsAreGroups(fraction);
    }
    assert DigitsOnly("") == "";
  }

  lemma PointedDecimal(whole: DigitText, fraction: DigitText)
    requires whole != ""
    ensures PointedValue(whole, fraction) == Some(DecimalValue(whole, fraction))
  {
    PointedDigits(whole, fraction);
    DecimalParts(whole, fraction);
  }

  lemma NoSignNoExponent(whole: DigitText, fraction: DigitText)
    requires whole != ""
    ensures ParseDecimal(DecimalText(whole, fraction)) == ParseUnsignedDecimal(DecimalText(whole, fraction))
  {
    var text := DecimalText(whole, fraction);
    assert forall i :: 0 <= i < |text| ==> IsDigit(text[i]) || text[i] == '.';
    assert ExponentIndex(text) == |text| && text[..|text|] == text;
    assert text[0] == whole[0];
  }

  /** A decimal with any number of digits after the point, or none, is read back as what it stands for. */
  lemma ReadDecimal(whole: DigitText, fraction: DigitText)
    requires whole != ""
    ensures ParseDecimal(DecimalText(whole, fraction)) == Some(DecimalValue(whole, fraction))
  {
    SplitAtPoint(whole, fraction);
    NoSignNoExponent(whole, fraction);
    PointedDecimal(whole, fraction);
  }

  lemma WholeDecimal(whole: DigitText)
    ensures DecimalText(whole, "") == whole && DecimalValue(whole, "") == DigitsValue(whole) as real
  {
    assert whole + "" == whole;
  }

  lemma ReadNatDecimal(n: nat)
    ensures ParseDecimal(NatText(n)) == Some(n as real)
  {
    ReadDecimal(NatText(n), "");
    WholeDecimal(NatText(n));
    NatTextValue(n);
  }
}
