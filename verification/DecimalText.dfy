/** Rendering decimals (parser/transform_expr.go:1048-1064). */
module DecimalText {
  import opened Tokens
  import opened Decimal
  import opened Numbers
  import opened NumberLiterals

  /** Digits padded to more than `scale` of them. */
  function Padded(digits: string, scale: nat): (r: string)
    ensures |r| > scale && |r| >= |digits|
    decreases scale + 1 - |digits|
  {
    if |digits| <= scale then Padded("0" + digits, scale) else digits
  }

  /** The sign, the padded digits and the point before the last `scale` of them. */
  function Pointed(sign: string, digits: string, scale: nat): string {
    var body := Padded(digits, scale);
    sign + body[..|body| - scale] + "." + body[|body| - scale..]
  }

  function WithPoint(digits: string, scale: nat): string {
    if scale == 0 then digits
    else if IsNegative(digits) then Pointed("-", digits[1..], scale)
    else Pointed("", digits, scale)
  }

  /** decimalValueString. */
  method DecimalValueString(text: string, scale: nat) returns (r: string)
    ensures r == WithPoint(text, scale)
  {
    if scale == 0 {
      return text;
    }
    var sign, digits := "", text;
    if IsNegative(digits) {
      sign, digits := "-", digits[1..];
    }
    assert WithPoint(text, scale) == Pointed(sign, digits, scale);
    r := PlacePoint(sign, digits, scale);
  }

  method PlacePoint(sign: string, unpadded: string, scale: nat) returns (r: string)
    ensures r == Pointed(sign, unpadded, scale)
  {
    var digits := PadDigits(unpadded, scale);
    var cut := |digits| - scale;
    return sign + digits[..cut] + "." + digits[cut..];
  }

  method PadDigits(text: string, scale: nat) returns (digits: string)
    ensures digits == Padded(text, scale)
  {
    digits := text;
    while |digits| <= scale
      invariant Padded(digits, scale) == Padded(text, scale)
      decreases scale + 1 - |digits|
    {
      digits := "0" + digits;
    }
  }

  lemma {:induction false} PaddedValue(s: string, scale: nat)
    requires AllDigits(s)
    ensures AllDigits(Padded(s, scale)) && Value(Padded(s, scale)) == Value(s)
    ensures |Padded(s, scale)| == if |s| <= scale then scale + 1 else |s|
    decreases scale + 1 - |s|
  {
    if |s| <= scale {
      LeadingZeros("0", s);
      PaddedValue("0" + s, scale);
    }
  }

  function Magnitude(n: int): nat { if n < 0 then -n else n }

  /** The digits a rendered decimal shows. */
  function ShownDigits(n: int, scale: nat): nat {
    var k := |Numeral(Magnitude(n))|;
    if k <= scale then scale + 1 else k
  }

  /** A decimal rendered and read again has its value and scale; its width is the number of
      digits shown. */
  lemma RenderedDecimalReads(n: int, scale: nat)
    requires scale > 0
    ensures
      var s := WithPoint(IntegerString(n), scale);
      && IsDecimal(s) && UnscaledOf(s) == n && |Fraction(s)| == scale && WidthOf(s) == ShownDigits(n, scale)
  {
    var sign, whole, fraction := RenderedParts(n, scale);
    PointAfter(sign, whole, fraction);
    SignedBy(WithPoint(IntegerString(n), scale), whole + fraction, n);
  }

  lemma SignedBy(s: string, body: string, n: int)
    requires DotIndex(s) < |s| && WholePart(s) + Fraction(s) == body
    requires AllDigits(WholePart(s)) && AllDigits(Fraction(s))
    requires AllDigits(body) && Value(body) == Magnitude(n) && (IsNegative(s) <==> n < 0)
    ensures IsDecimal(s) && UnscaledOf(s) == n
  {
  }

  lemma RenderedParts(n: int, scale: nat) returns (sign: string, whole: string, fraction: string)
    requires scale > 0
    ensures WithPoint(IntegerString(n), scale) == sign + whole + "." + fraction
    ensures sign == if n < 0 then "-" else ""
    ensures whole != "" && |fraction| == scale && |whole| + |fraction| == ShownDigits(n, scale)
    ensures AllDigits(whole) && AllDigits(fraction)
    ensures AllDigits(whole + fraction) && Value(whole + fraction) == Magnitude(n)
  {
    var digits := Numeral(Magnitude(n));
    sign := if n < 0 then "-" else "";
    PartsShown(n, scale);
    whole, fraction := PaddedParts(digits, scale, sign);
    ValueOfNumeral(Magnitude(n));
  }

  lemma PaddedParts(digits: string, scale: nat, sign: string) returns (whole: string, fraction: string)
    requires AllDigits(digits)
    ensures Pointed(sign, digits, scale) == sign + whole + "." + fraction
    ensures whole != "" && |fraction| == scale
    ensures |whole| + |fraction| == (if |digits| <= scale then scale + 1 else |digits|)
    ensures AllDigits(whole) && AllDigits(fraction)
    ensures AllDigits(whole + fraction) && Value(whole + fraction) == Value(digits)
  {
    var body := Padded(digits, scale);
    PaddedValue(digits, scale);
    var cut := |body| - scale;
    whole, fraction := body[..cut], body[cut..];
    DigitsInTwo(body, cut);
  }

  lemma DigitsInTwo(s: string, cut: nat)
    requires AllDigits(s) && cut <= |s|
    ensures s[..cut] + s[cut..] == s && AllDigits(s[..cut]) && AllDigits(s[cut..])
  {
  }

  lemma PartsShown(n: int, scale: nat)
    requires scale > 0
    ensures WithPoint(IntegerString(n), scale)
      == Pointed(if n < 0 then "-" else "", Numeral(Magnitude(n)), scale)
  {
    if n < 0 {
      assert IntegerString(n)[1..] == Numeral(-n);
    } else {
      NumeralIsUnsigned(n);
    }
  }

  lemma PointAfter(sign: string, whole: string, fraction: string)
    requires sign == "" || sign == "-"
    requires whole != "" && AllDigits(whole) && AllDigits(fraction)
    ensures
      var s := sign + whole + "." + fraction;
      && DotIndex(s) == |sign| + |whole| && WholePart(s) == whole && Fraction(s) == fraction
      && (IsNegative(s) <==> sign == "-")
  {
    var s := sign + whole + "." + fraction;
    var k := |sign| + |whole|;
    assert s[k] == '.';
    forall i | 0 <= i < k
      ensures s[i] != '.'
    {
      assert i >= |sign| ==> s[i] == whole[i - |sign|];
    }
    DotIs(s, k);
    assert s[..k] == sign + whole;
    assert IsDigit(whole[0]) && whole[0] != '-';
    assert TrimSigns(whole) == whole;
    if sign == "-" {
      assert (sign + whole)[1..] == whole;
      assert s[0] == '-';
    } else {
      assert sign + whole == whole;
      assert WholePart(s) == TrimSigns(whole);
      assert s[0] == whole[0];
    }
  }

  lemma DotIs(s: string, k: nat)
    requires k < |s| && s[k] == '.' && forall i :: 0 <= i < k ==> s[i] != '.'
    ensures DotIndex(s) == k
  {
    assert DotIndex(s) <= k;
    assert s[DotIndex(s)] == '.';
  }
}
