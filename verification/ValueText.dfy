/** Rendering the values of number literals, and what the renderings denote in turn
    (parser/transform_expr.go:1008-1064, parser/transform_single.go:316-407). */
module ValueText {
  import opened Tokens
  import opened Decimal
  import opened Numbers
  import opened NumberLiterals
  import opened DecimalText

  /** valueString; how a float is written is the caller's. */
  function TextOf(c: Constant, floatText: string -> string): string {
    match c
    case Value64(DECIMAL(_, scale), v) => WithPoint(IntegerString(v), scale)
    case Value64(_, v) => IntegerString(v)
    case Value128(DECIMAL(_, scale), h) => WithPoint(HugeintString(h), scale)
    case Value128(_, h) => HugeintString(h)
    case DoubleOf(text) => floatText(text)
  }

  method ValueString(c: Constant, floatText: string -> string) returns (s: string)
    ensures s == TextOf(c, floatText)
  {
    match c
    case Value64(typ, v) =>
      if typ.DECIMAL? {
        s := DecimalValueString(IntegerString(v), typ.scale);
      } else {
        s := IntegerString(v);
      }
    case Value128(typ, h) =>
      s := HugeintString(h);
      if typ.DECIMAL? {
        s := DecimalValueString(s, typ.scale);
      }
    case DoubleOf(text) => s := floatText(text);
  }

  // ----- integers -----

  lemma RenderingIsClean(n: int)
    ensures DropUnderscores(IntegerString(n)) == IntegerString(n)
    ensures IsInteger(IntegerString(n)) && IntegerOf(IntegerString(n)) == n
  {
    IntegerStringReads(n);
    var s := IntegerString(n);
    forall i | 0 <= i < |s|
      ensures IsDigit(s[i]) || s[i] == '.' || s[i] == '-'
    {
      assert n < 0 && i > 0 ==> s[i] == Numeral(-n)[i - 1];
    }
    PlainTextIsClean(s);
  }

  /** What the rendering of an integer denotes, up to the magnitudes parseHugeint is right on. */
  lemma RenderedIntegerReads(n: int, isFloat: string -> bool)
    requires -M128 < n < M128
    ensures IsInteger(IntegerString(n)) && IntegerOf(IntegerString(n)) == n
    ensures NumberOf(IntegerString(n), isFloat) == Classified(IntegerString(n), isFloat)
  {
    RenderingIsClean(n);
    IntegerStringReads(n);
    HugeintExactBelow128(IntegerString(n));
    IntegerIsClassified(IntegerString(n), isFloat);
  }

  /** A UHUGEINT is rendered as a negative number: its bits are read as signed. */
  lemma UhugeintRendersNegative(n: nat, floatText: string -> string)
    requires M127 <= n < M128
    ensures TextOf(Value128(UHUGEINT, FromUnsigned(n)), floatText) == "-" + Numeral(M128 - n)
  {
    assert HugeValue(FromUnsigned(n)) == n - M128;
  }

  /** The value an integer text denotes, for the four classes. */
  function IntegerConstant(n: int): (c: Constant)
    requires -M127 < n < M128
  {
    if -0x8000_0000 <= n <= 0x7FFF_FFFF then Value64(INTEGER, n)
    else if -INT64_MAX - 1 <= n <= INT64_MAX then Value64(BIGINT, n)
    else if n < M127 then Value128(HUGEINT, FromInt(n))
    else Value128(UHUGEINT, FromUnsigned(n))
  }

  /** Rendered and read again, an integer is the same value in the same class exactly when it is
      no UHUGEINT. */
  lemma IntegerRoundTripsIff(n: int, isFloat: string -> bool, floatText: string -> string)
    requires -M127 < n < M128
    ensures NumberOf(IntegerString(n), isFloat) == Some(IntegerConstant(n))
    ensures NumberOf(TextOf(IntegerConstant(n), floatText), isFloat) == Some(IntegerConstant(n)) <==> n < M127
  {
    RenderedIntegerReads(n, isFloat);
    if n >= M127 {
      UhugeintRendersNegative(n, floatText);
      RenderedIntegerReads(n - M128, isFloat);
      NegativeIsNoUhugeint(n - M128, isFloat);
    }
  }

  lemma NegativeIsNoUhugeint(n: int, isFloat: string -> bool)
    requires -M127 <= n < 0
    ensures IsInteger(IntegerString(n)) && IntegerOf(IntegerString(n)) == n
    ensures match Classified(IntegerString(n), isFloat)
      case Some(Value128(UHUGEINT, _)) => false
      case _ => true
  {
    IntegerStringReads(n);
  }

  /** The largest UHUGEINT is rendered -1. */
  lemma LargestRendersMinusOne(floatText: string -> string)
    ensures TextOf(IntegerConstant(340282366920938463463374607431768211455), floatText) == "-1"
  {
    UhugeintRendersNegative(340282366920938463463374607431768211455, floatText);
    assert Numeral(1) == "1";
  }

  // ----- decimals -----

  /** What the rendering of n at a scale denotes, over every scale: at scale 0 an integer; up to 38
      digits shown a DECIMAL of that many; above, a float. */
  lemma RenderedDecimalDenotes(n: int, scale: nat, isFloat: string -> bool)
    ensures
      var s := WithPoint(IntegerString(n), scale);
      && (scale == 0 ==>
        s == IntegerString(n) && DotIndex(s) == |s| && NumberOf(s, isFloat) == IntegerNumberOf(s, isFloat))
      && (scale > 0 && ShownDigits(n, scale) > 38 ==> NumberOf(s, isFloat) == DoubleConstant(s, isFloat))
      && (scale > 0 && ShownDigits(n, scale) <= 38 ==>
           && IsUnscaled(n, ShownDigits(n, scale))
           && NumberOf(s, isFloat) == Some(DecimalConstant(ShownDigits(n, scale), scale, n)))
  {
    if scale == 0 {
      RenderingIsClean(n);
      IntegerIsPlain(IntegerString(n));
    } else {
      var s := WithPoint(IntegerString(n), scale);
      RenderedDecimalReads(n, scale);
      RenderedDecimalIsClean(n, scale);
      DecimalIsExact(s, isFloat);
    }
  }

  /** n fits a decimal of that width: 64 bits up to 18 digits. */
  predicate IsUnscaled(n: int, width: nat) {
    -M127 < n < M127 && (width <= 18 ==> -INT64_MAX - 1 <= n <= INT64_MAX)
  }

  lemma RenderedDecimalIsClean(n: int, scale: nat)
    requires scale > 0
    ensures
      var s := WithPoint(IntegerString(n), scale);
      DropUnderscores(s) == s && !HasExponent(s)
  {
    var sign, whole, fraction := RenderedParts(n, scale);
    PointedTextIsClean(sign, whole, fraction);
  }

  lemma PointedTextIsClean(sign: string, whole: string, fraction: string)
    requires (sign == "" || sign == "-") && AllDigits(whole) && AllDigits(fraction)
    ensures
      var s := sign + whole + "." + fraction;
      DropUnderscores(s) == s && !HasExponent(s)
  {
    var s := sign + whole + "." + fraction;
    forall i | 0 <= i < |s|
      ensures IsDigit(s[i]) || s[i] == '.' || s[i] == '-'
    {
      var k := |sign| + |whole|;
      if |sign| <= i < k {
        assert s[i] == whole[i - |sign|];
      } else if i > k {
        assert s[i] == fraction[i - k - 1];
      }
    }
    PlainTextIsClean(s);
  }

  predicate IsDecimalConstant(c: Option<Constant>) {
    c.Some? && !c.value.DoubleOf? && c.value.typ.DECIMAL?
  }

  /** Over every value and scale: the rendering denotes a DECIMAL exactly when the scale is between
      1 and 37 and the value has at most 38 digits. */
  lemma DecimalRoundTrips(n: int, scale: nat, isFloat: string -> bool)
    ensures IsDecimalConstant(NumberOf(WithPoint(IntegerString(n), scale), isFloat))
      <==> 0 < scale <= 37 && |Numeral(Magnitude(n))| <= 38
  {
    RenderedDecimalDenotes(n, scale, isFloat);
  }

  /** A DECIMAL rendered and read again is itself exactly when it has a place behind the point and
      its width is the number of digits shown, 38 at most. */
  lemma DecimalConstantRoundTripsIff(width: nat, scale: nat, n: int, isFloat: string -> bool,
                                     floatText: string -> string)
    requires IsUnscaled(n, width)
    ensures TextOf(DecimalConstant(width, scale, n), floatText) == WithPoint(IntegerString(n), scale)
    ensures NumberOf(TextOf(DecimalConstant(width, scale, n), floatText), isFloat)
      == Some(DecimalConstant(width, scale, n))
      <==> scale > 0 && width == ShownDigits(n, scale) && width <= 38
  {
    RenderedDecimalDenotes(n, scale, isFloat);
  }

  /** 5. is a DECIMAL without places; rendered 5, it is an INTEGER. */
  lemma FivePoint(isFloat: string -> bool, floatText: string -> string)
    ensures NumberOf("5.", isFloat) == Some(Value64(DECIMAL(1, 0), 5))
    ensures TextOf(Value64(DECIMAL(1, 0), 5), floatText) == "5"
    ensures NumberOf("5", isFloat) == Some(Value64(INTEGER, 5))
  {
    var s := "" + "5" + "." + "";
    assert s == "5.";
    PointAfter("", "5", "");
    PointedTextIsClean("", "5", "");
    DecimalIsExact(s, isFloat);
    assert Value("5" + "") == 5 by {
      assert "5" + "" == "5" && "5"[..0] == "";
    }
    assert Numeral(5) == "5";
    RenderedIntegerReads(5, isFloat);
  }

  /** Thirty-eight digits, all behind the point, are a DECIMAL(38, 38); rendered with a zero in
      front, they are a float. */
  lemma AllBehindThePoint(f: string, isFloat: string -> bool, floatText: string -> string)
    requires AllDigits(f) && |f| == 38
    ensures IsUnscaled(Value(f), 38) && NumberOf("0." + f, isFloat) == DoubleConstant("0." + f, isFloat)
    ensures NumberOf("." + f, isFloat) == Some(DecimalConstant(38, 38, Value(f)))
    ensures
      var text := TextOf(DecimalConstant(38, 38, Value(f)), floatText);
      NumberOf(text, isFloat) == DoubleConstant(text, isFloat)
  {
    ValueIsBelowPower(f);
    TenToThe18And38();
    PointFirst(f, isFloat);
    ZeroPoint(f, isFloat);
    RenderedDecimalDenotes(Value(f), 38, isFloat);
    NumeralLength(Value(f), 38);
  }

  lemma PointFirst(f: string, isFloat: string -> bool)
    requires AllDigits(f) && |f| == 38
    ensures IsUnscaled(Value(f), 38) && NumberOf("." + f, isFloat) == Some(DecimalConstant(38, 38, Value(f)))
  {
    var s := "." + f;
    assert s == "" + "" + "." + f;
    PointedTextIsClean("", "", f);
    NothingBefore(f);
    DecimalIsExact(s, isFloat);
  }

  lemma NothingBefore(f: string)
    requires AllDigits(f) && |f| == 38
    ensures
      var s := "." + f;
      IsDecimal(s) && WholePart(s) == "" && Fraction(s) == f && WidthOf(s) == 38 && UnscaledOf(s) == Value(f)
  {
    var s := "." + f;
    assert DotIndex(s) == 0 && s[..0] == "" && Fraction(s) == f;
    assert "" + f == f;
  }

  lemma ZeroPoint(f: string, isFloat: string -> bool)
    requires AllDigits(f) && |f| == 38
    ensures NumberOf("0." + f, isFloat) == DoubleConstant("0." + f, isFloat)
  {
    assert "0." + f == "" + "0" + "." + f;
    PointAfter("", "0", f);
    PointedTextIsClean("", "0", f);
  }
}
