/** What a number literal denotes, and how decimals are rendered
    (parser/transform_single.go:316-406, parser/transform_expr.go:1008-1064). */
module NumberLiterals {
  import opened Tokens
  import opened Decimal
  import opened Numbers

  datatype LogicalType =
    | INTEGER
    | BIGINT
    | HUGEINT
    | UHUGEINT
    | DECIMAL(width: nat, scale: nat)

  /** The float behind a DOUBLE is not computed here: it is named by its text. */
  datatype Constant =
    | Value64(typ: LogicalType, v: Int64)
    | Value128(typ: LogicalType, h: Hugeint)
    | DoubleOf(text: string)

  function DropUnderscores(s: string): string {
    if s == "" then "" else (if s[0] == '_' then "" else [s[0]]) + DropUnderscores(s[1..])
  }

  predicate HasExponent(s: string) { exists i :: 0 <= i < |s| && (s[i] == 'e' || s[i] == 'E') }

  /** strings.IndexByte(s, '.'), or |s|. */
  function DotIndex(s: string): (i: nat)
    ensures i <= |s| && (i < |s| ==> s[i] == '.') && forall k :: 0 <= k < i ==> s[k] != '.'
  {
    if s == "" || s[0] == '.' then 0 else 1 + DotIndex(s[1..])
  }

  function TrimSigns(s: string): string {
    if s != "" && (s[0] == '+' || s[0] == '-') then TrimSigns(s[1..]) else s
  }

  function TrimZeros(s: string): string {
    if s != "" && s[0] == '0' then TrimZeros(s[1..]) else s
  }

  /** strconv.ParseInt(s, 10, 64). */
  function ParseInt64(s: string): Option<Int64> {
    if IsInteger(s) && -INT64_MAX - 1 <= IntegerOf(s) <= INT64_MAX then Some(IntegerOf(s)) else None
  }

  /** The 128-bit integer of a signed value. */
  function FromInt(n: int): (h: Hugeint)
    requires -M127 <= n < M127
    ensures HugeValue(h) == n
  {
    Hugeint(n / W, n % W)
  }

  /** The same bits for an unsigned value. */
  function FromUnsigned(n: nat): (h: Hugeint)
    requires n < M128
    ensures Unsigned(h) == n
  {
    Hugeint(Signed(n / W), n % W)
  }

  lemma UnsignedIsItsBits(a: Hugeint, b: Hugeint)
    requires Unsigned(a) == Unsigned(b)
    ensures a == b
  {
  }

  /** A float literal, when the float parser takes the text. */
  function DoubleConstant(text: string, isFloat: string -> bool): Option<Constant> {
    if isFloat(text) then Some(DoubleOf(text)) else None
  }

  // ----- decimals -----

  function WholePart(clean: string): string { TrimSigns(clean[..DotIndex(clean)]) }

  function Fraction(clean: string): string
    requires DotIndex(clean) < |clean|
  {
    clean[DotIndex(clean) + 1..]
  }

  /** Sign, digits, a point, digits. */
  predicate IsDecimal(clean: string) {
    DotIndex(clean) < |clean| && AllDigits(WholePart(clean)) && AllDigits(Fraction(clean))
  }

  function WidthOf(clean: string): nat
    requires DotIndex(clean) < |clean|
  {
    var digits := |WholePart(clean)| + |Fraction(clean)|;
    if digits == 0 then 1 else digits
  }

  /** The value times ten to the scale. */
  function UnscaledOf(clean: string): int
    requires IsDecimal(clean)
  {
    var v: int := Value(WholePart(clean) + Fraction(clean));
    if IsNegative(clean) then -v else v
  }

  /** The digits handed on: leading zeros dropped, the point taken out, the sign in front. */
  function UnscaledText(clean: string): string
    requires DotIndex(clean) < |clean|
  {
    var digits := TrimZeros(WholePart(clean)) + Fraction(clean);
    var body := if digits == "" then "0" else digits;
    if IsNegative(clean) then "-" + body else body
  }

  function DecimalConstant(width: nat, scale: nat, n: int): Constant
    requires -M127 < n < M127 && (width <= 18 ==> -INT64_MAX - 1 <= n <= INT64_MAX)
  {
    if width <= 18 then Value64(DECIMAL(width, scale), n) else Value128(DECIMAL(width, scale), FromInt(n))
  }

  /** What a text with a point denotes. */
  ghost function DecimalOf(clean: string, isFloat: string -> bool): Option<Constant>
    requires DotIndex(clean) < |clean|
  {
    var typ, text := DECIMAL(WidthOf(clean), |Fraction(clean)|), UnscaledText(clean);
    if WidthOf(clean) > 38 then DoubleConstant(clean, isFloat)
    else if WidthOf(clean) <= 18 && ParseInt64(text).Some? then Some(Value64(typ, ParseInt64(text).value))
    else match HugeintRead(text)
      case None => None
      case Some(n) => Some(Value128(typ, FromInt(n)))
  }

  /** decimalValue. */
  method DecimalValue(clean: string, isFloat: string -> bool) returns (r: Option<Constant>)
    requires DotIndex(clean) < |clean|
    ensures r == DecimalOf(clean, isFloat)
  {
    var intPart := WholePart(clean);
    var fracPart := Fraction(clean);
    var digits := TrimZeros(intPart);
    var scale := |fracPart|;
    var width := |intPart| + scale;
    if width == 0 {
      width := 1;
    }
    if width > 38 {
      return DoubleConstant(clean, isFloat);
    }
    var unscaled := digits + fracPart;
    if unscaled == "" {
      unscaled := "0";
    }
    if IsNegative(clean) {
      unscaled := "-" + unscaled;
    }
    assert unscaled == UnscaledText(clean);
    var typ := DECIMAL(width, scale);
    var v := ParseInt64(unscaled);
    if v.Some? && width <= 18 {
      return Some(Value64(typ, v.value));
    }
    var h, ok := ParseHugeint(unscaled);
    if !ok {
      return None;
    }
    HugeintIsItsValue(h, FromInt(HugeintRead(unscaled).value));
    return Some(Value128(typ, h));
  }

  /** Up to 38 digits a decimal denotes its exact unscaled value, in 64 bits up to 18 digits;
      above, a float. */
  lemma DecimalIsExact(clean: string, isFloat: string -> bool)
    requires IsDecimal(clean)
    ensures WidthOf(clean) > 38 ==> DecimalOf(clean, isFloat) == DoubleConstant(clean, isFloat)
    ensures WidthOf(clean) <= 38 ==>
      && -M127 < UnscaledOf(clean) < M127
      && (WidthOf(clean) <= 18 ==> -INT64_MAX - 1 <= UnscaledOf(clean) <= INT64_MAX)
      && DecimalOf(clean, isFloat) == Some(DecimalConstant(WidthOf(clean), |Fraction(clean)|, UnscaledOf(clean)))
  {
    if WidthOf(clean) <= 38 {
      UnscaledIsExact(clean);
    }
  }

  lemma {:induction false} TrimZerosKeepsValue(s: string)
    requires AllDigits(s)
    ensures AllDigits(TrimZeros(s)) && Value(TrimZeros(s)) == Value(s) && |TrimZeros(s)| <= |s|
  {
    if s != "" && s[0] == '0' {
      TrimZerosKeepsValue(s[1..]);
      LeadingZeros("0", s[1..]);
      assert s == "0" + s[1..];
    }
  }

  lemma TenToThe18And38()
    ensures Pow10(18) == 1000000000000000000 && Pow10(38) == 100000000000000000000000000000000000000
  {
    assert Pow10(9) == 1000000000;
    assert Pow10(18) == 1000000000000000000;
    assert Pow10(27) == 1000000000000000000000000000;
    assert Pow10(36) == 1000000000000000000000000000000000000;
  }

  lemma {:induction false} Pow10Grows(a: nat, b: nat)
    requires a <= b
    ensures Pow10(a) <= Pow10(b)
    decreases b - a
  {
    if a < b {
      Pow10Grows(a, b - 1);
    }
  }

  /** The text handed on for a decimal of at most 38 digits reads as its unscaled value. */
  lemma UnscaledIsExact(clean: string)
    requires IsDecimal(clean) && WidthOf(clean) <= 38
    ensures HugeintRead(UnscaledText(clean)) == Some(UnscaledOf(clean)) && -M127 < UnscaledOf(clean) < M127
    ensures WidthOf(clean) <= 18 ==> ParseInt64(UnscaledText(clean)) == Some(UnscaledOf(clean))
  {
    UnscaledDenotes(clean);
    UnscaledFits(clean);
    SmallTextReads(UnscaledText(clean), UnscaledOf(clean));
  }

  /** It is an integer text with that value. */
  lemma UnscaledDenotes(clean: string)
    requires IsDecimal(clean)
    ensures IsInteger(UnscaledText(clean)) && IntegerOf(UnscaledText(clean)) == UnscaledOf(clean)
  {
    BodyIsExact(WholePart(clean), Fraction(clean));
    var digits := TrimZeros(WholePart(clean)) + Fraction(clean);
    SignedNumeral(if digits == "" then "0" else digits, IsNegative(clean), UnscaledText(clean));
  }

  lemma SmallTextReads(text: string, v: int)
    requires IsInteger(text) && IntegerOf(text) == v && -M127 < v < M127
    ensures HugeintRead(text) == Some(v)
    ensures -INT64_MAX <= v <= INT64_MAX ==> ParseInt64(text) == Some(v)
  {
    HugeintExactBelow128(text);
  }

  lemma SignedNumeral(body: string, negative: bool, s: string)
    requires body != "" && AllDigits(body) && s == if negative then "-" + body else body
    ensures Unsign(s) == body && IsInteger(s) && IntegerOf(s) == if negative then -(Value(body) as int) else Value(body)
  {
    assert IsDigit(body[0]);
    assert negative ==> s[1..] == body;
  }

  lemma UnscaledFits(clean: string)
    requires IsDecimal(clean) && WidthOf(clean) <= 38
    ensures -M127 < UnscaledOf(clean) < M127
    ensures WidthOf(clean) <= 18 ==> -INT64_MAX <= UnscaledOf(clean) <= INT64_MAX
  {
    var all := WholePart(clean) + Fraction(clean);
    ValueIsBelowPower(all);
    Pow10Grows(|all|, 38);
    TenToThe18And38();
    if WidthOf(clean) <= 18 {
      Pow10Grows(|all|, 18);
    }
  }

  lemma BodyIsExact(whole: string, fraction: string)
    requires AllDigits(whole) && AllDigits(fraction)
    ensures
      var digits := TrimZeros(whole) + fraction;
      var body := if digits == "" then "0" else digits;
      body != "" && AllDigits(body) && AllDigits(whole + fraction) && Value(body) == Value(whole + fraction)
  {
    TrimZerosKeepsValue(whole);
    ValueOfJoin(whole, fraction);
    ValueOfJoin(TrimZeros(whole), fraction);
  }

  // ----- numbers -----

  /** The class a plain integer belongs to. */
  function Classified(clean: string, isFloat: string -> bool): Option<Constant>
    requires IsInteger(clean)
  {
    var n := IntegerOf(clean);
    if -0x8000_0000 <= n <= 0x7FFF_FFFF then Some(Value64(INTEGER, n))
    else if -INT64_MAX - 1 <= n <= INT64_MAX then Some(Value64(BIGINT, n))
    else if -M127 < n < M127 then Some(Value128(HUGEINT, FromInt(n)))
    else if 0 <= n < M128 then Some(Value128(UHUGEINT, FromUnsigned(n)))
    else DoubleConstant(clean, isFloat)
  }

  function IntegerTypeFor(v: Int64): LogicalType {
    if -0x8000_0000 <= v <= 0x7FFF_FFFF then INTEGER else BIGINT
  }

  /** What a text without point and exponent denotes. */
  ghost function IntegerNumberOf(clean: string, isFloat: string -> bool): Option<Constant> {
    if ParseInt64(clean).Some? then Some(Value64(IntegerTypeFor(ParseInt64(clean).value), ParseInt64(clean).value))
    else match HugeintRead(clean)
      case Some(n) => Some(Value128(HUGEINT, FromInt(n)))
      case None =>
        if !IsNegative(clean) && IsInteger(clean) && Value(Unsign(clean)) < M128 then
          Some(Value128(UHUGEINT, FromUnsigned(Value(Unsign(clean)))))
        else DoubleConstant(clean, isFloat)
  }

  /** What a number literal denotes, or None when it has no value. */
  ghost function NumberOf(text: string, isFloat: string -> bool): Option<Constant> {
    var clean := DropUnderscores(text);
    if HasExponent(clean) then DoubleConstant(clean, isFloat)
    else if DotIndex(clean) < |clean| then DecimalOf(clean, isFloat)
    else IntegerNumberOf(clean, isFloat)
  }

  /** numberValue. */
  method NumberValue(text: string, isFloat: string -> bool) returns (r: Option<Constant>)
    ensures r == NumberOf(text, isFloat)
  {
    var clean := DropUnderscores(text);
    if HasExponent(clean) {
      return DoubleConstant(clean, isFloat);
    }
    if DotIndex(clean) < |clean| {
      r := DecimalValue(clean, isFloat);
      return;
    }
    var v := ParseInt64(clean);
    if v.Some? {
      return Some(Value64(IntegerTypeFor(v.value), v.value));
    }
    var h, ok := ParseHugeint(clean);
    if ok {
      HugeintIsItsValue(h, FromInt(HugeintRead(clean).value));
      return Some(Value128(HUGEINT, h));
    }
    h, ok := ParseUint128(clean);
    if ok {
      UnsignedIsItsBits(h, FromUnsigned(Value(Unsign(clean))));
      return Some(Value128(UHUGEINT, h));
    }
    return DoubleConstant(clean, isFloat);
  }

  /** An integer denotes its exact value in the narrowest class that holds it, or a float, exactly
      when parseHugeint is right on it; else a HUGEINT of another value. */
  lemma IntegerIsClassified(clean: string, isFloat: string -> bool)
    requires IsInteger(clean)
    ensures !HasExponent(clean) && DotIndex(clean) == |clean|
    ensures ReadRight(clean) ==> IntegerNumberOf(clean, isFloat) == Classified(clean, isFloat)
    ensures !ReadRight(clean) ==>
      && HugeintRead(clean).Some? && HugeintRead(clean).value != IntegerOf(clean)
      && IntegerNumberOf(clean, isFloat) == Some(Value128(HUGEINT, FromInt(HugeintRead(clean).value)))
  {
    IntegerIsPlain(clean);
    if Value(Unsign(clean)) < M128 {
      HugeintExactBelow128(clean);
    }
  }

  // ----- malformed decimals -----

  /** Digits and points, after a '-' or not. */
  predicate IsNumberText(clean: string) {
    forall i :: 0 <= i < |clean| ==> IsDigit(clean[i]) || clean[i] == '.' || (i == 0 && clean[i] == '-')
  }

  /** A text with a point and up to 38 places has no value exactly when it is no integer once the
      first point is out. */
  lemma DecimalRefusedIff(clean: string, isFloat: string -> bool)
    requires DotIndex(clean) < |clean| && WidthOf(clean) <= 38
    ensures DecimalOf(clean, isFloat) == None <==> !IsInteger(UnscaledText(clean))
  {
    var text := UnscaledText(clean);
    if IsInteger(text) {
      ShortText(clean);
      ValueIsBelowPower(Unsign(text));
      Pow10Grows(|Unsign(text)|, 38);
      TenToThe18And38();
      HugeintExactBelow128(text);
    }
  }

  lemma ShortText(clean: string)
    requires DotIndex(clean) < |clean| && WidthOf(clean) <= 38
    ensures IsInteger(UnscaledText(clean)) ==> |Unsign(UnscaledText(clean))| <= 38
  {
    ShorterTrimmed(WholePart(clean));
  }

  lemma {:induction false} ShorterTrimmed(s: string)
    ensures |TrimZeros(s)| <= |s|
  {
    if s != "" && s[0] == '0' {
      ShorterTrimmed(s[1..]);
    }
  }

  /** Of the texts a number token can have, with a point and up to 38 places: exactly those with a
      second point have no value. */
  lemma SecondPointIsRefused(text: string, isFloat: string -> bool)
    requires
      var clean := DropUnderscores(text);
      IsNumberText(clean) && DotIndex(clean) < |clean| && WidthOf(clean) <= 38
    ensures
      var clean := DropUnderscores(text);
      NumberOf(text, isFloat) == None <==> '.' in Fraction(clean)
  {
    var clean := DropUnderscores(text);
    assert !HasExponent(clean);
    SecondPointBreaks(clean, isFloat);
  }

  lemma SecondPointBreaks(clean: string, isFloat: string -> bool)
    requires IsNumberText(clean) && DotIndex(clean) < |clean| && WidthOf(clean) <= 38
    ensures DecimalOf(clean, isFloat) == None <==> '.' in Fraction(clean)
  {
    if '.' in Fraction(clean) {
      PointInText(clean);
      DecimalRefusedIff(clean, isFloat);
    } else {
      PartsAreDigits(clean);
      DecimalIsExact(clean, isFloat);
    }
  }

  lemma PointInText(clean: string)
    requires DotIndex(clean) < |clean| && '.' in Fraction(clean)
    ensures !IsInteger(UnscaledText(clean))
  {
    PointIsNoInteger(TrimZeros(WholePart(clean)) + Fraction(clean), UnscaledText(clean));
  }

  lemma PointIsNoInteger(digits: string, text: string)
    requires '.' in digits && (text == digits || text == "-" + digits)
    ensures !IsInteger(text)
  {
    var k :| 0 <= k < |digits| && digits[k] == '.';
    var i := |text| - |digits| + k;
    assert text[i] == '.';
    var rest := Unsign(text);
    assert rest == text || (i > 0 && rest[i - 1] == '.');
  }

  lemma PartsAreDigits(clean: string)
    requires IsNumberText(clean) && DotIndex(clean) < |clean| && '.' !in Fraction(clean)
    ensures IsDecimal(clean)
  {
    FrontIsDigits(clean[..DotIndex(clean)]);
    var k, fraction := DotIndex(clean), Fraction(clean);
    forall i | 0 <= i < |fraction|
      ensures IsDigit(fraction[i])
    {
      assert fraction[i] == clean[k + 1 + i] && fraction[i] in fraction;
    }
  }

  lemma FrontIsDigits(front: string)
    requires forall i :: 0 <= i < |front| ==> IsDigit(front[i]) || (i == 0 && front[i] == '-')
    ensures AllDigits(TrimSigns(front))
  {
    if front != "" && front[0] == '-' {
      DigitsAreUnsigned(front[1..]);
    } else {
      DigitsAreUnsigned(front);
    }
  }

  lemma DigitsAreUnsigned(s: string)
    requires AllDigits(s)
    ensures TrimSigns(s) == s
  {
  }

  lemma DigitsThenPoint(front: string, rest: string)
    requires AllDigits(front)
    ensures
      var s := front + "." + rest;
      DotIndex(s) == |front| && WholePart(s) == front && Fraction(s) == rest
  {
    var s := front + "." + rest;
    assert s[|front|] == '.';
    forall i | 0 <= i < |front|
      ensures s[i] != '.'
    {
      assert s[i] == front[i];
    }
    assert DotIndex(s) == |front|;
    assert s[..|front|] == front && s[|front| + 1..] == rest;
    DigitsAreUnsigned(front);
  }

  /** Digits, a point, digits, and then another point: one number token without a value. */
  lemma TwoPointsAreRefused(front: string, middle: string, rest: string, isFloat: string -> bool)
    requires AllDigits(front) && AllDigits(middle) && AllDigits(rest) && |front| + |middle| + |rest| <= 37
    ensures NumberOf(front + "." + (middle + "." + rest), isFloat) == None
  {
    var tail := middle + "." + rest;
    var s := front + "." + tail;
    assert tail[|middle|] == '.';
    DigitsThenPoint(front, tail);
    forall i | 0 <= i < |s|
      ensures IsDigit(s[i]) || s[i] == '.'
    {
      assert s[i] == if i < |front| then front[i] else if i == |front| then '.' else tail[i - |front| - 1];
    }
    PlainTextIsClean(s);
    SecondPointIsRefused(s, isFloat);
  }

  /** 2.03.0 is such a text. */
  lemma TwoPoints(isFloat: string -> bool)
    ensures NumberOf("2.03.0", isFloat) == None
  {
    TwoPointsAreRefused("2", "03", "0", isFloat);
    assert "2" + "." + ("03" + "." + "0") == "2.03.0";
  }

  /** Digits, points and signs are kept as they are and make no exponent. */
  lemma {:induction false} PlainTextIsClean(s: string)
    requires forall i :: 0 <= i < |s| ==> IsDigit(s[i]) || s[i] == '.' || s[i] == '-'
    ensures DropUnderscores(s) == s && !HasExponent(s)
  {
    if s != "" {
      PlainTextIsClean(s[1..]);
      assert s == [s[0]] + s[1..];
    }
  }

  lemma IntegerIsPlain(s: string)
    ensures IsInteger(s) ==> !HasExponent(s) && DotIndex(s) == |s|
  {
    if IsInteger(s) {
      forall i | 0 <= i < |s|
        ensures s[i] != 'e' && s[i] != 'E' && s[i] != '.'
      {
        var k := |s| - |Unsign(s)|;
        assert i >= k ==> s[i] == Unsign(s)[i - k];
      }
    }
  }
}
