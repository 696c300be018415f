/** Number literals: 128-bit decimal parsing over 64-bit words that wrap
    (parser/transform_single.go:316-493, parser/transform_expr.go:1041-1064, 1116-1124). */
module Numbers {
  import opened Tokens
  import opened Decimal

  const B32 := 0x1_0000_0000
  const W := 0x1_0000_0000_0000_0000
  const INT64_MAX := 0x7FFF_FFFF_FFFF_FFFF
  const M127 := 0x8000_0000_0000_0000_0000_0000_0000_0000
  const M128 := 0x1_0000_0000_0000_0000_0000_0000_0000_0000

  /** uint64 and int64. */
  type Word = w: nat | w < W
  type Int64 = i: int | -INT64_MAX - 1 <= i <= INT64_MAX

  /** The signed upper and the unsigned lower word of a 128-bit integer. */
  datatype Hugeint = Hugeint(upper: Int64, lower: Word)

  /** int64(w): the same bits. */
  function Signed(w: Word): Int64 { if w <= INT64_MAX then w else w - W }

  function HugeValue(h: Hugeint): int { h.upper * W + h.lower }

  /** The same bits read as an unsigned 128-bit integer. */
  function Unsigned(h: Hugeint): nat {
    if h.upper < 0 then (h.upper + W) * W + h.lower else h.upper * W + h.lower
  }

  lemma HugeintIsItsValue(a: Hugeint, b: Hugeint)
    requires HugeValue(a) == HugeValue(b)
    ensures a == b
  {
  }

  // ----- 64-bit steps -----

  /** mul64 on words: the halves are multiplied apart, so that no product wraps. */
  function Mul64(v: Word, m: Word): (r: (Word, Word))
    ensures m <= B32 ==> r.0 + r.1 * W == v * m
    ensures r.0 + r.1 * W < W * B32
  {
    var l := (v % B32) * m % W;
    var h := ((v / B32) * m % W + l / B32) % W;
    assert m <= B32 ==> h * B32 + l % B32 == v * m by {
      if m <= B32 {
        var a, b := v / B32, v % B32;
        HalvesMultiplied(a, b, m);
        NoWrap(b * m);
        NoWrap(a * m);
        NoWrap(a * m + b * m / B32);
      }
    }
    ((h % B32) * B32 + l % B32, h / B32)
  }

  lemma NoWrap(x: nat)
    requires x < W
    ensures x % W == x
  {
  }

  lemma QuotientIs(x: nat, k: nat, q: nat, r: nat)
    requires k > 0 && r < k && x == q * k + r
    ensures x / k == q && x % k == r
  {
    var d := x / k - q;
    assert x == (x / k) * k + x % k;
    assert d * k == r - x % k;
    if d > 0 {
      Larger(1, d, k);
    } else if d < 0 {
      Larger(d, -1, k);
    }
  }

  lemma Larger(a: int, b: int, k: nat)
    requires a <= b
    ensures a * k <= b * k
  {
  }

  lemma HalvesMultiplied(hi: nat, lo: nat, m: nat)
    requires hi < B32 && lo < B32 && m <= B32
    ensures lo * m < W && hi * m + lo * m / B32 < W && hi * m < W
    ensures (hi * m + lo * m / B32) * B32 + lo * m % B32 == (hi * B32 + lo) * m
  {
    ProductBelow(hi, m);
    ProductBelow(lo, m);
    Distributes(hi, lo, m);
  }

  lemma Distributes(hi: nat, lo: nat, m: nat)
    ensures (hi * B32 + lo) * m == hi * m * B32 + lo * m
  {
  }

  lemma ProductBelow(a: nat, m: nat)
    requires a < B32 && m <= B32
    ensures 0 <= a * m <= (B32 - 1) * B32
  {
    Larger(0, a, m);
    Larger(a, B32 - 1, m);
    assert a * m <= (B32 - 1) * m <= (B32 - 1) * B32;
  }

  /** negateHugeint: two's complement negation. */
  function NegateHugeint(h: Hugeint): (r: Hugeint)
    ensures h.upper > -INT64_MAX - 1 || h.lower > 0 ==> HugeValue(r) == -HugeValue(h)
    ensures h == Hugeint(-INT64_MAX - 1, 0) ==> r == h
  {
    var upper: int := -1 - h.upper;
    var lower := (W - 1 - h.lower + 1) % W;
    assert lower == if h.lower == 0 then 0 else W - h.lower;
    if lower == 0 then Hugeint(if upper == INT64_MAX then -INT64_MAX - 1 else upper + 1, lower)
    else Hugeint(upper, lower)
  }

  // ----- parsing 128 bits -----

  /** A leading sign and the rest. */
  function Unsign(s: string): string {
    if s != "" && (s[0] == '-' || s[0] == '+') then s[1..] else s
  }

  predicate IsNegative(s: string) { s != "" && s[0] == '-' }

  predicate IsInteger(s: string) { Unsign(s) != "" && AllDigits(Unsign(s)) }

  function IntegerOf(s: string): int
    requires IsInteger(s)
  {
    var v: int := Value(Unsign(s));
    if IsNegative(s) then -v else v
  }

  /** The product is right for every word exactly when the factor is at most 2^32; the program
      multiplies by ten. */
  lemma Mul64RightIff(m: Word)
    ensures (forall v: Word :: Mul64(v, m).0 + Mul64(v, m).1 * W == v * m) <==> m <= B32
  {
    if m > B32 {
      assert Mul64(W - 1, m).0 + Mul64(W - 1, m).1 * W < W * B32;
      assert (W - 1) * m >= (W - 1) * (B32 + 1) >= W * B32;
    }
  }

  /** One more digit of parseUint128: refused exactly when the value leaves the range. */
  method TakeUnsigned(hi0: Word, lo0: Word, d: nat) returns (hi: Word, lo: Word, ok: bool)
    requires d < 10
    ensures ok <==> (hi0 * W + lo0) * 10 + d < M128
    ensures ok ==> hi * W + lo == (hi0 * W + lo0) * 10 + d
  {
    hi, lo := hi0, lo0;
    var (low, carry) := Mul64(lo0, 10);
    if hi > (W - 1 - carry) / 10 {
      return hi, lo, false;
    }
    hi := hi * 10 + carry;
    lo := AddDigit(low, d);
    if lo < d {
      if hi == W - 1 {
        return hi, lo, false;
      }
      hi := hi + 1;
    }
    return hi, lo, true;
  }

  /** lo += d on a word. */
  function AddDigit(low: Word, d: nat): (lo: Word)
    requires d < 10
    ensures lo == if low + d < W then low + d else low + d - W
    ensures lo < d <==> low + d >= W
  {
    (low + d) % W
  }

  /** A '+' is allowed, a '-' is not; then the whole value, below 2^128, or nothing. */
  method ParseUint128(text: string) returns (h: Hugeint, ok: bool)
    ensures ok <==> !IsNegative(text) && IsInteger(text) && Value(Unsign(text)) < M128
    ensures ok ==> Unsigned(h) == Value(Unsign(text))
  {
    var s := text;
    h := Hugeint(0, 0);
    if s != "" && s[0] == '+' {
      s := s[1..];
    }
    if s == "" || s[0] == '-' {
      return h, false;
    }
    assert !IsNegative(text) && s == Unsign(text);
    var hi: Word, lo: Word := 0, 0;
    for i := 0 to |s|
      invariant AllDigits(s[..i]) && hi * W + lo == Value(s[..i])
    {
      var c := s[i];
      if !IsDigit(c) {
        return h, false;
      }
      ShorterValue(s, i);
      var fits;
      hi, lo, fits := TakeUnsigned(hi, lo, Digit(c));
      if !fits {
        TooLarge(s, i);
        return h, false;
      }
    }
    assert s[..|s|] == s;
    return Hugeint(Signed(hi), lo), true;
  }

  lemma ShorterValue(s: string, i: nat)
    requires i < |s| && AllDigits(s[..i]) && IsDigit(s[i])
    ensures AllDigits(s[..i + 1]) && Value(s[..i + 1]) == Value(s[..i]) * 10 + Digit(s[i])
  {
    assert s[..i + 1][..i] == s[..i];
  }

  /** A prefix out of range puts the whole text out. */
  lemma TooLarge(s: string, i: nat)
    requires i < |s| && AllDigits(s[..i + 1]) && Value(s[..i + 1]) >= M128
    ensures !(AllDigits(s) && Value(s) < M128)
  {
    if AllDigits(s) {
      ValueOfPrefix(s, i + 1);
    }
  }

  /** The test parseHugeint makes when it takes a digit on: adding the carry to the upper word
      wraps, or the last carry does.  The product of the upper word by ten is not tested. */
  predicate CarryWraps(v: nat, d: nat) {
    var upper, lower := v / W * 10 % W, v % W * 10;
    upper + lower / W >= W || (upper + lower / W == W - 1 && lower % W + d >= W)
  }

  /** Some digit of s trips the test. */
  ghost predicate Detected(s: string)
    requires AllDigits(s)
  {
    exists i :: 0 <= i < |s| && WrapsAt(s, i)
  }

  ghost predicate WrapsAt(s: string, i: nat)
    requires AllDigits(s) && i < |s|
  {
    CarryWraps(Value(s[..i]) % M128, Digit(s[i]))
  }

  /** One more digit of parseHugeint: refused when the test trips, else the value modulo 2^128. */
  method TakeSigned(hi0: Word, lo0: Word, d: nat) returns (hi: Word, lo: Word, ok: bool)
    requires d < 10
    ensures ok <==> !CarryWraps(hi0 * W + lo0, d)
    ensures ok ==> hi * W + lo == ((hi0 * W + lo0) * 10 + d) % M128
  {
    ghost var v := hi0 * W + lo0;
    QuotientIs(v, W, hi0, lo0);
    hi, lo := hi0, lo0;
    var (low, carry) := Mul64(lo0, 10);
    QuotientIs(lo0 * 10, W, carry, low);
    ghost var upper := hi0 * 10 % W;
    var hiNew := AddWords(TimesTen(hi0), carry);
    if hiNew < carry {
      return hi, lo, false;
    }
    assert hiNew == upper + carry;
    hi := hiNew;
    lo := AddDigit(low, d);
    if lo < d {
      hi := AddWords(hi, 1);
      if hi == 0 {
        return hi, lo, false;
      }
    }
    StepIsModular(v, hi0, lo0, d, hi, lo);
    return hi, lo, true;
  }

  function TimesTen(w: Word): Word { w * 10 % W }

  /** a + b on words: the sum wraps exactly when it comes out below b. */
  function AddWords(a: Word, b: Word): (c: Word)
    ensures c == if a + b < W then a + b else a + b - W
    ensures c < b <==> a + b >= W
  {
    (a + b) % W
  }

  lemma StepIsModular(v: nat, hi0: Word, lo0: Word, d: nat, hi: Word, lo: Word)
    requires v == hi0 * W + lo0 && d < 10
    requires
      var high, carry, low := hi0 * 10 % W, lo0 * 10 / W, lo0 * 10 % W;
      && hi * W + lo == (high + carry) * W + low + d
    ensures hi * W + lo == (v * 10 + d) % M128
  {
    var q := hi0 * 10 / W;
    assert hi0 * 10 == q * W + hi0 * 10 % W;
    assert lo0 * 10 == lo0 * 10 / W * W + lo0 * 10 % W;
    assert v * 10 + d == q * M128 + (hi * W + lo);
    QuotientIs(v * 10 + d, M128, q, hi * W + lo);
  }

  /** What parseHugeint reads: it accepts by the tests it makes, and takes the digits' value
      modulo 2^128. */
  ghost function HugeintRead(text: string): (r: Option<int>)
    ensures r.Some? ==> -M127 < r.value < M127
  {
    if IsInteger(text) && !Detected(Unsign(text)) && Value(Unsign(text)) % M128 < M127 then
      var v: int := Value(Unsign(text)) % M128;
      Some(if IsNegative(text) then -v else v)
    else None
  }

  /** Parsing accepts by the tests it makes, and gives the value modulo 2^128. */
  method ParseHugeint(text: string) returns (h: Hugeint, ok: bool)
    ensures ok <==> HugeintRead(text).Some?
    ensures ok ==> HugeValue(h) == HugeintRead(text).value
  {
    var s, neg := text, false;
    h := Hugeint(0, 0);
    if s != "" && s[0] == '-' {
      neg, s := true, s[1..];
    } else if s != "" && s[0] == '+' {
      s := s[1..];
    }
    if s == "" {
      return h, false;
    }
    var hi, lo, fits := ParseMagnitude(s);
    if !fits || hi > INT64_MAX {
      return h, false;
    }
    h := Hugeint(hi, lo);
    if neg {
      h := NegateHugeint(h);
    }
    return h, true;
  }

  method ParseMagnitude(s: string) returns (hi: Word, lo: Word, ok: bool)
    ensures ok <==> AllDigits(s) && !Detected(s)
    ensures ok ==> hi * W + lo == Value(s) % M128
  {
    hi, lo := 0, 0;
    for i := 0 to |s|
      invariant AllDigits(s[..i]) && hi * W + lo == Value(s[..i]) % M128
      invariant AllDigits(s) ==> forall k :: 0 <= k < i ==> !WrapsAt(s, k)
    {
      var c := s[i];
      if !IsDigit(c) {
        return hi, lo, false;
      }
      ShorterValue(s, i);
      TenfoldModulo(Value(s[..i]), Digit(c));
      hi, lo, ok := TakeSigned(hi, lo, Digit(c));
      if !ok {
        assert AllDigits(s) ==> WrapsAt(s, i);
        return;
      }
    }
    assert s[..|s|] == s;
    return hi, lo, true;
  }

  lemma TenfoldModulo(v: nat, d: nat)
    ensures (v % M128 * 10 + d) % M128 == (v * 10 + d) % M128
  {
    var q := v / M128;
    var x := v % M128 * 10 + d;
    assert v == q * M128 + v % M128;
    assert x == x / M128 * M128 + x % M128;
    QuotientIs(v * 10 + d, M128, q * 10 + x / M128, x % M128);
  }

  // ----- when parseHugeint is exact -----

  lemma TrippedIsTooLarge(v: nat, d: nat)
    requires v < M128 && CarryWraps(v, d)
    ensures v * 10 + d >= M128
  {
    var hi, lo := v / W, v % W;
    assert v == hi * W + lo && lo * 10 == lo * 10 / W * W + lo * 10 % W;
    assert hi * 10 >= hi * 10 % W;
  }

  /** A value in range never trips the test. */
  lemma InRangeIsNotDetected(s: string)
    requires AllDigits(s) && Value(s) < M128
    ensures !Detected(s)
  {
    forall i | 0 <= i < |s|
      ensures !WrapsAt(s, i)
    {
      ValueGrows(s, i);
      ValueOfPrefix(s, i + 1);
      InRangeDoesNotTrip(Value(s[..i]), Digit(s[i]));
    }
  }

  lemma InRangeDoesNotTrip(v: nat, d: nat)
    requires v * 10 + d < M128
    ensures v % M128 == v && !CarryWraps(v, d)
  {
    if CarryWraps(v, d) {
      TrippedIsTooLarge(v, d);
    }
  }

  /** On magnitudes below 2^128: read exactly when below 2^127, and then exactly. */
  lemma HugeintExactBelow128(text: string)
    requires IsInteger(text) && Value(Unsign(text)) < M128
    ensures HugeintRead(text) == if Value(Unsign(text)) < M127 then Some(IntegerOf(text)) else None
  {
    InRangeIsNotDetected(Unsign(text));
  }

  /** parseHugeint is right on a text: a value, and the exact one, precisely in range. */
  ghost predicate ReadRight(text: string) {
    HugeintRead(text) == if IsInteger(text) && Value(Unsign(text)) < M127 then Some(IntegerOf(text)) else None
  }

  /** On every text: right unless the magnitude reaches 2^128, no step trips the test and the
      wrapped value looks like one in range. */
  lemma HugeintRightIff(text: string)
    ensures ReadRight(text) <==>
      IsInteger(text) && Value(Unsign(text)) >= M128 ==>
        Detected(Unsign(text)) || Value(Unsign(text)) % M128 >= M127
  {
    if IsInteger(text) && Value(Unsign(text)) < M128 {
      HugeintExactBelow128(text);
    }
  }

  /** The test looks at the sum only, so nothing trips it when the wrapped upper word is not small. */
  lemma WrapGoesUnseen(v: nat, d: nat)
    requires v < M128 && d < 10 && (v * 10 + d) % M128 >= 10 * W
    ensures !CarryWraps(v, d)
  {
    var hi, lo := v / W, v % W;
    var upper, carry, low := hi * 10 % W, lo * 10 / W, lo * 10 % W;
    assert v == hi * W + lo && lo * 10 == carry * W + low;
    if CarryWraps(v, d) {
      assert hi * 10 == hi * 10 / W * W + upper;
      var q := hi * 10 / W + 1;
      var r := v * 10 + d - q * M128;
      assert r == (upper + carry - W) * W + low + d;
      assert 0 <= r < 10 * W;
      QuotientIs(v * 10 + d, M128, q, r);
    }
  }

  /** A whole range of magnitudes past 2^128 is accepted with a wrong value: those below
      10 * 2^128 that wrap to between 10 * 2^64 and 2^127. */
  lemma {:induction false} OverflowsMissed(n: nat)
    requires M128 <= n < 10 * M128 && 10 * W <= n % M128 < M127
    ensures HugeintRead(Numeral(n)) == Some(n % M128) && !ReadRight(Numeral(n))
  {
    ValueOfNumeral(n);
    NumeralIsUnsigned(n);
    LastDigitUnseen(n);
  }

  lemma LastDigitUnseen(n: nat)
    requires M128 <= n < 10 * M128 && 10 * W <= n % M128
    ensures !Detected(Numeral(n))
  {
    var s, v, d := Numeral(n / 10), n / 10, n % 10;
    assert Numeral(n) == s + [DigitChar(d)];
    ValueOfNumeral(v);
    InRangeIsNotDetected(s);
    InRangeIsItself(v);
    WrapGoesUnseen(v, d);
    NotDetectedLater(s, DigitChar(d));
  }

  lemma InRangeIsItself(v: nat)
    requires v < M128
    ensures v % M128 == v
  {
  }

  lemma NotDetectedLater(s: string, c: char)
    requires AllDigits(s) && IsDigit(c) && !Detected(s) && !CarryWraps(Value(s) % M128, Digit(c))
    ensures !Detected(s + [c])
  {
    var t := s + [c];
    forall i | 0 <= i < |t|
      ensures !WrapsAt(t, i)
    {
      if i < |s| {
        assert t[..i] == s[..i];
        assert !WrapsAt(s, i);
      } else {
        assert t[..i] == s;
      }
    }
  }

  lemma NumeralIsUnsigned(n: nat)
    ensures Unsign(Numeral(n)) == Numeral(n) && IsInteger(Numeral(n)) && !IsNegative(Numeral(n))
    ensures IntegerOf(Numeral(n)) == n
  {
    assert IsDigit(Numeral(n)[0]);
    ValueOfNumeral(n);
  }

  /** Four times ten to the 38 reads as a smaller number. */
  lemma FourE38IsMisread()
    ensures HugeintRead(Numeral(400000000000000000000000000000000000000))
      == Some(59717633079061536536625392568231788544)
  {
    OverflowsMissed(400000000000000000000000000000000000000);
  }

  // ----- rendering -----

  /** hugeintString. */
  function HugeintString(h: Hugeint): string { IntegerString(HugeValue(h)) }

  lemma IntegerStringReads(n: int)
    ensures IsInteger(IntegerString(n)) && IntegerOf(IntegerString(n)) == n
    ensures Value(Unsign(IntegerString(n))) == if n < 0 then -n else n
  {
    if n < 0 {
      assert Unsign("-" + Numeral(-n)) == Numeral(-n);
      ValueOfNumeral(-n);
    } else {
      NumeralIsUnsigned(n);
      ValueOfNumeral(n);
    }
  }

  /** Reading the rendering of a 128-bit integer gives its value back, for all but the smallest. */
  lemma HugeintStringReadsBack(h: Hugeint)
    ensures HugeintRead(HugeintString(h)) == if HugeValue(h) == -M127 then None else Some(HugeValue(h))
  {
    IntegerStringReads(HugeValue(h));
    HugeintExactBelow128(HugeintString(h));
  }
}
