/** Decimal numerals: the value of a digit string, and the numeral of a number. */
module Decimal {

  predicate IsDigit(c: char) { '0' <= c <= '9' }

  predicate AllDigits(s: string) { forall i :: 0 <= i < |s| ==> IsDigit(s[i]) }

  function Digit(c: char): (d: nat)
    requires IsDigit(c)
    ensures d < 10
  {
    c as int - '0' as int
  }

  function DigitChar(d: nat): (c: char)
    requires d < 10
    ensures IsDigit(c) && Digit(c) == d
  {
    ('0' as int + d) as char
  }

  /** The number a digit string writes, most significant digit first. */
  function Value(s: string): nat
    requires AllDigits(s)
  {
    if s == "" then 0 else Value(s[..|s| - 1]) * 10 + Digit(s[|s| - 1])
  }

  /** The numeral of n, without leading zeros. */
  function Numeral(n: nat): (s: string)
    ensures s != "" && AllDigits(s)
  {
    if n < 10 then [DigitChar(n)] else Numeral(n / 10) + [DigitChar(n % 10)]
  }

  function Pow10(k: nat): nat { if k == 0 then 1 else 10 * Pow10(k - 1) }

  lemma ValueGrows(s: string, i: nat)
    requires AllDigits(s) && i < |s|
    ensures Value(s[..i + 1]) == Value(s[..i]) * 10 + Digit(s[i])
  {
    assert s[..i + 1][..i] == s[..i];
  }

  lemma {:induction false} ValueOfPrefix(s: string, i: nat)
    requires AllDigits(s) && i <= |s|
    ensures Value(s[..i]) <= Value(s)
    decreases |s| - i
  {
    if i < |s| {
      ValueGrows(s, i);
      ValueOfPrefix(s, i + 1);
    } else {
      assert s[..i] == s;
    }
  }

  lemma {:induction false} ValueOfNumeral(n: nat)
    ensures Value(Numeral(n)) == n
  {
    var s := Numeral(n);
    assert n < 10 ==> s[..0] == "";
    if n >= 10 {
      ValueOfNumeral(n / 10);
      assert s[..|s| - 1] == Numeral(n / 10);
    }
  }

  predicate NoLeadingZero(s: string) { s != "" && AllDigits(s) && (s[0] == '0' ==> |s| == 1) }

  lemma {:induction false} NumeralStartsClean(n: nat)
    ensures NoLeadingZero(Numeral(n)) && (Numeral(n)[0] == '0' <==> n == 0)
  {
    if n >= 10 {
      NumeralStartsClean(n / 10);
      assert Numeral(n)[0] == Numeral(n / 10)[0];
    }
  }

  lemma {:induction false} NumeralOfValue(s: string)
    requires NoLeadingZero(s)
    ensures Numeral(Value(s)) == s
  {
    var shorter, d := s[..|s| - 1], s[|s| - 1];
    if |s| == 1 {
      assert Value(shorter) == 0;
    } else {
      NumeralOfValue(shorter);
      ValueIsPositive(shorter);
      OneMoreDigit(Value(shorter), Digit(d));
      assert s == shorter + [d];
    }
  }

  lemma OneMoreDigit(n: nat, d: nat)
    requires n > 0 && d < 10
    ensures Numeral(n * 10 + d) == Numeral(n) + [DigitChar(d)]
  {
    assert (n * 10 + d) / 10 == n && (n * 10 + d) % 10 == d;
  }

  lemma {:induction false} ValueIsPositive(s: string)
    requires s != "" && AllDigits(s) && s[0] != '0'
    ensures Value(s) > 0
  {
    if |s| > 1 {
      ValueIsPositive(s[..|s| - 1]);
    }
  }

  lemma {:induction false} ValueOfJoin(a: string, b: string)
    requires AllDigits(a) && AllDigits(b)
    ensures AllDigits(a + b) && Value(a + b) == Value(a) * Pow10(|b|) + Value(b)
  {
    if b == "" {
      assert a + b == a;
    } else {
      var c, d := b[..|b| - 1], b[|b| - 1];
      ValueOfJoin(a, c);
      assert a + b == (a + c) + [d];
      ValueOfOneMore(a + c, d);
      TenTimes(Value(a), Pow10(|c|), Value(c), Digit(d));
    }
  }

  lemma ValueOfOneMore(s: string, d: char)
    requires AllDigits(s) && IsDigit(d)
    ensures Value(s + [d]) == Value(s) * 10 + Digit(d)
  {
    assert (s + [d])[..|s|] == s;
  }

  lemma TenTimes(a: nat, p: nat, c: nat, d: nat)
    ensures (a * p + c) * 10 + d == a * (10 * p) + (c * 10 + d)
  {
    assert a * (10 * p) == (a * p) * 10;
  }

  lemma {:induction false} LeadingZeros(z: string, s: string)
    requires AllDigits(s) && forall i :: 0 <= i < |z| ==> z[i] == '0'
    ensures AllDigits(z + s) && Value(z + s) == Value(s)
  {
    ValueOfJoin(z, s);
    ZerosAreZero(z);
  }

  lemma {:induction false} ZerosAreZero(z: string)
    requires forall i :: 0 <= i < |z| ==> z[i] == '0'
    ensures AllDigits(z) && Value(z) == 0
  {
    if z != "" {
      ZerosAreZero(z[..|z| - 1]);
    }
  }

  lemma {:induction false} ValueIsBelowPower(s: string)
    requires AllDigits(s)
    ensures Value(s) < Pow10(|s|)
  {
    if s != "" {
      ValueIsBelowPower(s[..|s| - 1]);
    }
  }

  /** The decimal rendering of an integer. */
  function IntegerString(n: int): string {
    if n < 0 then "-" + Numeral(-n) else Numeral(n)
  }

  lemma RenderingsDiffer(a: int, b: int)
    requires IntegerString(a) == IntegerString(b)
    ensures a == b
  {
    var x, y := if a < 0 then -a else a, if b < 0 then -b else b;
    ValueOfNumeral(x);
    ValueOfNumeral(y);
    assert IsDigit(Numeral(x)[0]) && IsDigit(Numeral(y)[0]);
    assert a < 0 ==> IntegerString(a)[1..] == Numeral(x);
    assert b < 0 ==> IntegerString(b)[1..] == Numeral(y);
  }

  lemma {:induction false} NumeralLength(n: nat, k: nat)
    requires 0 < k && n < Pow10(k)
    ensures |Numeral(n)| <= k
  {
    if n >= 10 {
      NumeralLength(n / 10, k - 1);
    }
  }
}
