/** Numbers by their shape: what a number looks like, and that tokenizing takes exactly that
    (lexer/lexer.go:467-521). */
module LexShapes {
  import opened Tokens
  import opened ByteClasses
  import opened LexRules
  import opened LexSpec

  // ----- the shape of a number -----

  predicate Digit(c: char) { c in "0123456789" }

  /** Digits, with single underscores between digits. */
  predicate Digits(t: string) { t != "" && forall k :: 0 <= k < |t| ==> DigitAt(t, k) }

  predicate DigitAt(t: string, k: nat)
    requires k < |t|
  {
    Digit(t[k]) || (t[k] == '_' && 0 < k < |t| - 1 && Digit(t[k - 1]) && Digit(t[k + 1]))
  }

  /** Digits; or a point with digits before it, behind it, or both. */
  predicate Mantissa(t: string) { Digits(t) || exists k :: 0 <= k < |t| && Pointed(t, k) }

  predicate Pointed(t: string, k: nat)
    requires k < |t|
  {
    && t[k] == '.' && |t| > 1
    && (k > 0 ==> Digits(t[..k])) && (k + 1 < |t| ==> Digits(t[k + 1..]))
  }

  /** An e, a sign or none, digits. */
  predicate Exponent(t: string) {
    && |t| >= 2 && (t[0] == 'e' || t[0] == 'E')
    && (Digits(t[1..]) || ((t[1] == '+' || t[1] == '-') && Digits(t[2..])))
  }

  predicate NumberSplit(t: string, k: nat) {
    0 < k <= |t| && Mantissa(t[..k]) && (k < |t| ==> Exponent(t[k..]))
  }

  ghost predicate NumberShape(t: string) { exists k: nat :: NumberSplit(t, k) }

  /** What stands at b cannot carry a number that ends there on. */
  predicate CannotContinue(s: string, b: nat)
    requires b <= |s|
  {
    b < |s| ==>
      && !Digit(s[b]) && s[b] != '.'
      && (s[b] == '_' ==> b + 1 == |s| || !Digit(s[b + 1]))
      && (s[b] == 'e' || s[b] == 'E' ==> b + 1 < |s| && s[b + 1] !in "0123456789.+-")
  }

  // ----- every byte of the shape carries the number on -----

  lemma DigitIs(c: char)
    ensures Digit(c) <==> IsDigit(c)
  {
  }

  lemma DigitsEnds(t: string)
    requires Digits(t)
    ensures IsDigit(t[0]) && IsDigit(t[|t| - 1])
  {
    assert DigitAt(t, 0) && DigitAt(t, |t| - 1);
    DigitIs(t[0]);
    DigitIs(t[|t| - 1]);
  }

  /** t stands in s at a. */
  predicate StandsAt(s: string, a: nat, t: string) { a + |t| <= |s| && s[a..a + |t|] == t }

  lemma DigitsCarry(s: string, start: nat, a: nat, t: string, k: nat)
    requires Digits(t) && StandsAt(s, a, t) && k < |t| && start < a + k
    ensures NumberContinues(s, start, a + k)
  {
    assert s[a + k] == t[k] && DigitAt(t, k);
    DigitIs(t[k]);
    if t[k] == '_' {
      assert s[a + k - 1] == t[k - 1] && s[a + k + 1] == t[k + 1];
      DigitIs(t[k - 1]);
      DigitIs(t[k + 1]);
    }
  }

  /** A mantissa begins like a number, ends like one, and has a digit at one of its ends. */
  lemma MantissaEnds(t: string)
    requires Mantissa(t)
    ensures t != "" && IsInitialNumber(t[0]) && IsInitialNumber(t[|t| - 1])
    ensures IsDigit(t[0]) || IsDigit(t[|t| - 1])
  {
    if Digits(t) {
      DigitsEnds(t);
    } else {
      var k :| 0 <= k < |t| && Pointed(t, k);
      if k > 0 {
        DigitsEnds(t[..k]);
      }
      if k + 1 < |t| {
        DigitsEnds(t[k + 1..]);
      }
    }
  }

  lemma MantissaCarries(s: string, a: nat, t: string, k: nat)
    requires Mantissa(t) && StandsAt(s, a, t) && 0 < k < |t|
    ensures NumberContinues(s, a, a + k)
  {
    if Digits(t) {
      DigitsCarry(s, a, a, t, k);
    } else {
      var p :| 0 <= p < |t| && Pointed(t, p);
      PointedCarries(s, a, t, p, k);
    }
  }

  lemma PointedCarries(s: string, a: nat, t: string, p: nat, k: nat)
    requires p < |t| && Pointed(t, p) && StandsAt(s, a, t) && 0 < k < |t|
    ensures NumberContinues(s, a, a + k)
  {
    if k == p {
      assert s[a + k] == t[k];
    } else if k < p {
      PieceStands(s, a, t, 0, p);
      DigitsCarry(s, a, a, t[..p], k);
    } else {
      PieceStands(s, a, t, p + 1, |t|);
      DigitsCarry(s, a, a + p + 1, t[p + 1..], k - p - 1);
    }
  }

  lemma PieceStands(s: string, a: nat, t: string, from: nat, end: nat)
    requires StandsAt(s, a, t) && from <= end <= |t|
    ensures StandsAt(s, a + from, t[from..end])
  {
    forall j | 0 <= j < end - from
      ensures s[a + from..a + end][j] == t[from..end][j]
    {
      assert s[a..a + |t|][from + j] == t[from + j];
    }
  }

  lemma ExponentCarries(s: string, start: nat, a: nat, t: string, k: nat)
    requires Exponent(t) && StandsAt(s, a, t) && k < |t| && start < a
    requires IsInitialNumber(s[a - 1]) && (IsDigit(s[start]) || IsDigit(s[a - 1]))
    ensures NumberContinues(s, start, a + k)
  {
    assert s[a + k] == t[k];
    assert k > 0 ==> s[a + k - 1] == t[k - 1];
    if k > 0 && Digits(t[1..]) {
      assert s[a + 1..a + |t|] == t[1..];
      DigitsCarry(s, start, a + 1, t[1..], k - 1);
    } else if k > 1 {
      assert s[a + 2..a + |t|] == t[2..];
      DigitsCarry(s, start, a + 2, t[2..], k - 2);
    }
  }

  lemma ExponentEnds(t: string)
    requires Exponent(t)
    ensures IsDigit(t[|t| - 1])
  {
    if Digits(t[1..]) {
      DigitsEnds(t[1..]);
    } else {
      DigitsEnds(t[2..]);
    }
  }

  lemma ShapeCarries(s: string, a: nat, t: string)
    requires NumberShape(t) && StandsAt(s, a, t)
    ensures t != "" && IsInitialNumber(s[a]) && IsInitialNumber(s[a + |t| - 1])
    ensures forall k :: a < k < a + |t| ==> NumberContinues(s, a, k)
  {
    var n: nat :| NumberSplit(t, n);
    MantissaEnds(t[..n]);
    assert s[a] == t[0] == t[..n][0] && s[a + n - 1] == t[n - 1] == t[..n][n - 1];
    assert s[a..a + n] == t[..n];
    if n < |t| {
      ExponentEnds(t[n..]);
      assert s[a + |t| - 1] == t[|t| - 1] == t[n..][|t| - n - 1];
      assert s[a + n..a + |t|] == t[n..];
    }
    forall k | a < k < a + |t|
      ensures NumberContinues(s, a, k)
    {
      if k < a + n {
        MantissaCarries(s, a, t[..n], k - a);
      } else {
        ExponentCarries(s, a, a + n, t[n..], k - a - n);
      }
    }
  }

  // ----- where the number ends -----

  lemma {:induction false} StopReaches(s: string, start: nat, i: nat, b: nat)
    requires start < i <= b <= |s| && forall k :: i <= k < b ==> NumberContinues(s, start, k)
    ensures NumberStop(s, start, i) == NumberStop(s, start, b)
    decreases b - i
  {
    if i < b {
      StopReaches(s, start, i + 1, b);
    }
  }

  lemma {:induction false} EndReaches(s: string, start: nat, i: nat, b: nat)
    requires start < b <= i <= |s| && IsInitialNumber(s[start]) && IsInitialNumber(s[b - 1])
    ensures b <= NumberEnd(s, start, i)
    decreases i
  {
    if !IsInitialNumber(s[i - 1]) {
      EndReaches(s, start, i - 1, b);
    }
  }

  lemma StartsNumber(s: string, a: nat)
    requires a < |s| && IsInitialNumber(s[a])
    ensures LexemeAt(s, a) == NumberLexeme
  {
  }

  /** The number at a, as the token at hand: its end, and whether it runs to the end of the source. */
  ghost function TokenEnd(s: string, a: nat): (e: nat)
    requires a < |s| && IsInitialNumber(s[a])
    ensures a < e <= |s|
  {
    var stop := NumberStop(s, a, a + 1);
    if stop == |s| then stop else NumberEnd(s, a, stop)
  }

  /** What a number token from a to e leaves. */
  ghost function NumberTaken(s: string, a: nat, e: nat, st: LexState): Next
    requires a < e <= |s|
  {
    if e == |s| then Ends(Lexed(PushLast(s, st, a, Number))) else At(e, PushRange(s, st, a, e, Number, false))
  }

  /** What begins with a digit or a point gives one Number token, up to TokenEnd. */
  lemma NumberToken(lexicon: Lexicon, s: string, a: nat, mark: nat, st: LexState)
    requires mark <= a < |s| && IsInitialNumber(s[a])
    ensures NextAt(lexicon, s, a, mark, st) == NumberTaken(s, a, TokenEnd(s, a), st)
  {
    StartsNumber(s, a);
  }

  /** A number token never stops where a longer text still has the shape. */
  lemma LongestNumber(s: string, a: nat, b: nat)
    requires a < b <= |s| && NumberShape(s[a..b])
    ensures IsInitialNumber(s[a]) && b <= TokenEnd(s, a)
  {
    ShapeCarries(s, a, s[a..b]);
    StopReaches(s, a, a + 1, b);
    EndReaches(s, a, NumberStop(s, a, b), b);
  }

  /** A text of the shape, before what cannot continue it or at the end, is one Number token. */
  lemma ShapeIsToken(lexicon: Lexicon, s: string, a: nat, b: nat, mark: nat, st: LexState)
    requires mark <= a < b <= |s| && NumberShape(s[a..b]) && CannotContinue(s, b)
    ensures IsInitialNumber(s[a])
    ensures TokenEnd(s, a) == b && NextAt(lexicon, s, a, mark, st) == NumberTaken(s, a, b, st)
  {
    ShapeCarries(s, a, s[a..b]);
    StopReaches(s, a, a + 1, b);
    StartsNumber(s, a);
    if b < |s| {
      StopsSoon(s, a, b);
    }
  }

  /** At most the letter of an exponent that is none is read in vain. */
  lemma StopsSoon(s: string, a: nat, b: nat)
    requires a < b < |s| && IsInitialNumber(s[a]) && IsInitialNumber(s[b - 1]) && CannotContinue(s, b)
    ensures NumberStop(s, a, b) < |s| && NumberEnd(s, a, NumberStop(s, a, b)) == b
  {
    DigitIs(s[b]);
    if b + 1 < |s| {
      DigitIs(s[b + 1]);
    }
    if NumberContinues(s, a, b) {
      assert IsScientific(s[b]);
      assert !NumberContinues(s, a, b + 1);
      assert NumberStop(s, a, b) == NumberStop(s, a, b + 1) == b + 1;
    }
  }

  /** By itself such a text is one token. */
  lemma NumberAlone(lexicon: Lexicon, t: string)
    requires NumberShape(t)
    ensures TokensOf(lexicon, t)
      == Tokenized([Token(Number, t, Span(0, |t|), false, false, false), PlainToken(EndOfInput, "", |t|)])
  {
    assert t[0..|t|] == t;
    ShapeCarries(t, 0, t);
    ShapeIsToken(lexicon, t, 0, |t|, 0, EMPTY);
    assert PushLast(t, EMPTY, 0, Number).tokens == [Token(Number, t, Span(0, |t|), false, false, false)];
  }
}
