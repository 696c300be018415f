/** Query text validation (parser/utf8.go:17-55). */
module Utf8 {

  type Byte = b: int | 0 <= b < 256

  datatype Verdict = Valid | ByteMismatch(offset: nat) | InvalidUnicode(offset: nat)

  // ----- encoded characters -----

  /** How many continuation bytes a lead byte announces, or -1. */
  function Announced(c: Byte): int {
    if c < 0x80 then 0
    else if 0xC0 <= c < 0xE0 then 1
    else if 0xE0 <= c < 0xF0 then 2
    else if 0xF0 <= c < 0xF8 then 3
    else -1
  }

  predicate IsContinuation(c: Byte) { 0x80 <= c < 0xC0 }

  /** A lead byte with as many continuation bytes as it announces. */
  predicate IsSequence(u: seq<Byte>) {
    u != [] && |u| == Announced(u[0]) + 1 && forall i :: 0 < i < |u| ==> IsContinuation(u[i])
  }

  /** The payload bits of a lead byte, and of a continuation byte. */
  function LeadBits(c: Byte): (r: nat)
    ensures c < 0x80 ==> r == c
    ensures 0xC0 <= c < 0xE0 ==> r == c - 0xC0
    ensures 0xE0 <= c < 0xF0 ==> r == c - 0xE0
    ensures 0xF0 <= c < 0xF8 ==> r == c - 0xF0
  {
    if c < 0x80 then c else if c < 0xE0 then c % 0x20 else if c < 0xF0 then c % 0x10 else c % 0x08
  }

  function LowBits(c: Byte): (r: nat)
    ensures r < 64 && (IsContinuation(c) ==> r == c - 0x80)
  {
    c % 0x40
  }

  function CodePoint(u: seq<Byte>): nat
    requires u != []
  {
    if |u| == 1 then LeadBits(u[0]) else CodePoint(u[..|u| - 1]) * 64 + LowBits(u[|u| - 1])
  }

  predicate IsSurrogate(cp: nat) { 0xD800 <= cp <= 0xDFFF }

  predicate IsScalar(cp: nat) { cp <= 0x10FFFF && !IsSurrogate(cp) }

  /** One accepted character. */
  predicate Accepted(u: seq<Byte>) { IsSequence(u) && IsScalar(CodePoint(u)) }

  // ----- texts -----

  function Joined(us: seq<seq<Byte>>): seq<Byte> {
    if us == [] then [] else us[0] + Joined(us[1..])
  }

  predicate AllAccepted(us: seq<seq<Byte>>) { forall i :: 0 <= i < |us| ==> Accepted(us[i]) }

  /** The bytes split into accepted characters. */
  ghost predicate IsText(s: seq<Byte>) {
    exists us :: AllAccepted(us) && Joined(us) == s
  }

  /** Some accepted character stands at the front. */
  ghost predicate StartsAccepted(s: seq<Byte>) {
    exists k :: 0 < k <= |s| && Accepted(s[..k])
  }

  /** A complete sequence stands at the front. */
  ghost predicate StartsSequence(s: seq<Byte>) {
    exists k :: 0 < k <= |s| && IsSequence(s[..k])
  }

  /** The verdict on a text, said of the text alone. */
  ghost predicate Judges(s: seq<Byte>, v: Verdict) {
    match v
    case Valid => IsText(s)
    case ByteMismatch(o) => o < |s| && IsText(s[..o]) && !StartsSequence(s[o..])
    case InvalidUnicode(o) => o < |s| && IsText(s[..o]) && StartsSequence(s[o..]) && !StartsAccepted(s[o..])
  }

  /** Sequences at the front of the same bytes are the same: the lead byte fixes the length. */
  lemma OneSequence(s: seq<Byte>, j: nat, k: nat)
    requires 0 < j <= |s| && 0 < k <= |s| && IsSequence(s[..j]) && IsSequence(s[..k])
    ensures j == k
  {
    assert s[..j][0] == s[0] == s[..k][0];
  }

  lemma {:induction false} JoinedMore(us: seq<seq<Byte>>, u: seq<Byte>)
    ensures Joined(us + [u]) == Joined(us) + u
  {
    if us == [] {
      assert [] + [u] == [u] && [u][1..] == [];
    } else {
      JoinedMore(us[1..], u);
      assert (us + [u])[1..] == us[1..] + [u];
    }
  }

  lemma OneMoreCharacter(s: seq<Byte>, i: nat, j: nat)
    requires i <= j <= |s| && IsText(s[..i]) && Accepted(s[i..j])
    ensures IsText(s[..j])
  {
    var us :| AllAccepted(us) && Joined(us) == s[..i];
    JoinedMore(us, s[i..j]);
    assert s[..j] == s[..i] + s[i..j];
    assert AllAccepted(us + [s[i..j]]);
  }

  /** analyzeUTF8. */
  method Analyze(s: seq<Byte>) returns (v: Verdict)
    ensures Judges(s, v)
  {
    var i := 0;
    assert AllAccepted([]) && Joined([]) == s[..0];
    while i < |s|
      invariant i <= |s| && IsText(s[..i])
    {
      var c := s[i];
      var start := i;
      if c < 0x80 {
        i := i + 1;
        Single(s, start);
        OneMoreCharacter(s, start, i);
        continue;
      }
      var cont: int, cp: int := 0, 0;
      if 0xC0 <= c < 0xE0 {
        cont, cp := 1, LeadBits(c);
      } else if 0xE0 <= c < 0xF0 {
        cont, cp := 2, LeadBits(c);
      } else if 0xF0 <= c < 0xF8 {
        cont, cp := 3, LeadBits(c);
      } else {
        NoSequence(s, start);
        return ByteMismatch(start);
      }
      i := i + 1;
      for j := 0 to cont
        invariant i == start + 1 + j <= |s|
        invariant forall k :: start < k < i ==> IsContinuation(s[k])
        invariant cp == CodePoint(s[start..i])
      {
        if i >= |s| || !IsContinuation(s[i]) {
          BrokenSequence(s, start, i);
          return ByteMismatch(start);
        }
        cp := cp * 64 + LowBits(s[i]);
        assert s[start..i + 1][..i - start] == s[start..i];
        i := i + 1;
      }
      assert IsSequence(s[start..i]);
      if cp > 0x10FFFF || 0xD800 <= cp <= 0xDFFF {
        NotAccepted(s, start, i);
        return InvalidUnicode(start);
      }
      OneMoreCharacter(s, start, i);
    }
    assert s[..i] == s;
    return Valid;
  }

  lemma Single(s: seq<Byte>, i: nat)
    requires i < |s| && s[i] < 0x80
    ensures Accepted(s[i..i + 1])
  {
    assert s[i..i + 1] == [s[i]];
  }

  lemma NoSequence(s: seq<Byte>, i: nat)
    requires i < |s| && Announced(s[i]) == -1
    ensures !StartsSequence(s[i..])
  {
    var t := s[i..];
    forall k | 0 < k <= |t|
      ensures !IsSequence(t[..k])
    {
      assert t[..k][0] == s[i];
    }
  }

  lemma BrokenSequence(s: seq<Byte>, start: nat, i: nat)
    requires start < i <= |s| && i - start <= Announced(s[start])
    requires i < |s| ==> !IsContinuation(s[i])
    ensures !StartsSequence(s[start..])
  {
    var t := s[start..];
    forall k | 0 < k <= |t|
      ensures !IsSequence(t[..k])
    {
      assert t[..k][0] == s[start];
      if k > i - start {
        assert t[..k][i - start] == s[i];
      }
    }
  }

  lemma NotAccepted(s: seq<Byte>, start: nat, i: nat)
    requires start < i <= |s| && IsSequence(s[start..i]) && !Accepted(s[start..i])
    ensures StartsSequence(s[start..]) && !StartsAccepted(s[start..])
  {
    var t := s[start..];
    var n := i - start;
    assert t[..n] == s[start..i];
    forall k | 0 < k <= |t| && IsSequence(t[..k])
      ensures k == n
    {
      OneSequence(t, k, n);
    }
  }

  // ----- the verdict decides -----

  /** A text that starts with a bad sequence after a good prefix splits no other way. */
  lemma {:induction false} SplitsOneWay(us: seq<seq<Byte>>, vs: seq<seq<Byte>>, rest: seq<Byte>)
    requires AllAccepted(us) && AllAccepted(vs) && Joined(us) == Joined(vs) + rest
    requires rest != []
    ensures StartsAccepted(rest)
    decreases |vs|
  {
    assert |Joined(us)| == |Joined(vs)| + |rest| > 0;
    var u := us[0];
    var s := Joined(us);
    if vs == [] {
      assert s == rest && rest[..|u|] == u;
    } else {
      var v := vs[0];
      assert s[..|u|] == u;
      assert s == v + (Joined(vs[1..]) + rest);
      assert s[..|v|] == v;
      OneSequence(s, |u|, |v|);
      assert Joined(us[1..]) == s[|u|..] == Joined(vs[1..]) + rest;
      SplitsOneWay(us[1..], vs[1..], rest);
    }
  }

  /** Every verdict but Valid says that the text is not one. */
  lemma ErrorsAreRight(s: seq<Byte>, v: Verdict)
    requires Judges(s, v)
    ensures v.Valid? <==> IsText(s)
  {
    if !v.Valid? && IsText(s) {
      var us :| AllAccepted(us) && Joined(us) == s;
      var vs :| AllAccepted(vs) && Joined(vs) == s[..v.offset];
      assert s == s[..v.offset] + s[v.offset..];
      SplitsOneWay(us, vs, s[v.offset..]);
      AcceptedIsSequence(s[v.offset..]);
    }
  }

  /** A text has one verdict. */
  lemma VerdictIsUnique(s: seq<Byte>, v: Verdict, v': Verdict)
    requires Judges(s, v) && Judges(s, v')
    ensures v == v'
  {
    ErrorsAreRight(s, v);
    ErrorsAreRight(s, v');
    if !v.Valid? {
      AcceptedIsSequence(s[v.offset..]);
      AcceptedIsSequence(s[v'.offset..]);
      NoLaterError(s, v.offset, v'.offset);
      NoLaterError(s, v'.offset, v.offset);
    }
  }

  /** Past a place where no accepted character starts there is no valid prefix. */
  lemma NoLaterError(s: seq<Byte>, i: nat, j: nat)
    requires i <= |s| && j <= |s| && IsText(s[..i]) && IsText(s[..j]) && !StartsAccepted(s[i..])
    ensures j <= i
  {
    if i < j {
      var us :| AllAccepted(us) && Joined(us) == s[..j];
      var vs :| AllAccepted(vs) && Joined(vs) == s[..i];
      assert s[..j] == s[..i] + s[i..j];
      SplitsOneWay(us, vs, s[i..j]);
      StartsLonger(s, i, j);
    }
  }

  lemma StartsLonger(s: seq<Byte>, i: nat, j: nat)
    requires i <= j <= |s|
    ensures StartsAccepted(s[i..j]) ==> StartsAccepted(s[i..])
  {
    if StartsAccepted(s[i..j]) {
      var k :| 0 < k <= |s[i..j]| && Accepted(s[i..j][..k]);
      assert s[i..][..k] == s[i..j][..k];
    }
  }

  lemma AcceptedIsSequence(s: seq<Byte>)
    ensures StartsAccepted(s) ==> StartsSequence(s)
  {
    if StartsAccepted(s) {
      var k :| 0 < k <= |s| && Accepted(s[..k]);
      assert IsSequence(s[..k]);
    }
  }

  // ----- against the standard -----

  /** UTF8-char of RFC 3629, section 4. */
  predicate IsUtf8Char(u: seq<Byte>) {
    || (|u| == 1 && u[0] <= 0x7F)
    || (|u| == 2 && 0xC2 <= u[0] <= 0xDF && IsContinuation(u[1]))
    || (|u| == 3 && IsContinuation(u[2]) && (
         || (u[0] == 0xE0 && 0xA0 <= u[1] <= 0xBF)
         || (0xE1 <= u[0] <= 0xEC && IsContinuation(u[1]))
         || (u[0] == 0xED && 0x80 <= u[1] <= 0x9F)
         || (0xEE <= u[0] <= 0xEF && IsContinuation(u[1]))))
    || (|u| == 4 && IsContinuation(u[2]) && IsContinuation(u[3]) && (
         || (u[0] == 0xF0 && 0x90 <= u[1] <= 0xBF)
         || (0xF1 <= u[0] <= 0xF3 && IsContinuation(u[1]))
         || (u[0] == 0xF4 && 0x80 <= u[1] <= 0x8F)))
  }

  /** A sequence longer than its code point needs. */
  predicate IsOverlong(u: seq<Byte>) {
    IsSequence(u)
      && CodePoint(u) < (if |u| == 1 then 0 else if |u| == 2 then 0x80 else if |u| == 3 then 0x800 else 0x1_0000)
  }

  lemma CodePointOf(u: seq<Byte>)
    requires 1 <= |u| <= 4
    ensures |u| == 1 ==> CodePoint(u) == LeadBits(u[0])
    ensures |u| == 2 ==> CodePoint(u) == LeadBits(u[0]) * 64 + LowBits(u[1])
    ensures |u| == 3 ==> CodePoint(u) == LeadBits(u[0]) * 4096 + LowBits(u[1]) * 64 + LowBits(u[2])
    ensures |u| == 4 ==>
      CodePoint(u) == LeadBits(u[0]) * 262144 + LowBits(u[1]) * 4096 + LowBits(u[2]) * 64 + LowBits(u[3])
  {
    if |u| > 1 {
      CodePointOf(u[..|u| - 1]);
    }
  }

  /** What is accepted is the standard's characters and the overlong forms of scalar values. */
  lemma AcceptedIff(u: seq<Byte>)
    ensures Accepted(u) <==> IsUtf8Char(u) || (IsOverlong(u) && IsScalar(CodePoint(u)))
    ensures IsUtf8Char(u) ==> !IsOverlong(u)
  {
    if IsSequence(u) {
      CodePointOf(u);
      if |u| == 3 {
        AcceptedThree(u);
      } else if |u| == 4 {
        AcceptedFour(u);
      }
    }
  }

  lemma AcceptedThree(u: seq<Byte>)
    requires |u| == 3 && IsSequence(u)
    ensures IsUtf8Char(u) <==> IsScalar(CodePoint(u)) && CodePoint(u) >= 0x800
  {
    CodePointOf(u);
  }

  lemma AcceptedFour(u: seq<Byte>)
    requires |u| == 4 && IsSequence(u)
    ensures IsUtf8Char(u) <==> IsScalar(CodePoint(u)) && CodePoint(u) >= 0x1_0000
  {
    CodePointOf(u);
  }

  /** The standard's encoding of a scalar value. */
  function Encode(cp: nat): seq<Byte>
    requires IsScalar(cp)
  {
    var low, mid, high := cp % 64, cp / 64 % 64, cp / 4096 % 64;
    if cp < 0x80 then [cp]
    else if cp < 0x800 then [0xC0 + cp / 64, 0x80 + low]
    else if cp < 0x1_0000 then [0xE0 + cp / 4096, 0x80 + mid, 0x80 + low]
    else [0xF0 + cp / 262144, 0x80 + high, 0x80 + mid, 0x80 + low]
  }

  /** Encoded and decoded again. */
  lemma EncodingRoundTrips(cp: nat)
    requires IsScalar(cp)
    ensures IsUtf8Char(Encode(cp)) && CodePoint(Encode(cp)) == cp
  {
    var u := Encode(cp);
    CodePointOf(u);
    Digits64(cp);
    assert IsSequence(u);
    AcceptedIff(u);
  }

  lemma Digits64(cp: nat)
    ensures cp == cp / 64 * 64 + cp % 64
    ensures cp / 64 == cp / 4096 * 64 + cp / 64 % 64
    ensures cp / 4096 == cp / 262144 * 64 + cp / 4096 % 64
  {
  }

  /** Decoded and encoded again. */
  lemma DecodingRoundTrips(u: seq<Byte>)
    requires IsUtf8Char(u)
    ensures IsScalar(CodePoint(u)) && Encode(CodePoint(u)) == u
  {
    AcceptedIff(u);
    if |u| == 1 {
      CodePointOf(u);
    } else if |u| == 2 {
      TwoRoundTrip(u);
    } else if |u| == 3 {
      ThreeRoundTrip(u);
    } else {
      FourRoundTrip(u);
    }
  }

  lemma TwoRoundTrip(u: seq<Byte>)
    requires IsUtf8Char(u) && IsScalar(CodePoint(u)) && |u| == 2
    ensures Encode(CodePoint(u)) == u
  {
    CodePointOf(u);
    ByDigits(0, 0, LeadBits(u[0]), LowBits(u[1]));
  }

  lemma ThreeRoundTrip(u: seq<Byte>)
    requires IsUtf8Char(u) && IsScalar(CodePoint(u)) && |u| == 3
    ensures Encode(CodePoint(u)) == u
  {
    CodePointOf(u);
    ByDigits(0, LeadBits(u[0]), LowBits(u[1]), LowBits(u[2]));
  }

  lemma FourRoundTrip(u: seq<Byte>)
    requires IsUtf8Char(u) && IsScalar(CodePoint(u)) && |u| == 4
    ensures Encode(CodePoint(u)) == u
  {
    CodePointOf(u);
    ByDigits(LeadBits(u[0]), LowBits(u[1]), LowBits(u[2]), LowBits(u[3]));
  }

  lemma ByDigits(a: nat, b: nat, c: nat, d: nat)
    requires b < 64 && c < 64 && d < 64
    ensures
      var cp := a * 262144 + b * 4096 + c * 64 + d;
      && cp % 64 == d && cp / 64 == a * 4096 + b * 64 + c && cp / 64 % 64 == c
      && cp / 4096 == a * 64 + b && cp / 4096 % 64 == b && cp / 262144 == a
  {
  }
}
