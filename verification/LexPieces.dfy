/** What each kind of lexeme looks like, by its bytes and not by the machine that finds it
    (lexer/lexer.go:66-247, 313-338, 370-646). */
module LexPieces {
  import opened Tokens
  import opened ByteClasses
  import opened LexRules
  import opened LexSpec
  import Utf8

  // ----- blanks -----

  /** The code points of the Unicode White_Space property past ASCII. */
  predicate IsWideSpace(cp: nat) {
    || cp in {0x85, 0xA0, 0x1680, 0x2028, 0x2029, 0x202F, 0x205F, 0x3000}
    || 0x2000 <= cp <= 0x200A
  }

  /** The bytes at i are u. */
  predicate BytesAt(s: string, i: nat, u: seq<Utf8.Byte>) {
    i + |u| <= |s| && forall k :: 0 <= k < |u| ==> s[i + k] as int == u[k] as int
  }

  ghost predicate WideSpaceAt(s: string, i: nat, cp: nat) {
    IsWideSpace(cp) && Utf8.IsScalar(cp) && BytesAt(s, i, Utf8.Encode(cp))
  }

  lemma WideSpaceEncoded(cp: nat)
    requires IsWideSpace(cp)
    ensures Utf8.IsScalar(cp)
    ensures cp < 0x800 ==> Utf8.Encode(cp) == [0xC2, cp]
    ensures cp >= 0x800 ==> Utf8.Encode(cp) == [0xE0 + cp / 4096, 0x80 + cp / 64 % 64, 0x80 + cp % 64]
  {
  }

  lemma WideSpaceSkipped(s: string, i: nat, cp: nat)
    requires i < |s| && WideSpaceAt(s, i, cp)
    ensures UnicodeSpaceLen(s, i) == |Utf8.Encode(cp)|
  {
    WideSpaceEncoded(cp);
    var u := Utf8.Encode(cp);
    assert s[i + 0] as int == u[0] as int && s[i + 1] as int == u[1] as int;
    if cp >= 0x800 {
      assert s[i + 2] as int == u[2] as int;
    }
  }

  lemma SkippedIsWideSpace(s: string, i: nat) returns (cp: nat)
    requires i < |s| && UnicodeSpaceLen(s, i) > 0
    ensures WideSpaceAt(s, i, cp) && UnicodeSpaceLen(s, i) == |Utf8.Encode(cp)|
  {
    if UnicodeSpaceLen(s, i) == 2 {
      cp := s[i + 1] as int;
    } else {
      cp := (s[i] as int - 0xE0) * 4096 + (s[i + 1] as int - 0x80) * 64 + (s[i + 2] as int - 0x80);
    }
    WideSpaceEncoded(cp);
  }

  /** A blank is skipped as a whole exactly when it is the UTF-8 form of a space. */
  lemma UnicodeSpaceIff(s: string, i: nat, n: nat)
    requires i < |s| && n > 0
    ensures UnicodeSpaceLen(s, i) == n <==> exists cp :: WideSpaceAt(s, i, cp) && n == |Utf8.Encode(cp)|
  {
    if UnicodeSpaceLen(s, i) == n {
      var cp := SkippedIsWideSpace(s, i);
    }
    forall cp | WideSpaceAt(s, i, cp)
      ensures UnicodeSpaceLen(s, i) == |Utf8.Encode(cp)|
    {
      WideSpaceSkipped(s, i, cp);
    }
  }

  // ----- which lexeme stands where -----

  const OPERATOR_BYTES := "+-*/%^<>=~!@&|"
  const PUNCTUATION := "!\"#$%&'()*+,-./:;<=>?@[\\]^`{|}~"
  const BLANKS := [' ', '\t', '\n', '\U{0b}', '\U{0c}', '\r']

  predicate Two(s: string, i: nat, a: char, b: string) { i + 1 < |s| && s[i] == a && s[i + 1] in b }

  predicate OperatorByteAt(s: string, i: nat) { i < |s| && s[i] in OPERATOR_BYTES }

  predicate WordByte(c: char) { c !in PUNCTUATION && c !in BLANKS }

  predicate TagByte(c: char) {
    'A' <= c <= 'Z' || 'a' <= c <= 'z' || c in "0123456789_" || c as int >= 0x80
  }

  /** $tag$ from i to close; a tag does not begin with a digit. */
  predicate OpensDollar(s: string, i: nat, close: nat) {
    && i < close < |s| && s[i] == '$' && s[close] == '$'
    && (forall k :: i < k < close ==> TagByte(s[k]))
    && s[i + 1] !in "0123456789"
  }

  ghost predicate LooksLike(s: string, i: nat, l: Lexeme)
    requires i < |s|
  {
    var c := s[i];
    match l
    case StringLexeme(body, escape) =>
      || (c == '\'' && body == i + 1 && !escape)
      || (c in "NnXxEeBb" && Two(s, i, c, "'") && body == i + 2 && escape == (c in "Ee"))
    case QuotedLexeme => c in "\"`"
    case TerminatorLexeme => c == ';'
    case LoneDollar => c == '$' && i + 1 == |s|
    case ParameterDollar(digit) =>
      c == '$' && i + 1 < |s| && digit == (s[i + 1] in "0123456789") && forall close :: !OpensDollar(s, i, close)
    case DollarStringLexeme(close) => OpensDollar(s, i, close)
    case LineCommentLexeme => Two(s, i, '-', "-")
    case BlockCommentLexeme => Two(s, i, '/', "*")
    case SpaceLexeme(n) =>
      (c in BLANKS && n == 1) || exists cp :: WideSpaceAt(s, i, cp) && n == |Utf8.Encode(cp)|
    case CompoundColonLexeme => Two(s, i, ':', ":=") && !OperatorByteAt(s, i + 2)
    case SingleByteLexeme => c in "(){}[],?#" || (c == ':' && !Two(s, i, ':', ":="))
    case NumberLexeme => c in "0123456789."
    case OperatorLexeme =>
      || (Two(s, i, ':', ":=") && OperatorByteAt(s, i + 2))
      || (c in "!%&*+-/<=>@\\^|~" && !Two(s, i, '-', "-") && !Two(s, i, '/', "*"))
    case WordLexeme =>
      && WordByte(c) && c !in "0123456789" && (forall cp :: !WideSpaceAt(s, i, cp))
      && !(c in "NnXxEeBb" && Two(s, i, c, "'"))
  }

  lemma TagBytes(c: char)
    ensures TagByte(c) <==> IsDollarTagChar(c)
  {
  }

  lemma {:induction false} MarkerFrom(s: string, i: nat, close: nat)
    requires i <= close < |s| && s[close] == '$' && forall k :: i <= k < close ==> IsDollarTagChar(s[k])
    ensures MarkerEnd(s, i) == Some(close)
    decreases close - i
  {
    if i < close {
      assert IsDollarTagChar(s[i]);
      MarkerFrom(s, i + 1, close);
    }
  }

  /** After a dollar: a marker opens a string exactly when it is found. */
  lemma MarkerIff(s: string, i: nat, close: nat)
    requires i + 1 < |s| && s[i] == '$' && s[i + 1] !in "0123456789"
    ensures OpensDollar(s, i, close) <==> MarkerEnd(s, i + 1) == Some(close)
  {
    forall k | i < k < |s|
      ensures TagByte(s[k]) <==> IsDollarTagChar(s[k])
    {
      TagBytes(s[k]);
    }
    if OpensDollar(s, i, close) {
      MarkerFrom(s, i + 1, close);
    }
  }

  /** The lexemes a dollar begins, from the lexer's rules. */
  lemma {:induction false} DollarLexeme(s: string, i: nat)
    requires i < |s| && s[i] == '$'
    ensures LexemeAt(s, i) ==
      if i + 1 == |s| then LoneDollar
      else if s[i + 1] in "0123456789" then ParameterDollar(true)
      else match MarkerEnd(s, i + 1)
        case None => ParameterDollar(false)
        case Some(close) => DollarStringLexeme(close)
  {
  }

  /** Of them, what looks like one. */
  lemma {:induction false} LooksLikeDollar(s: string, i: nat, l: Lexeme)
    requires i < |s| && s[i] == '$'
    ensures LooksLike(s, i, l) <==>
      match l
      case LoneDollar => i + 1 == |s|
      case ParameterDollar(digit) =>
        i + 1 < |s| && digit == (s[i + 1] in "0123456789") && forall close :: !OpensDollar(s, i, close)
      case DollarStringLexeme(close) => OpensDollar(s, i, close)
      case _ => false
  {
    NoWideSpace(s, i);
  }

  lemma {:induction false} DollarTable(s: string, i: nat, l: Lexeme)
    requires i < |s| && s[i] == '$'
    ensures LooksLike(s, i, l) <==> l == LexemeAt(s, i)
  {
    LooksLikeDollar(s, i, l);
    DollarLexeme(s, i);
    if i + 1 < |s| && s[i + 1] !in "0123456789" {
      forall close: nat
        ensures OpensDollar(s, i, close) <==> MarkerEnd(s, i + 1) == Some(close)
      {
        MarkerIff(s, i, close);
      }
    }
  }

  /** ASCII bytes begin no wide space. */
  lemma NoWideSpace(s: string, i: nat)
    requires i < |s| && s[i] as int < 0x80
    ensures forall cp :: !WideSpaceAt(s, i, cp)
  {
    forall cp
      ensures !WideSpaceAt(s, i, cp)
    {
      if WideSpaceAt(s, i, cp) {
        WideSpaceSkipped(s, i, cp);
      }
    }
  }

  /** Past ASCII a byte begins a wide space or a word. */
  lemma WideLexeme(s: string, i: nat)
    requires i < |s| && s[i] as int >= 0x80
    ensures LexemeAt(s, i) == if UnicodeSpaceLen(s, i) > 0 then SpaceLexeme(UnicodeSpaceLen(s, i)) else WordLexeme
  {
  }

  lemma NoPunctuation(c: char)
    requires c as int >= 0x80
    ensures c !in PUNCTUATION && c !in BLANKS && c !in "0123456789" && c !in "NnXxEeBb" && c !in "(){}[],?#"
  {
  }

  lemma WideSpacesAt(s: string, i: nat)
    requires i < |s|
    ensures forall cp :: WideSpaceAt(s, i, cp) ==> UnicodeSpaceLen(s, i) == |Utf8.Encode(cp)| > 0
    ensures UnicodeSpaceLen(s, i) > 0 ==> exists cp :: WideSpaceAt(s, i, cp)
  {
    if UnicodeSpaceLen(s, i) > 0 {
      var cp := SkippedIsWideSpace(s, i);
    }
    forall cp | WideSpaceAt(s, i, cp)
      ensures UnicodeSpaceLen(s, i) == |Utf8.Encode(cp)| > 0
    {
      WideSpaceSkipped(s, i, cp);
    }
  }

  lemma WideTable(s: string, i: nat, l: Lexeme)
    requires i < |s| && s[i] as int >= 0x80
    ensures LooksLike(s, i, l) <==> l == LexemeAt(s, i)
  {
    WideLexeme(s, i);
    NoPunctuation(s[i]);
    WideSpacesAt(s, i);
  }

  /** The byte classes as lists of bytes. */
  lemma ClassTable(c: char)
    ensures IsSpace(c) <==> c in BLANKS
    ensures IsOperatorAny(c) <==> c in PUNCTUATION
    ensures IsSingleByteOperator(c) <==> c in "(){}[],:?$#"
    ensures IsOperatorCont(c) <==> c in OPERATOR_BYTES
    ensures IsInitialNumber(c) <==> c in "0123456789."
    ensures IsStringPrefix(c) <==> c in "NnXxEeBb"
    ensures IsKeywordChar(c) <==> WordByte(c)
  {
  }

  /** Within ASCII, from the first rule that applies. */
  lemma SymbolLexeme(s: string, i: nat)
    requires i < |s| && s[i] as int < 0x80 && s[i] != '$'
    ensures
      var c, l := s[i], LexemeAt(s, i);
      && (l.StringLexeme? <==> c == '\'' || (IsStringPrefix(c) && Two(s, i, c, "'")))
      && (l.QuotedLexeme? <==> c == '"' || c == '`')
      && (l.TerminatorLexeme? <==> c == ';')
      && !l.LoneDollar? && !l.ParameterDollar? && !l.DollarStringLexeme?
      && (l.LineCommentLexeme? <==> Two(s, i, '-', "-"))
      && (l.BlockCommentLexeme? <==> Two(s, i, '/', "*"))
      && (l.SpaceLexeme? <==> IsSpace(c))
      && (l.SpaceLexeme? ==> l.length == 1)
      && (l.StringLexeme? ==> l == if c == '\'' then StringLexeme(i + 1, false)
                                   else StringLexeme(i + 2, c == 'E' || c == 'e'))
  {
  }

  lemma SymbolLexemes(s: string, i: nat)
    requires i < |s| && s[i] as int < 0x80 && s[i] != '$'
    ensures
      var c, l := s[i], LexemeAt(s, i);
      && (l.NumberLexeme? <==> IsInitialNumber(c))
      && (l.CompoundColonLexeme? <==> Two(s, i, ':', ":=") && !OperatorByteAt(s, i + 2))
      && (l.SingleByteLexeme? <==> (IsSingleByteOperator(c) && c != ':') || (c == ':' && !Two(s, i, ':', ":=")))
  {
    if i + 2 < |s| {
      ClassTable(s[i + 2]);
    }
  }

  lemma OperatorStarts(c: char)
    requires c != '$'
    ensures c in "!%&*+-/<=>@\\^|~" <==>
      IsOperatorAny(c) && !IsSingleByteOperator(c) && c != '\'' && c != '"' && c != '`' && c != ';' && c != '.'
  {
  }

  lemma LastLexemes(s: string, i: nat)
    requires i < |s| && s[i] as int < 0x80 && s[i] != '$'
    ensures
      var c, l := s[i], LexemeAt(s, i);
      && (l.OperatorLexeme? <==>
           || (Two(s, i, ':', ":=") && OperatorByteAt(s, i + 2))
           || (c in "!%&*+-/<=>@\\^|~" && !Two(s, i, '-', "-") && !Two(s, i, '/', "*")))
      && (l.WordLexeme? <==>
           IsKeywordChar(c) && !IsInitialNumber(c) && !(IsStringPrefix(c) && Two(s, i, c, "'")))
  {
    OperatorStarts(s[i]);
    if i + 2 < |s| {
      ClassTable(s[i + 2]);
    }
  }

  lemma {:induction false} FirstSymbols(s: string, i: nat, l: Lexeme)
    requires i < |s| && s[i] as int < 0x80 && s[i] != '$' && !l.OperatorLexeme? && !l.WordLexeme?
    ensures LooksLike(s, i, l) <==> l == LexemeAt(s, i)
  {
    NoWideSpace(s, i);
    ClassTable(s[i]);
    SymbolLexeme(s, i);
    SymbolLexemes(s, i);
  }

  lemma {:induction false} LastSymbols(s: string, i: nat, l: Lexeme)
    requires i < |s| && s[i] as int < 0x80 && s[i] != '$' && (l.OperatorLexeme? || l.WordLexeme?)
    ensures LooksLike(s, i, l) <==> l == LexemeAt(s, i)
  {
    NoWideSpace(s, i);
    ClassTable(s[i]);
    LastLexemes(s, i);
  }

  /** What is taken at a byte is what stands there. */
  lemma LexemeTable(s: string, i: nat, l: Lexeme)
    requires i < |s|
    ensures LooksLike(s, i, l) <==> l == LexemeAt(s, i)
  {
    if s[i] == '$' {
      DollarTable(s, i, l);
    } else if s[i] as int < 0x80 {
      if l.OperatorLexeme? || l.WordLexeme? {
        LastSymbols(s, i, l);
      } else {
        FirstSymbols(s, i, l);
      }
    } else {
      WideTable(s, i, l);
    }
  }

  // ----- words -----

  ghost predicate InWord(s: string, k: nat)
    requires k < |s|
  {
    (s[k] == '$' || WordByte(s[k])) && forall cp :: !WideSpaceAt(s, k, cp)
  }

  /** From a word's first byte to the first that is in no word. */
  ghost predicate WordFrom(s: string, a: nat, b: nat) {
    a < b <= |s| && (forall k :: a < k < b ==> InWord(s, k)) && (b < |s| ==> !InWord(s, b))
  }

  lemma InWordIff(s: string, k: nat)
    requires k < |s|
    ensures InWord(s, k) <==> !KeywordStops(s, k)
  {
    ClassTable(s[k]);
    WideSpacesAt(s, k);
  }

  lemma {:induction false} KeywordStopIff(s: string, i: nat, b: nat, inside: nat -> bool)
    requires i <= b <= |s| && forall k: nat {:trigger inside(k)} :: k < |s| ==> (inside(k) <==> !KeywordStops(s, k))
    ensures b == KeywordStop(s, i) <==> (forall k: nat :: i <= k < b ==> inside(k)) && (b < |s| ==> !inside(b))
    decreases b - i
  {
    assert i < |s| ==> (inside(i) <==> !KeywordStops(s, i));
    if i < b {
      KeywordStopIff(s, i + 1, b, inside);
    }
  }

  lemma {:induction false} WordRun(s: string, i: nat, b: nat)
    requires i <= b <= |s|
    ensures b == KeywordStop(s, i) <==> (forall k :: i <= k < b ==> InWord(s, k)) && (b < |s| ==> !InWord(s, b))
  {
    var inside := (k: nat) => k < |s| && InWord(s, k);
    forall k: nat | k < |s|
      ensures inside(k) <==> !KeywordStops(s, k)
    {
      InWordIff(s, k);
    }
    KeywordStopIff(s, i, b, inside);
    assert forall k: nat :: k < |s| ==> inside(k) == InWord(s, k);
  }

  /** A word is one token, up to the first byte that is in no word; a keyword exactly when it is
      listed as one, whatever its case. */
  lemma WordIsToken(lexicon: Lexicon, s: string, a: nat, b: nat, mark: nat, st: LexState)
    requires mark <= a < |s| && LooksLike(s, a, WordLexeme) && WordFrom(s, a, b)
    ensures
      var kind := if Categories(lexicon, s[a..b]) != {} then Keyword else Identifier;
      NextAt(lexicon, s, a, mark, st) ==
        if b == |s| then Ends(Lexed(PushLast(s, st, a, kind))) else At(b, PushRange(s, st, a, b, kind, false))
  {
    LexemeTable(s, a, WordLexeme);
    WordRun(s, a + 1, b);
    assert s[a..|s|] == s[a..];
  }

  // ----- operators -----

  /** A byte that goes on with an operator: of the operator alphabet, and no comment begins there. */
  predicate InOperator(s: string, k: nat) {
    OperatorByteAt(s, k) && !Two(s, k, '-', "-") && !Two(s, k, '/', "*")
  }

  predicate OperatorRun(s: string, a: nat, b: nat) {
    a < b <= |s| && (forall k :: a < k < b ==> InOperator(s, k)) && !InOperator(s, b)
  }

  /** Signs at the end of a run are operators of their own, unless it has a byte beyond
      plus, minus, star, slash, less, greater and equals; one byte always stays. */
  predicate SignsCut(s: string, a: nat, b: nat, cut: nat)
    requires b <= |s|
  {
    && a < cut <= b && (forall k :: cut <= k < b ==> s[k] in "+-")
    && if exists k :: a <= k < b && s[k] in "~!@#%^&|`?" then cut == b
       else cut == a + 1 || s[cut - 1] !in "+-"
  }

  /** One token for each sign from `cut` to b. */
  function SignTokens(s: string, cut: nat, b: nat): seq<Token>
    requires cut <= b <= |s|
  {
    seq(b - cut, k requires 0 <= k < b - cut => PlainToken(Operator, [s[cut + k]], cut + k))
  }

  lemma OperatorGoesOn(s: string, k: nat)
    requires k < |s|
    ensures InOperator(s, k) <==> !OperatorStops(s, k)
  {
    ClassTable(s[k]);
    assert Two(s, k, '-', "-") <==> StartsLineComment(s, k);
    assert Two(s, k, '/', "*") <==> StartsBlockComment(s, k);
  }

  lemma {:induction false} RunStops(s: string, i: nat, b: nat)
    requires i <= b <= |s|
    ensures b == OperatorStop(s, i) <==> (forall k :: i <= k < b ==> InOperator(s, k)) && !InOperator(s, b)
    decreases b - i
  {
    if i < |s| {
      OperatorGoesOn(s, i);
    }
    if i < b {
      RunStops(s, i + 1, b);
    }
  }

  lemma SpecialIff(s: string, a: nat, b: nat)
    requires a <= b <= |s|
    ensures HasSpecial(s, a, b) <==> exists k :: a <= k < b && s[k] in "~!@#%^&|`?"
  {
    forall c: char
      ensures IsSpecialOperatorChar(c) <==> c in "~!@#%^&|`?"
    {
    }
  }

  lemma {:induction false} TrimIff(s: string, a: nat, end: nat, cut: nat)
    requires a < cut <= end <= |s|
    ensures cut == TrimSigns(s, a, end) <==>
      (forall k :: cut <= k < end ==> s[k] in "+-") && (cut == a + 1 || s[cut - 1] !in "+-")
    decreases end
  {
    if end > a + 1 && s[end - 1] in "+-" && cut < end {
      TrimIff(s, a, end - 1, cut);
    }
  }

  lemma CutIff(s: string, a: nat, b: nat, cut: nat)
    requires a < cut <= b <= |s|
    ensures SignsCut(s, a, b, cut) <==> cut == OperatorEnd(s, a, b)
  {
    SpecialIff(s, a, b);
    TrimIff(s, a, b, cut);
  }

  lemma {:induction false} SignsPushed(s: string, st: LexState, from: nat, end: nat)
    requires from <= end <= |s|
    ensures PushSigns(s, st, from, end).tokens == st.tokens + SignTokens(s, from, end)
    decreases end - from
  {
    if from < end {
      var more := Push(st, Operator, [s[from]], from, from);
      SignsPushed(s, more, from + 1, end);
      assert SignTokens(s, from, end) == [PlainToken(Operator, [s[from]], from)] + SignTokens(s, from + 1, end);
    }
  }

  /** An operator is one token and its trailing signs one each. */
  lemma OperatorIsTokens(lexicon: Lexicon, s: string, a: nat, b: nat, cut: nat, mark: nat, st: LexState)
    requires mark <= a < |s| && LooksLike(s, a, OperatorLexeme) && OperatorRun(s, a, b) && SignsCut(s, a, b, cut)
    ensures
      var n := NextAt(lexicon, s, a, mark, st);
      && n.GoesOn? && n.i == n.mark == b
      && n.st.tokens == PushRange(s, st, a, cut, Operator, false).tokens + SignTokens(s, cut, b)
  {
    LexemeTable(s, a, OperatorLexeme);
    RunStops(s, a + 1, b);
    CutIff(s, a, b, cut);
    SignsPushed(s, PushRange(s, st, a, cut, Operator, false), cut, b);
  }

  // ----- strings -----

  /** One byte of a string's body, or two: a doubled quote, or in an escape string a backslash and
      what it escapes. */
  predicate Unit(u: string, q: char, escape: bool) {
    || (|u| == 1 && u[0] != q && !(escape && u[0] == '\\'))
    || u == [q, q]
    || (escape && |u| == 2 && u[0] == '\\')
  }

  predicate Units(us: seq<string>, q: char, escape: bool) { forall i :: 0 <= i < |us| ==> Unit(us[i], q, escape) }

  function Joined(us: seq<string>): string {
    if us == [] then "" else us[0] + Joined(us[1..])
  }

  /** From i: units and the closing quote, which no other quote follows. */
  predicate ClosesAt(s: string, i: nat, q: char, escape: bool, us: seq<string>, e: nat) {
    && Units(us, q, escape) && i < e <= |s|
    && s[i..e] == Joined(us) + [q] && (e < |s| ==> s[e] != q)
  }

  /** A slice in two parts. */
  lemma {:induction false} SliceParts(s: string, i: nat, e: nat, u: string, rest: string)
    requires i <= e <= |s| && s[i..e] == u + rest
    ensures i + |u| <= e && s[i..i + |u|] == u && s[i + |u|..e] == rest
  {
    var whole := s[i..e];
    assert |whole| == |u| + |rest|;
    forall k | 0 <= k < |u|
      ensures s[i + k] == u[k]
    {
      assert whole[k] == u[k];
    }
    forall k | 0 <= k < |rest|
      ensures s[i + |u| + k] == rest[k]
    {
      assert whole[|u| + k] == rest[k];
    }
  }

  lemma {:induction false} UnitsAfter(us: seq<string>, q: char, escape: bool)
    requires Units(us, q, escape) && us != []
    ensures Unit(us[0], q, escape) && Units(us[1..], q, escape)
  {
  }

  lemma {:induction false} UnitFirst(s: string, i: nat, q: char, escape: bool, us: seq<string>, e: nat)
    requires ClosesAt(s, i, q, escape, us, e) && us != []
    ensures i + |us[0]| < e && s[i..i + |us[0]|] == us[0]
    ensures ClosesAt(s, i + |us[0]|, q, escape, us[1..], e)
  {
    var u, more := us[0], Joined(us[1..]);
    assert s[i..e] == u + (more + [q]) by {
      assert Joined(us) + [q] == u + (more + [q]);
    }
    SliceParts(s, i, e, u, more + [q]);
    UnitsAfter(us, q, escape);
  }

  lemma UnitMore(s: string, i: nat, q: char, escape: bool, u: string, us: seq<string>, e: nat)
    requires i + |u| <= |s| && s[i..i + |u|] == u && Unit(u, q, escape) && ClosesAt(s, i + |u|, q, escape, us, e)
    ensures ClosesAt(s, i, q, escape, [u] + us, e)
  {
    assert ([u] + us)[1..] == us;
    assert s[i..e] == s[i..i + |u|] + s[i + |u|..e];
  }

  lemma {:induction false} StringClosed(s: string, i: nat, escape: bool) returns (us: seq<string>)
    requires i <= |s| && StringEnd(s, i, escape).Some?
    ensures ClosesAt(s, i, '\'', escape, us, StringEnd(s, i, escape).value)
    decreases |s| - i
  {
    var e := StringEnd(s, i, escape).value;
    if escape && s[i] == '\\' && i + 1 < |s| {
      us := StringClosed(s, i + 2, escape);
      UnitMore(s, i, '\'', escape, s[i..i + 2], us, e);
      us := [s[i..i + 2]] + us;
    } else if s[i] == '\'' && i + 1 < |s| && s[i + 1] == '\'' {
      us := StringClosed(s, i + 2, escape);
      assert s[i..i + 2] == ['\'', '\''];
      UnitMore(s, i, '\'', escape, s[i..i + 2], us, e);
      us := [s[i..i + 2]] + us;
    } else if s[i] == '\'' {
      us := [];
      assert s[i..e] == ['\''];
    } else {
      us := StringClosed(s, i + 1, escape);
      UnitMore(s, i, '\'', escape, s[i..i + 1], us, e);
      us := [s[i..i + 1]] + us;
    }
  }

  lemma {:induction false} ClosedString(s: string, i: nat, escape: bool, us: seq<string>, e: nat)
    requires i <= |s| && ClosesAt(s, i, '\'', escape, us, e)
    ensures StringEnd(s, i, escape) == Some(e)
    decreases |us|
  {
    if us == [] {
      assert s[i..e] == ['\''];
      assert e == i + 1 && s[i] == s[i..e][0];
    } else {
      var u := us[0];
      UnitFirst(s, i, '\'', escape, us, e);
      assert Unit(u, '\'', escape);
      assert s[i] == u[0] && (|u| == 2 ==> s[i + 1] == u[1]);
      ClosedString(s, i + |u|, escape, us[1..], e);
    }
  }

  /** A string ends at the first quote that is neither doubled nor escaped. */
  lemma StringEndIff(s: string, i: nat, escape: bool, e: nat)
    requires i <= |s|
    ensures StringEnd(s, i, escape) == Some(e) <==> exists us :: ClosesAt(s, i, '\'', escape, us, e)
  {
    if StringEnd(s, i, escape) == Some(e) {
      var us := StringClosed(s, i, escape);
    }
    forall us | ClosesAt(s, i, '\'', escape, us, e)
      ensures StringEnd(s, i, escape) == Some(e)
    {
      ClosedString(s, i, escape, us, e);
    }
  }

  lemma {:induction false} QuotedEndIsStringEnd(s: string, i: nat, e: nat, us: seq<string>, q: char)
    requires i <= |s| && ClosesAt(s, i, q, false, us, e)
    ensures QuotedEnd(s, i, q) == Some(e)
    decreases |us|
  {
    if us == [] {
      assert s[i..e] == [q];
      assert e == i + 1 && s[i] == s[i..e][0];
    } else {
      var u := us[0];
      UnitFirst(s, i, q, false, us, e);
      assert Unit(u, q, false);
      assert s[i] == u[0] && (|u| == 2 ==> s[i + 1] == u[1]);
      QuotedEndIsStringEnd(s, i + |u|, e, us[1..], q);
    }
  }

  lemma {:induction false} QuotedClosed(s: string, i: nat, q: char) returns (us: seq<string>)
    requires i <= |s| && QuotedEnd(s, i, q).Some?
    ensures ClosesAt(s, i, q, false, us, QuotedEnd(s, i, q).value)
    decreases |s| - i
  {
    var e := QuotedEnd(s, i, q).value;
    if s[i] == q && i + 1 < |s| && s[i + 1] == q {
      us := QuotedClosed(s, i + 2, q);
      assert s[i..i + 2] == [q, q];
      UnitMore(s, i, q, false, s[i..i + 2], us, e);
      us := [s[i..i + 2]] + us;
    } else if s[i] == q {
      us := [];
      assert s[i..e] == [q];
    } else {
      us := QuotedClosed(s, i + 1, q);
      UnitMore(s, i, q, false, s[i..i + 1], us, e);
      us := [s[i..i + 1]] + us;
    }
  }

  /** A quoted identifier ends at the first delimiter that is not doubled. */
  lemma QuotedEndIff(s: string, i: nat, q: char, e: nat)
    requires i <= |s|
    ensures QuotedEnd(s, i, q) == Some(e) <==> exists us :: ClosesAt(s, i, q, false, us, e)
  {
    if QuotedEnd(s, i, q) == Some(e) {
      var us := QuotedClosed(s, i, q);
    }
    forall us | ClosesAt(s, i, q, false, us, e)
      ensures QuotedEnd(s, i, q) == Some(e)
    {
      QuotedEndIsStringEnd(s, i, e, us, q);
    }
  }

  // ----- comments -----

  /** A line comment takes the first line break along, or all that is left. */
  lemma {:induction false} LineCommentIff(s: string, i: nat, e: nat)
    requires i <= e <= |s|
    ensures LineCommentEnd(s, i) == e <==>
      if e > i && s[e - 1] in "\n\r" then forall k :: i <= k < e - 1 ==> s[k] !in "\n\r"
      else e == |s| && forall k :: i <= k < e ==> s[k] !in "\n\r"
    decreases e - i
  {
    if i < e && s[i] !in "\n\r" {
      LineCommentIff(s, i + 1, e);
    }
  }

  /** Past the close of a block comment, from i inside it: a comment within is closed first. */
  function CloseOf(s: string, i: nat): (e: Option<nat>)
    ensures e.Some? ==> i < e.value <= |s|
    decreases |s| - i
  {
    if i >= |s| then None
    else if Two(s, i, '*', "/") then Some(i + 2)
    else if Two(s, i, '/', "*") then
      match CloseOf(s, i + 2)
      case None => None
      case Some(m) => CloseOf(s, m)
    else CloseOf(s, i + 1)
  }

  /** A comment nested `depth` deep closes once, and then all the outer ones do. */
  lemma {:induction false} DepthOnce(s: string, i: nat, depth: nat)
    requires i <= |s| && depth > 1
    ensures BlockCommentEnd(s, i, depth) ==
      match BlockCommentEnd(s, i, 1)
      case None => None
      case Some(m) => BlockCommentEnd(s, m, depth - 1)
    decreases |s| - i
  {
    if i < |s| {
      if StartsBlockComment(s, i) {
        DepthOnce(s, i + 2, depth + 1);
        DepthOnce(s, i + 2, 2);
        match BlockCommentEnd(s, i + 2, 1)
        case None =>
        case Some(m) => DepthOnce(s, m, depth);
      } else if !(s[i] == '*' && i + 1 < |s| && s[i + 1] == '/') {
        DepthOnce(s, i + 1, depth);
      }
    }
  }

  /** Block comments nest. */
  lemma {:induction false} BlockCommentsNest(s: string, i: nat)
    requires i <= |s|
    ensures BlockCommentEnd(s, i, 1) == CloseOf(s, i)
    decreases |s| - i
  {
    if i < |s| {
      assert Two(s, i, '/', "*") <==> StartsBlockComment(s, i);
      assert Two(s, i, '*', "/") <==> s[i] == '*' && i + 1 < |s| && s[i + 1] == '/';
      if Two(s, i, '/', "*") {
        DepthOnce(s, i + 2, 2);
        BlockCommentsNest(s, i + 2);
        match CloseOf(s, i + 2)
        case None =>
        case Some(m) => BlockCommentsNest(s, m);
      } else if !Two(s, i, '*', "/") {
        BlockCommentsNest(s, i + 1);
      }
    }
  }
}
