/** Rendering identifiers and strings, and reading them back through the tokenizer and the leaf
    matchers (parser/transform_ddl.go:334-359, 757; lexer/lexer.go:552-645;
    internal/matcher/special.go). */
module Quoting {
  import opened Tokens
  import opened ByteClasses
  import opened LexRules
  import opened LexSpec
  import PT = ParseTree
  import SM = SpecialMatchers

  // ----- rendering -----

  function QuotedIdent(s: string): string {
    "\"" + Double(s, '"') + "\""
  }

  function QuotedString(s: string): string {
    "'" + Double(s, '\'') + "'"
  }

  predicate PlainByte(c: char) { 'a' <= c <= 'z' || 'A' <= c <= 'Z' || c == '_' || IsDigit(c) }

  /** The identifiers that are printed bare. */
  predicate PrintsBare(lexicon: Lexicon, s: string) {
    s != "" && !IsKeyword(lexicon, s) && !(|s| > 1 && s[0] == '_' && IsDigit(s[1]))
    && (forall i :: 0 <= i < |s| ==> PlainByte(s[i])) && !IsDigit(s[0])
  }

  /** sqlIdentifier (transform_ddl.go:343-359). */
  method SqlIdentifier(lexicon: Lexicon, s: string) returns (r: string)
    ensures r == if PrintsBare(lexicon, s) then s else QuotedIdent(s)
    ensures r == s <==>
      && s != "" && !IsKeyword(lexicon, s)
      && (forall i :: 0 <= i < |s| ==>
            'a' <= s[i] <= 'z' || 'A' <= s[i] <= 'Z' || '0' <= s[i] <= '9' || s[i] == '_')
      && !('0' <= s[0] <= '9') && !(|s| > 1 && s[0] == '_' && '0' <= s[1] <= '9')
  {
    var needs := s == "" || IsKeyword(lexicon, s) || (|s| > 1 && s[0] == '_' && '0' <= s[1] <= '9');
    var i := 0;
    while i < |s| && !needs
      invariant 0 <= i <= |s|
      invariant !needs ==> s != "" && !IsKeyword(lexicon, s) && !(|s| > 1 && s[0] == '_' && IsDigit(s[1]))
      invariant !needs ==> (forall k :: 0 <= k < i ==> PlainByte(s[k])) && (i > 0 ==> !IsDigit(s[0]))
      invariant needs ==> !PrintsBare(lexicon, s)
    {
      var c := s[i];
      if 'a' <= c <= 'z' || 'A' <= c <= 'Z' || c == '_' {
      } else if '0' <= c <= '9' {
        needs := i == 0;
      } else {
        needs := true;
      }
      i := i + 1;
    }
    DoubledIsLonger(s, '"');
    return if needs then QuotedIdent(s) else s;
  }

  lemma {:induction false} DoubledIsLonger(s: string, q: char)
    ensures |Double(s, q)| >= |s|
  {
    if s != [] {
      DoubledIsLonger(s[1..], q);
    }
  }

  // ----- doubling is undone -----

  lemma {:induction false} UndoubleDouble(s: string, q: char)
    ensures Undouble(Double(s, q), q) == s
  {
    if s != [] {
      UndoubleDouble(s[1..], q);
      var d := Double(s, q);
      if s[0] == q {
        assert d[2..] == Double(s[1..], q);
      } else {
        assert d[1..] == Double(s[1..], q);
        if |s| == 1 {
          assert d == s;
        }
      }
    }
  }

  /** Scanning the doubled body from any point inside it stops at the closing delimiter. */
  lemma {:induction false} QuotedEndDoubled(text: string, i: nat, body: string, q: char)
    requires i <= |text| && text[i..] == Double(body, q) + [q]
    ensures QuotedEnd(text, i, q) == Some(|text|)
    decreases |body|
  {
    assert text[i..][0] == text[i];
    if body != [] {
      if body[0] == q {
        assert text[i..][1] == text[i + 1];
        assert text[i + 2..] == text[i..][2..] == Double(body[1..], q) + [q];
        QuotedEndDoubled(text, i + 2, body[1..], q);
      } else {
        assert text[i + 1..] == text[i..][1..] == Double(body[1..], q) + [q];
        QuotedEndDoubled(text, i + 1, body[1..], q);
      }
    }
  }

  lemma {:induction false} StringEndDoubled(text: string, i: nat, body: string)
    requires i <= |text| && text[i..] == Double(body, '\'') + ['\'']
    ensures StringEnd(text, i, false) == Some(|text|)
    decreases |body|
  {
    assert text[i..][0] == text[i];
    if body != [] {
      if body[0] == '\'' {
        assert text[i..][1] == text[i + 1];
        assert text[i + 2..] == text[i..][2..] == Double(body[1..], '\'') + ['\''];
        StringEndDoubled(text, i + 2, body[1..]);
      } else {
        assert text[i + 1..] == text[i..][1..] == Double(body[1..], '\'') + ['\''];
        StringEndDoubled(text, i + 1, body[1..]);
      }
    }
  }

  // ----- round trips -----

  /** The source is one token and the sentinel. */
  ghost predicate OneToken(lexicon: Lexicon, text: string, kind: Kind) {
    TokensOf(lexicon, text)
      == Tokenized([Token(kind, text, Span(0, |text|), false, false, false), PlainToken(EndOfInput, "", |text|)])
  }

  /** Keyword lists hold words; no word starts with a delimiter. */
  ghost predicate PlainWords(lexicon: Lexicon) {
    forall w :: w in lexicon ==> w != "" && w[0] != '"'
  }

  /** One identifier position reads the text as the identifier s. */
  ghost predicate ReadsIn(lexicon: Lexicon, text: string, s: string, cls: SM.IdentifierClass, reserved: bool,
                          supports: bool) {
    var leaf := SM.IdentifierLeaf(cls, reserved, supports);
    SM.IsAllowedKeyword(lexicon, cls, text) && SM.IsIdentifierText(leaf, text) && SM.IdentifierValue(leaf, text) == s
  }

  /** Any identifier position, reserved or not, reads the text as the identifier s. */
  ghost predicate ReadsAs(lexicon: Lexicon, text: string, s: string) {
    forall cls, reserved, supports :: ReadsIn(lexicon, text, s, cls, reserved, supports)
  }

  /** A first lexeme that is the whole text is the only token. */
  lemma OneLexeme(lexicon: Lexicon, text: string, kind: Kind)
    requires text != ""
    requires NextAt(lexicon, text, 0, 0, EMPTY) == At(|text|, PushRange(text, EMPTY, 0, |text|, kind, false))
    ensures OneToken(lexicon, text, kind)
  {
    assert text[0..|text|] == text;
    var st := PushRange(text, EMPTY, 0, |text|, kind, false);
    assert LexFrom(lexicon, text, |text|, |text|, st) == Lexed(st);
    assert LexFrom(lexicon, text, 0, 0, EMPTY) == Lexed(st);
  }

  lemma QuotedTextNext(lexicon: Lexicon, text: string)
    requires |text| > 2 && text[0] == '"' && QuotedEnd(text, 1, '"') == Some(|text|)
    ensures NextAt(lexicon, text, 0, 0, EMPTY) == At(|text|, PushRange(text, EMPTY, 0, |text|, Identifier, false))
  {
    assert LexemeAt(text, 0) == QuotedLexeme;
  }

  lemma QuotedTextLexes(lexicon: Lexicon, text: string)
    requires |text| > 2 && text[0] == '"' && QuotedEnd(text, 1, '"') == Some(|text|)
    ensures OneToken(lexicon, text, Identifier)
  {
    QuotedTextNext(lexicon, text);
    OneLexeme(lexicon, text, Identifier);
  }

  lemma QuotedIdentEnds(s: string)
    requires s != ""
    ensures
      var text := QuotedIdent(s);
      |text| > 2 && text[0] == '"' && QuotedEnd(text, 1, '"') == Some(|text|)
  {
    var text := QuotedIdent(s);
    assert text[1..] == Double(s, '"') + ['"'];
    QuotedEndDoubled(text, 1, s, '"');
    DoubleLength(s, '"');
  }

  lemma QuotedIdentLexes(lexicon: Lexicon, s: string)
    requires s != ""
    ensures OneToken(lexicon, QuotedIdent(s), Identifier)
  {
    QuotedIdentEnds(s);
    QuotedTextLexes(lexicon, QuotedIdent(s));
  }

  lemma {:induction false} DoubleLength(s: string, q: char)
    ensures |Double(s, q)| >= |s|
  {
    if s != [] {
      DoubleLength(s[1..], q);
    }
  }

  /** quotedIdent round trip: every non-empty byte string, rendered in double quotes, is read
      back as one Identifier token that every identifier position unquotes to the same bytes. */
  lemma QuotedIdentRoundTrip(lexicon: Lexicon, s: string)
    requires s != "" && PlainWords(lexicon)
    ensures OneToken(lexicon, QuotedIdent(s), Identifier)
    ensures ReadsAs(lexicon, QuotedIdent(s), s)
  {
    QuotedIdentLexes(lexicon, s);
    var text := QuotedIdent(s);
    DoubleLength(s, '"');
    assert text[1..|text| - 1] == Double(s, '"');
    UndoubleDouble(s, '"');
    assert Lower(text)[0] == '"';
    assert Lower(text) !in lexicon;
  }

  /** The empty identifier has no quoted form that reads back. */
  lemma EmptyIdentIsRejected(lexicon: Lexicon)
    ensures TokensOf(lexicon, QuotedIdent("")) == TokenizeError("zero-length delimited identifier", 0)
  {
    var text := QuotedIdent("");
    assert text == "\"\"";
    assert QuotedEnd(text, 1, '"') == Some(2);
    assert text[0..2] == "\"\"";
  }

  lemma {:induction false} BareWordStop(text: string, i: nat)
    requires i <= |text| && forall k :: 0 <= k < |text| ==> PlainByte(text[k])
    ensures KeywordStop(text, i) == |text|
    decreases |text| - i
  {
    if i < |text| {
      assert PlainByte(text[i]);
      BareWordStop(text, i + 1);
    }
  }

  lemma BareWordLexes(lexicon: Lexicon, s: string)
    requires PrintsBare(lexicon, s)
    ensures OneToken(lexicon, s, Identifier)
  {
    assert PlainByte(s[0]);
    assert |s| > 1 ==> PlainByte(s[1]);
    BareWordStop(s, 1);
    assert LexemeAt(s, 0) == WordLexeme;
    assert s[0..] == s;
    assert LexFrom(lexicon, s, 0, 0, EMPTY) == Lexed(PushLast(s, EMPTY, 0, Identifier));
  }

  /** sqlIdentifier round trip, bare or quoted. */
  lemma SqlIdentifierRoundTrip(lexicon: Lexicon, s: string)
    requires s != "" && PlainWords(lexicon)
    ensures var text := if PrintsBare(lexicon, s) then s else QuotedIdent(s);
      OneToken(lexicon, text, Identifier) && ReadsAs(lexicon, text, s)
  {
    if PrintsBare(lexicon, s) {
      BareWordLexes(lexicon, s);
      assert PlainByte(s[0]) && PlainByte(s[|s| - 1]);
      forall cls, reserved, supports
        ensures ReadsIn(lexicon, s, s, cls, reserved, supports)
      {
      }
    } else {
      QuotedIdentRoundTrip(lexicon, s);
    }
  }

  /** A doubled string literal is one String token, and the string matcher strips it to the
      string it came from. */
  lemma QuotedStringRoundTrip(lexicon: Lexicon, s: string, name: string)
    ensures OneToken(lexicon, QuotedString(s), StringLit)
    ensures
      var text := QuotedString(s);
      var tokens := TokensOf(lexicon, text).tokens;
      SM.LeafMatch(lexicon, SM.StringLeaf, name, tokens, 0)
        == SM.Matched(PT.StringResult(PT.Base(name, Some(0), Some(|text|)), s, PT.Standard), 1, 1)
  {
    QuotedStringLexes(lexicon, s);
    var text := QuotedString(s);
    assert text[1..|text| - 1] == Double(s, '\'');
    UndoubleDouble(s, '\'');
    OneLiteral(lexicon, TokensOf(lexicon, text).tokens, name, s);
  }

  lemma QuotedStringLexes(lexicon: Lexicon, s: string)
    ensures OneToken(lexicon, QuotedString(s), StringLit)
  {
    var text := QuotedString(s);
    assert text[1..] == Double(s, '\'') + ['\''];
    StringEndDoubled(text, 1, s);
    assert NextAt(lexicon, text, 0, 0, EMPTY) == At(|text|, PushRange(text, EMPTY, 0, |text|, StringLit, false));
    OneLexeme(lexicon, text, StringLit);
  }

  /** A lone literal token that strips to `value` is matched as `value`. */
  lemma OneLiteral(lexicon: Lexicon, tokens: seq<Token>, name: string, value: string)
    requires |tokens| == 2 && tokens[1].kind == EndOfInput && tokens[0].span.start == 0
    requires SM.IsStringToken(tokens[0]) && SM.Stripped(tokens[0]) == value
    requires SM.SpecialStringInfo(tokens[0].text).0 == PT.Standard
    ensures SM.LeafMatch(lexicon, SM.StringLeaf, name, tokens, 0)
      == SM.Matched(PT.StringResult(PT.Base(name, Some(0), Some(|tokens[0].text|)), value, PT.Standard), 1, 1)
  {
    assert SM.ContinuationEnd(tokens, 1) == 1;
    assert SM.StrippedAll(tokens, 1, 1) == [];
    assert value + "" == value;
  }

  // ----- dollar quoting -----

  function Delimiter(tag: string): string { "$" + tag + "$" }

  function DollarQuote(tag: string, body: string): string {
    Delimiter(tag) + body + Delimiter(tag)
  }

  predicate IsTag(tag: string) {
    (forall i :: 0 <= i < |tag| ==> IsDollarTagChar(tag[i])) && (tag != "" ==> !IsDigit(tag[0]))
  }

  predicate OccursAt(text: string, k: nat, part: string) {
    k + |part| <= |text| && text[k..k + |part|] == part
  }

  /** The delimiter does not occur in body + delimiter before the body ends. */
  ghost predicate BodyKeepsClear(tag: string, body: string) {
    forall k :: 0 <= k < |body| ==> !OccursAt(body + Delimiter(tag), k, Delimiter(tag))
  }

  lemma ClosesWhereDelimiterOccurs(s: string, i: nat, tag: string)
    requires i <= |s| && forall k :: 0 <= k < |tag| ==> tag[k] != '$'
    ensures ClosesDollar(s, i, tag) <==> OccursAt(s, i, Delimiter(tag))
  {
    if ClosesDollar(s, i, tag) {
      ClosingOccurs(s, i, tag);
    }
    if OccursAt(s, i, Delimiter(tag)) {
      OccurrenceCloses(s, i, tag);
    }
  }

  lemma ClosingOccurs(s: string, i: nat, tag: string)
    requires i <= |s| && ClosesDollar(s, i, tag)
    ensures OccursAt(s, i, Delimiter(tag))
  {
    var end := NextDollar(s, i + 1);
    assert s[i..i + 1] == "$" && s[end..end + 1] == "$";
    assert s[i..end] == s[i..i + 1] + s[i + 1..end];
    assert s[i..end + 1] == s[i..end] + s[end..end + 1];
  }

  lemma OccurrenceCloses(s: string, i: nat, tag: string)
    requires i <= |s| && forall k :: 0 <= k < |tag| ==> tag[k] != '$'
    requires OccursAt(s, i, Delimiter(tag))
    ensures ClosesDollar(s, i, tag)
  {
    var d := Delimiter(tag);
    var piece := s[i..i + |d|];
    assert forall k :: 0 <= k < |d| ==> s[i + k] == piece[k];
    assert forall k :: 0 <= k < |tag| ==> s[i + 1 + k] == tag[k];
    assert s[i + 1 + |tag|] == '$';
    DollarAfter(s, i + 1, i + 1 + |tag|);
    assert s[i + 1..i + 1 + |tag|] == tag;
  }

  lemma {:induction false} DollarAfter(s: string, i: nat, end: nat)
    requires i <= end < |s| && s[end] == '$' && forall k :: i <= k < end ==> s[k] != '$'
    ensures NextDollar(s, i) == end
    decreases end - i
  {
    if i < end {
      DollarAfter(s, i + 1, end);
    }
  }

  /** The scan stops at the first occurrence of the delimiter. */
  lemma {:induction false} DollarScan(s: string, i: nat, tag: string, k: nat)
    requires i <= k <= |s| && forall j :: 0 <= j < |tag| ==> tag[j] != '$'
    requires OccursAt(s, k, Delimiter(tag)) && forall j :: i <= j < k ==> !OccursAt(s, j, Delimiter(tag))
    ensures DollarStringEnd(s, i, tag) == Some(k + |Delimiter(tag)|)
    decreases k - i
  {
    ClosesWhereDelimiterOccurs(s, i, tag);
    if i < k {
      DollarScan(s, i + 1, tag, k);
    }
  }

  lemma {:induction false} MarkerFound(s: string, i: nat, close: nat)
    requires i <= close < |s| && s[close] == '$'
    requires forall k :: i <= k < close ==> IsDollarTagChar(s[k])
    ensures MarkerEnd(s, i) == Some(close)
    decreases close - i
  {
    if i < close {
      MarkerFound(s, i + 1, close);
    }
  }

  /** The opening delimiter is recognized as one. */
  lemma DollarQuoteOpens(tag: string, body: string)
    requires IsTag(tag)
    ensures
      var text := DollarQuote(tag, body);
      LexemeAt(text, 0) == DollarStringLexeme(|tag| + 1) && text[1..|tag| + 1] == tag
  {
    var text := DollarQuote(tag, body);
    assert forall k :: 1 <= k < |tag| + 1 ==> text[k] == tag[k - 1];
    MarkerFound(text, 1, |tag| + 1);
    assert |tag| > 0 ==> text[1] == tag[0];
  }

  lemma OccurrenceShifts(d: string, rest: string, k: nat)
    requires k <= |rest|
    ensures OccursAt(d + rest, |d| + k, d) <==> OccursAt(rest, k, d)
  {
    if k + |d| <= |rest| {
      assert (d + rest)[|d| + k..|d| + k + |d|] == rest[k..k + |d|];
    }
  }

  /** Dollar quoting: the literal ends at the first closing delimiter, so the scan reaches the
      end of the text exactly when the body keeps clear of the delimiter. */
  lemma DollarQuoteScan(tag: string, body: string)
    requires IsTag(tag)
    ensures
      var text := DollarQuote(tag, body);
      DollarStringEnd(text, |tag| + 2, tag) == Some(|text|) <==> BodyKeepsClear(tag, body)
  {
    var d := Delimiter(tag);
    var rest := body + d;
    assert DollarQuote(tag, body) == d + rest;
    assert OccursAt(rest, |body|, d);
    var first := FirstOccurrence(rest, d, 0, |body| + 1);
    FirstCloses(tag, rest, first);
    assert first == |body| <==> BodyKeepsClear(tag, body);
  }

  /** After the opening delimiter the scan stops behind the first closing one. */
  lemma FirstCloses(tag: string, rest: string, first: nat)
    requires IsTag(tag) && OccursAt(rest, first, Delimiter(tag))
    requires forall j :: 0 <= j < first ==> !OccursAt(rest, j, Delimiter(tag))
    ensures
      var d := Delimiter(tag);
      DollarStringEnd(d + rest, |tag| + 2, tag) == Some(|d| + first + |d|)
  {
    var d := Delimiter(tag);
    forall j | |d| <= j < |d| + first
      ensures !OccursAt(d + rest, j, d)
    {
      OccurrenceShifts(d, rest, j - |d|);
    }
    OccurrenceShifts(d, rest, first);
    DollarScan(d + rest, |d|, tag, |d| + first);
  }

  lemma {:induction false} FirstOccurrence(text: string, part: string, from: nat, limit: nat) returns (k: nat)
    requires exists j :: from <= j < limit && OccursAt(text, j, part)
    ensures from <= k < limit && OccursAt(text, k, part)
    ensures forall j :: from <= j < k ==> !OccursAt(text, j, part)
    decreases limit - from
  {
    if OccursAt(text, from, part) {
      k := from;
    } else {
      k := FirstOccurrence(text, part, from + 1, limit);
    }
  }

  /** A body that keeps clear of its delimiter survives dollar quoting untouched. */
  lemma DollarQuoteRoundTrip(lexicon: Lexicon, tag: string, body: string, name: string)
    requires IsTag(tag) && BodyKeepsClear(tag, body)
    ensures OneToken(lexicon, DollarQuote(tag, body), StringLit)
    ensures
      var text := DollarQuote(tag, body);
      var tokens := TokensOf(lexicon, text).tokens;
      SM.LeafMatch(lexicon, SM.StringLeaf, name, tokens, 0)
        == SM.Matched(PT.StringResult(PT.Base(name, Some(0), Some(|text|)), body, PT.Standard), 1, 1)
  {
    var text := DollarQuote(tag, body);
    DollarQuoteLexes(lexicon, tag, body);
    var tokens := TokensOf(lexicon, text).tokens;
    DollarQuoteStrips(tokens[0], tag, body);
    OneLiteral(lexicon, tokens, name, body);
  }

  lemma DollarQuoteStrips(tok: Token, tag: string, body: string)
    requires IsTag(tag) && tok.text == DollarQuote(tag, body) && !tok.unterminated
    ensures SM.IsStringToken(tok) && SM.Stripped(tok) == body && SM.SpecialStringInfo(tok.text).0 == PT.Standard
  {
    DelimiterMeasured(tok, tag, body);
    assert tok.text[|tag| + 2..|tok.text| - (|tag| + 2)] == body;
  }

  lemma DollarQuoteLexes(lexicon: Lexicon, tag: string, body: string)
    requires IsTag(tag) && BodyKeepsClear(tag, body)
    ensures OneToken(lexicon, DollarQuote(tag, body), StringLit)
  {
    var text := DollarQuote(tag, body);
    DollarQuoteOpens(tag, body);
    DollarQuoteScan(tag, body);
    assert NextAt(lexicon, text, 0, 0, EMPTY)
      == AfterDollarString(text, 0, DollarStringEnd(text, |tag| + 2, text[1..|tag| + 1]), EMPTY);
    OneLexeme(lexicon, text, StringLit);
  }

  lemma DelimiterMeasured(tok: Token, tag: string, body: string)
    requires IsTag(tag) && tok.text == DollarQuote(tag, body) && !tok.unterminated
    ensures SM.DollarDelimiterLength(tok) == Some(|tag| + 2)
    ensures !SM.StartsSingleQuoted(tok)
  {
    DelimitersStand(tok.text, tag, body);
    FirstDollar(tok.text, 1, |tag| + 1);
    DollarIsNoQuote(tok);
  }

  lemma DelimitersStand(text: string, tag: string, body: string)
    requires IsTag(tag) && text == DollarQuote(tag, body)
    ensures |text| >= 2 * (|tag| + 2) && text[0] == '$' && text[|tag| + 1] == '$'
    ensures forall k :: 1 <= k < |tag| + 1 ==> text[k] != '$'
    ensures text[..|tag| + 2] == Delimiter(tag) == text[|text| - (|tag| + 2)..]
  {
    assert forall k :: 1 <= k < |tag| + 1 ==> text[k] == tag[k - 1];
  }

  lemma DollarIsNoQuote(tok: Token)
    requires tok.text != "" && tok.text[0] == '$'
    ensures !SM.StartsSingleQuoted(tok)
  {
  }

  lemma {:induction false} FirstDollar(text: string, i: nat, end: nat)
    requires i <= end < |text| && text[end] == '$' && forall k :: i <= k < end ==> text[k] != '$'
    ensures SM.IndexFrom(text, '$', i) == end
    decreases end - i
  {
    if i < end {
      FirstDollar(text, i + 1, end);
    }
  }
}
