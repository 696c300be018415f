/** Which tokens a leaf takes, stated by the shape of their texts and not by how a matcher decides
    (internal/matcher/matcher.go:93-110, internal/matcher/special.go). */
module LeafJudgment {
  import opened Tokens
  import opened ByteClasses
  import opened ParseTree
  import opened SpecialMatchers

  /** What is said of a token position: a tree up to some token, no match, or the match is off. */
  datatype Verdict = Yes(end: nat, tree: ParseResult) | No | Abort(msg: string)

  /** The verdict an outcome gives, its furthest token left aside. */
  function VerdictOf(o: Outcome): Verdict {
    match o
    case Matched(r, p, _) => Yes(p, r)
    case Failed(_) => No
    case Aborted(msg) => Abort(msg)
  }

  // ----- words -----

  /** One letter, or its two cases. */
  predicate SameLetter(a: char, b: char) {
    || a == b
    || ('A' <= a <= 'Z' && b as int == a as int + 32)
    || ('A' <= b <= 'Z' && a as int == b as int + 32)
  }

  predicate SameWord(a: string, b: string) {
    |a| == |b| && forall i :: 0 <= i < |a| ==> SameLetter(a[i], b[i])
  }

  lemma SameWordIff(a: string, b: string)
    ensures SameWord(a, b) <==> CiEquals(a, b)
  {
    if CiEquals(a, b) {
      forall i | 0 <= i < |a|
        ensures SameLetter(a[i], b[i])
      {
        assert Lower(a)[i] == Lower(b)[i];
      }
    }
    if SameWord(a, b) {
      assert forall i :: 0 <= i < |a| ==> SameLetter(a[i], b[i]) && LowerChar(a[i]) == LowerChar(b[i]);
    }
  }

  // ----- identifiers -----

  /** The keyword categories a position of this class takes as names. */
  function NameCategories(cls: IdentifierClass): set<Category> {
    match cls
    case ClassColumnName => {Unreserved, ColumnName}
    case ClassTypeFunc => {Unreserved, FuncName, TypeName}
    case ClassTypeName => {Unreserved, TypeName}
    case ClassBareLabel => {BareLabel}
  }

  /** A word that is no keyword, or a keyword of one of the position's categories. */
  ghost predicate MayName(lexicon: Lexicon, cls: IdentifierClass, word: string) {
    var c := if Lower(word) in lexicon then lexicon[Lower(word)] else {};
    c == {} || c * NameCategories(cls) != {}
  }

  /** text is inner between two bytes q. */
  predicate Between(text: string, q: char, inner: string) { text == [q] + inner + [q] }

  /** A text that stands for a name: "..." or `...`, a path in single quotes, or a bare word that
      does not begin like a number, a string or an operator. */
  ghost predicate NameText(leaf: Leaf, text: string, value: string)
    requires leaf.IdentifierLeaf?
  {
    || (exists inner :: Between(text, '"', inner) && value == Undouble(inner, '"'))
    || (exists inner :: Between(text, '`', inner) && value == Undouble(inner, '`'))
    || (leaf.supportsString
        && (exists inner :: Between(text, '\'', inner)
              && value == (if leaf.reserved then text else Undouble(inner, '\''))))
    || (BareWord(text) && value == text)
  }

  predicate BareWord(text: string) {
    && text != "" && text[|text| - 1] != '\''
    && !('0' <= text[0] <= '9')
    && text[0] !in "!\"#$%&'()*+,-./:;<=>?@[\\]^`{|}~"
    && text[0] !in [' ', '\t', '\n', '\U{0b}', '\U{0c}', '\r']
  }

  lemma BareStart(c: char)
    ensures IsKeywordChar(c) <==>
      c !in "!\"#$%&'()*+,-./:;<=>?@[\\]^`{|}~" && c !in [' ', '\t', '\n', '\U{0b}', '\U{0c}', '\r']
  {
  }

  lemma QuotedText(text: string, q: char)
    ensures (|text| >= 2 && text[0] == q && text[|text| - 1] == q) <==> exists inner :: Between(text, q, inner)
    ensures forall inner :: Between(text, q, inner) ==> inner == text[1..|text| - 1]
  {
    if |text| >= 2 && text[0] == q && text[|text| - 1] == q {
      assert Between(text, q, text[1..|text| - 1]);
    }
    forall inner | Between(text, q, inner)
      ensures inner == text[1..|text| - 1] && |text| >= 2 && text[0] == q && text[|text| - 1] == q
    {
      assert ([q] + inner + [q])[1..|text| - 1] == inner;
    }
  }

  lemma NameTextIff(leaf: Leaf, text: string, value: string)
    requires leaf.IdentifierLeaf?
    ensures NameText(leaf, text, value) <==> IsIdentifierText(leaf, text) && value == IdentifierValue(leaf, text)
  {
    QuotedText(text, '"');
    QuotedText(text, '`');
    QuotedText(text, '\'');
    if text != "" {
      BareStart(text[0]);
    }
  }

  lemma MayNameIff(lexicon: Lexicon, cls: IdentifierClass, word: string)
    ensures MayName(lexicon, cls, word) <==> IsAllowedKeyword(lexicon, cls, word)
  {
    var c := Categories(lexicon, word);
    var both := c * NameCategories(cls);
    if both != {} {
      var x :| x in both;
    }
    assert forall x :: x in both <==> x in c && x in NameCategories(cls);
  }

  // ----- numbers -----

  predicate IsExponent(c: char) { c == 'e' || c == 'E' }

  ghost predicate ExponentBefore(text: string, k: nat)
    requires k <= |text|
  {
    exists j :: 0 <= j < k && IsExponent(text[j])
  }

  ghost predicate PointBefore(text: string, k: nat)
    requires k <= |text|
  {
    exists j :: 0 <= j < k && text[j] == '.'
  }

  /** The byte at k has its place in a number: one point, then one exponent, signs behind it. */
  ghost predicate Placed(text: string, k: nat)
    requires k < |text|
  {
    var c := text[k];
    || '0' <= c <= '9' || c == '_'
    || (c == '.' && !PointBefore(text, k) && !ExponentBefore(text, k))
    || (IsExponent(c) && !ExponentBefore(text, k))
    || ((c == '+' || c == '-') && ExponentBefore(text, k))
  }

  predicate NumberStart(text: string) {
    text != "" && text != "." && ('0' <= text[0] <= '9' || text[0] == '.')
  }

  ghost predicate NumberText(text: string) {
    NumberStart(text) && forall k :: 1 <= k < |text| ==> Placed(text, k)
  }

  /** All is in its place up to a second exponent. */
  ghost predicate TwoExponents(text: string, k: nat) {
    && NumberStart(text) && 1 <= k < |text| && IsExponent(text[k]) && ExponentBefore(text, k)
    && forall j :: 1 <= j < k ==> Placed(text, j)
  }

  lemma {:induction false} ScanIff(text: string, i: nat, hasDot: bool, scientific: bool)
    requires 1 <= i <= |text| && NumberStart(text) && forall j :: 1 <= j < i ==> Placed(text, j)
    requires hasDot == PointBefore(text, i) && scientific == ExponentBefore(text, i)
    ensures ScanNumber(text, i, hasDot, scientific).IsNumber? <==> NumberText(text)
    ensures ScanNumber(text, i, hasDot, scientific).DoubleExponent? <==> exists k :: TwoExponents(text, k)
    decreases |text| - i
  {
    if i < |text| {
      var c := text[i];
      if Placed(text, i) {
        assert PointBefore(text, i + 1) == (hasDot || c == '.') by {
          if c == '.' { assert text[i] == '.'; }
        }
        assert ExponentBefore(text, i + 1) == (scientific || IsExponent(c)) by {
          if IsExponent(c) { assert IsExponent(text[i]); }
        }
        ScanIff(text, i + 1, hasDot || c == '.', scientific || IsExponent(c));
      } else {
        if IsExponent(c) {
          assert TwoExponents(text, i);
        }
        forall k: nat | TwoExponents(text, k)
          ensures k == i
        {
          assert k < i ==> Placed(text, k);
        }
      }
    } else {
      forall k: nat
        ensures !TwoExponents(text, k)
      {
        assert 1 <= k < |text| ==> Placed(text, k);
      }
    }
  }

  lemma NumberTextIff(text: string)
    ensures NumberTextVerdict(text).IsNumber? <==> NumberText(text)
    ensures NumberTextVerdict(text).DoubleExponent? <==> exists k :: TwoExponents(text, k)
  {
    if NumberStart(text) {
      assert PointBefore(text, 1) <==> text[0] == '.';
      ScanIff(text, 1, text[0] == '.', false);
    }
  }

  // ----- operators -----

  ghost predicate OperatorText(allOperators: bool, text: string) {
    (forall i :: 0 <= i < |text| ==> text[i] in "+-*/%^<>=~!@&|") && (allOperators || !HasSpecialPrecedence(text))
  }

  lemma OperatorTextIff(leaf: Leaf, text: string)
    requires leaf.OperatorLeaf?
    ensures OperatorText(leaf.allOperators, text) <==> IsOperatorText(leaf, text)
  {
    assert forall c: char :: c in "+-*/%^<>=~!@&|" <==> IsOperatorCont(c);
  }

  // ----- strings -----

  /** prefix'body' with no prefix or a one-letter one. */
  predicate QuotedLiteral(text: string, prefix: string, body: string) {
    text == prefix + "'" + body + "'"
    && prefix in ["", "N", "n", "X", "x", "E", "e", "B", "b"]
  }

  /** $tag$body$tag$, closed. */
  predicate DollarLiteral(tok: Token, tag: string, body: string) {
    !tok.unterminated && '$' !in tag && tok.text == "$" + tag + "$" + body + "$" + tag + "$"
  }

  ghost predicate IsQuotedLiteral(text: string) { exists prefix, body :: QuotedLiteral(text, prefix, body) }

  /** What a literal token holds. */
  ghost predicate LiteralOf(tok: Token, kind: StringKind, contents: string) {
    || (exists prefix, body :: QuotedLiteral(tok.text, prefix, body)
          && kind == KindOf(prefix) && contents == Undouble(body, '\''))
    || (exists tag, body :: DollarLiteral(tok, tag, body) && kind == Standard && contents == body)
  }

  function KindOf(prefix: string): StringKind {
    if prefix in ["N", "n"] then National
    else if prefix in ["X", "x"] then Hexadecimal
    else if prefix in ["E", "e"] then Escape
    else if prefix in ["B", "b"] then Bit
    else Standard
  }

  /** A plain literal that begins a line of its own after another literal. */
  ghost predicate Continues(tok: Token) {
    && tok.kind == StringLit && tok.precededByNewline && !tok.precededByBlockComment
    && exists body :: QuotedLiteral(tok.text, "", body)
  }

  function Joined(texts: seq<string>): string {
    if texts == [] then "" else texts[0] + Joined(texts[1..])
  }

  /** The literal at pos and, when it is a quoted one, every continuation that follows it. */
  ghost predicate TakesString(tokens: seq<Token>, pos: nat, end: nat, kind: StringKind, contents: seq<string>) {
    && pos < end <= |tokens| && |contents| == end - pos
    && LiteralOf(tokens[pos], kind, contents[0])
    && (forall k :: pos < k < end ==> Continues(tokens[k]) && LiteralOf(tokens[k], Standard, contents[k - pos]))
    && (if IsQuotedLiteral(tokens[pos].text) then end < |tokens| ==> !Continues(tokens[end]) else end == pos + 1)
  }

  /** A text of the shape is taken apart as it was put together. */
  lemma {:induction false} QuotedLiteralIs(text: string, prefix: string, body: string)
    requires QuotedLiteral(text, prefix, body)
    ensures IsQuotedLiteralText(text) && KindOf(prefix) == SpecialStringInfo(text).0
    ensures body == text[SpecialStringInfo(text).1..|text| - 1] && (prefix == "" <==> text[0] == '\'')
  {
    var n := |prefix|;
    assert |text| == n + |body| + 2 && text[n] == '\'' && text[|text| - 1] == '\'';
    assert n == 0 || (n == 1 && prefix == [text[0]] && IsStringPrefix(text[0]));
    assert text[n + 1..|text| - 1] == body;
  }

  lemma {:induction false} QuotedLiteralFound(text: string) returns (prefix: string, body: string)
    requires IsQuotedLiteralText(text)
    ensures QuotedLiteral(text, prefix, body)
  {
    var n := SpecialStringInfo(text).1;
    prefix, body := text[..n - 1], text[n..|text| - 1];
    assert text == prefix + "'" + body + "'";
    assert n == 2 ==> prefix == [text[0]];
  }

  lemma {:induction false} QuotedLiteralIff(text: string)
    ensures IsQuotedLiteralText(text) <==> IsQuotedLiteral(text)
    ensures forall prefix, body :: QuotedLiteral(text, prefix, body) ==>
      && IsQuotedLiteralText(text)
      && body == text[SpecialStringInfo(text).1..|text| - 1] && KindOf(prefix) == SpecialStringInfo(text).0
      && (prefix == "" <==> text[0] == '\'')
  {
    if IsQuotedLiteralText(text) {
      var prefix, body := QuotedLiteralFound(text);
    }
    forall prefix, body | QuotedLiteral(text, prefix, body)
      ensures IsQuotedLiteralText(text)
        && body == text[SpecialStringInfo(text).1..|text| - 1] && KindOf(prefix) == SpecialStringInfo(text).0
        && (prefix == "" <==> text[0] == '\'')
    {
      QuotedLiteralIs(text, prefix, body);
    }
  }

  predicate IsQuotedLiteralText(text: string) { IsSingleQuotedLiteral(text, SpecialStringInfo(text).1) }

  lemma {:induction false} ThreePieces(t: string, a: string, b: string, c: string)
    requires t == a + b + c
    ensures |t| == |a| + |b| + |c|
    ensures t[..|a|] == a && t[|a|..|t| - |c|] == b && t[|t| - |c|..] == c
  {
  }

  lemma {:induction false} MarkerBytes(marker: string, tag: string)
    requires marker == "$" + tag + "$"
    ensures |marker| == |tag| + 2 && marker[0] == marker[|tag| + 1] == '$'
    ensures forall k :: 0 <= k < |tag| ==> marker[k + 1] == tag[k]
  {
  }

  /** The second dollar ends the tag. */
  lemma {:induction false} TagEnds(text: string, marker: string, tag: string)
    requires marker == "$" + tag + "$" && '$' !in tag && |marker| <= |text| && text[..|marker|] == marker
    ensures text[0] == '$' && IndexFrom(text, '$', 1) == |tag| + 1
  {
    MarkerBytes(marker, tag);
    forall k | 0 <= k < |marker|
      ensures text[k] == marker[k]
    {
      assert text[..|marker|][k] == text[k];
    }
    forall k | 1 <= k < |tag| + 1
      ensures text[k] != '$'
    {
      assert text[k] == marker[(k - 1) + 1] == tag[k - 1];
    }
    var end := IndexFrom(text, '$', 1);
    assert text[|tag| + 1] == '$';
  }

  /** A token between two markers, by where they are. */
  lemma {:induction false} Delimited(tok: Token, n: nat)
    requires !tok.unterminated && 2 <= n && 2 * n <= |tok.text| && tok.text[0] == '$'
    requires IndexFrom(tok.text, '$', 1) == n - 1 && tok.text[|tok.text| - n..] == tok.text[..n]
    ensures DollarDelimiterLength(tok) == Some(n) && Stripped(tok) == tok.text[n..|tok.text| - n]
  {
  }

  /** The shape of a dollar literal, by its marker. */
  lemma {:induction false} DollarShape(tok: Token, marker: string, tag: string, body: string)
    requires marker == "$" + tag + "$"
    ensures DollarLiteral(tok, tag, body) <==> !tok.unterminated && '$' !in tag && tok.text == marker + body + marker
  {
    assert "$" + tag + "$" + body + "$" + tag + "$" == marker + body + marker;
  }

  lemma {:induction false} DollarParts(tok: Token, tag: string, body: string)
    requires DollarLiteral(tok, tag, body)
    ensures DollarDelimiterLength(tok) == Some(|tag| + 2) && body == Stripped(tok) && tok.text[0] == '$'
  {
    var text, marker := tok.text, "$" + tag + "$";
    DollarShape(tok, marker, tag, body);
    ThreePieces(text, marker, body, marker);
    TagEnds(text, marker, tag);
    Delimited(tok, |marker|);
  }

  lemma {:induction false} MarkerIs(text: string, end: nat, tag: string)
    requires 1 <= end < |text| && text[0] == '$' && text[end] == '$' && tag == text[1..end]
    ensures text[..end + 1] == "$" + tag + "$"
  {
  }

  lemma {:induction false} MarkersAround(text: string, n: nat, marker: string)
    requires 2 * n <= |text| && text[..n] == marker && text[|text| - n..] == marker
    ensures text == marker + text[n..|text| - n] + marker
  {
  }

  lemma {:induction false} DollarSplits(tok: Token) returns (tag: string, body: string)
    requires DollarDelimiterLength(tok).Some?
    ensures DollarLiteral(tok, tag, body)
  {
    var text, end := tok.text, IndexFrom(tok.text, '$', 1);
    var marker := text[..end + 1];
    tag, body := text[1..end], text[end + 1..|text| - (end + 1)];
    MarkerIs(text, end, tag);
    MarkersAround(text, end + 1, marker);
    DollarShape(tok, marker, tag, body);
  }

  lemma DollarLiteralIff(tok: Token)
    ensures DollarDelimiterLength(tok).Some? <==> exists tag, body :: DollarLiteral(tok, tag, body)
    ensures forall tag, body :: DollarLiteral(tok, tag, body) ==>
      DollarDelimiterLength(tok).Some? && body == Stripped(tok) && tok.text[0] == '$'
  {
    if DollarDelimiterLength(tok).Some? {
      var tag, body := DollarSplits(tok);
    }
    forall tag, body | DollarLiteral(tok, tag, body)
      ensures DollarDelimiterLength(tok).Some? && body == Stripped(tok) && tok.text[0] == '$'
    {
      DollarParts(tok, tag, body);
    }
  }

  /** A literal token holds one thing. */
  lemma LiteralIff(tok: Token, kind: StringKind, contents: string)
    ensures LiteralOf(tok, kind, contents) <==>
      IsStringToken(tok) && kind == SpecialStringInfo(tok.text).0 && contents == Stripped(tok)
  {
    QuotedLiteralIff(tok.text);
    DollarLiteralIff(tok);
    if IsQuotedLiteralText(tok.text) {
      var prefix, body :| QuotedLiteral(tok.text, prefix, body);
    } else if DollarDelimiterLength(tok).Some? {
      var tag, body :| DollarLiteral(tok, tag, body);
    }
  }

  lemma ContinuesIff(tok: Token)
    ensures Continues(tok) <==> IsContinuation(tok)
  {
    QuotedLiteralIff(tok.text);
    if IsQuotedLiteralText(tok.text) {
      var prefix, body :| QuotedLiteral(tok.text, prefix, body);
      if SpecialStringInfo(tok.text).0 == Standard {
        assert QuotedLiteral(tok.text, "", body);
      }
    }
  }

  lemma {:induction false} ContinuationRun(tokens: seq<Token>, pos: nat, end: nat)
    requires pos <= end <= |tokens|
    ensures end == ContinuationEnd(tokens, pos) <==>
      (forall k :: pos <= k < end ==> Continues(tokens[k])) && (end < |tokens| ==> !Continues(tokens[end]))
    decreases end - pos
  {
    if pos < |tokens| {
      ContinuesIff(tokens[pos]);
    }
    if pos < end {
      ContinuationRun(tokens, pos + 1, end);
    }
  }

  lemma {:induction false} JoinedLast(texts: seq<string>, last: string)
    ensures Joined(texts + [last]) == Joined(texts) + last
    decreases |texts|
  {
    var all := texts + [last];
    if texts == [] {
      assert all == [last] && all[1..] == [] && Joined(all) == last + "" == last;
    } else {
      JoinedLast(texts[1..], last);
      assert all[1..] == texts[1..] + [last];
      OneMoreText(texts[0], Joined(texts[1..]), last);
    }
  }

  lemma {:induction false} OneMoreText(first: string, more: string, last: string)
    ensures first + (more + last) == first + more + last
  {
  }

  lemma {:induction false} JoinedIsGlued(texts: seq<string>)
    ensures Joined(texts) == Glued(texts)
    decreases |texts|
  {
    if texts != [] {
      var n := |texts| - 1;
      JoinedIsGlued(texts[..n]);
      JoinedLast(texts[..n], texts[n]);
      assert texts[..n] + [texts[n]] == texts;
    }
  }

  /** The texts of a literal and its continuations, joined. */
  lemma {:induction false} JoinedIs(tokens: seq<Token>, from: nat, end: nat)
    requires from < end <= |tokens|
    ensures Joined(StrippedAll(tokens, from, end)) == StringText(tokens, from, end)
  {
    var all, more := StrippedAll(tokens, from, end), StrippedAll(tokens, from + 1, end);
    assert all[1..] == more;
    JoinedIsGlued(more);
  }

  // ----- what a leaf says of a position -----

  /** The place of one token. */
  function TokenBase(name: string, tok: Token): Base {
    Base(name, Some(tok.span.start), Some(|tok.text|))
  }

  ghost predicate NameRule(lexicon: Lexicon, leaf: Leaf, tok: Token, pos: nat, v: Verdict)
    requires leaf.IdentifierLeaf?
  {
    var may := leaf.reserved || MayName(lexicon, leaf.cls, tok.text);
    match v
    case Yes(end, tree) =>
      && may && end == pos + 1 && tree.IdentifierResult? && tree.base == TokenBase("", tok)
      && NameText(leaf, tok.text, tree.identifier)
    case No => !may || forall value :: !NameText(leaf, tok.text, value)
    case Abort(_) => false
  }

  ghost predicate NumberRule(name: string, tok: Token, pos: nat, v: Verdict) {
    match v
    case Yes(end, tree) =>
      NumberText(tok.text) && end == pos + 1 && tree == NumberResult(TokenBase(name, tok), tok.text)
    case No => !NumberText(tok.text) && forall k :: !TwoExponents(tok.text, k)
    case Abort(msg) => msg == "Already found scientific notation" && exists k :: TwoExponents(tok.text, k)
  }

  function StringResultOf(name: string, from: Token, last: Token, value: string, kind: StringKind): ParseResult {
    StringResult(Base(name, Some(from.span.start), Some(last.span.start + |last.text| - from.span.start)), value, kind)
  }

  /** The tree of a string that takes the tokens from pos to end. */
  ghost predicate StringOf(name: string, tokens: seq<Token>, pos: nat, end: nat, tree: ParseResult,
                           contents: seq<string>)
    requires pos < |tokens|
  {
    && tree.StringResult? && TakesString(tokens, pos, end, tree.stringKind, contents) && tree.value == Joined(contents)
    && tree == StringResultOf(name, tokens[pos], tokens[end - 1], tree.value, tree.stringKind)
  }

  ghost predicate StringRule(name: string, tokens: seq<Token>, pos: nat, v: Verdict)
    requires pos < |tokens|
  {
    match v
    case Yes(end, tree) => exists contents :: StringOf(name, tokens, pos, end, tree, contents)
    case No => forall kind, contents :: !LiteralOf(tokens[pos], kind, contents)
    case Abort(_) => false
  }

  ghost predicate LeafRule(lexicon: Lexicon, leaf: Leaf, name: string, tokens: seq<Token>, pos: nat, v: Verdict) {
    if pos >= |tokens| then v == No
    else
      var tok := tokens[pos];
      match leaf
      case KeywordLeaf(keyword) =>
        v == if SameWord(keyword, tok.text) then Yes(pos + 1, KeywordResult(TokenBase(name, tok), tok.text)) else No
      case EndOfInputLeaf =>
        v == if tok.kind == EndOfInput then Yes(pos + 1, EndOfInputResult(Base("", None, None))) else No
      case IdentifierLeaf(_, _, _) => NameRule(lexicon, leaf, tok, pos, v)
      case NumberLeaf => NumberRule(name, tok, pos, v)
      case StringLeaf => StringRule(name, tokens, pos, v)
      case OperatorLeaf(all) =>
        v == if OperatorText(all, tok.text) then Yes(pos + 1, OperatorResult(TokenBase("", tok), tok.text)) else No
  }

  lemma NameRuleIff(lexicon: Lexicon, leaf: Leaf, tok: Token, pos: nat, v: Verdict)
    requires leaf.IdentifierLeaf?
    ensures NameRule(lexicon, leaf, tok, pos, v) <==> v == VerdictOf(IdentifierMatch(lexicon, leaf, tok, pos))
  {
    MayNameIff(lexicon, leaf.cls, tok.text);
    if v.Yes? && v.tree.IdentifierResult? {
      NameTextIff(leaf, tok.text, v.tree.identifier);
    }
    forall value
      ensures NameText(leaf, tok.text, value) <==>
        IsIdentifierText(leaf, tok.text) && value == IdentifierValue(leaf, tok.text)
    {
      NameTextIff(leaf, tok.text, value);
    }
    if IsIdentifierText(leaf, tok.text) {
      assert NameText(leaf, tok.text, IdentifierValue(leaf, tok.text));
    }
  }

  lemma NumberRuleIff(name: string, tok: Token, pos: nat, v: Verdict)
    ensures NumberRule(name, tok, pos, v) <==> v == VerdictOf(NumberMatch(name, tok, pos))
  {
    NumberTextIff(tok.text);
  }

  lemma StartIff(text: string)
    ensures IsQuotedLiteralText(text) <==> IsQuotedLiteral(text)
  {
    QuotedLiteralIff(text);
  }

  /** Where the literal at pos stops, and that nothing but continuations is on the way. */
  lemma StringStops(tokens: seq<Token>, pos: nat)
    requires pos < |tokens|
    ensures
      var end := StringStop(tokens, pos);
      && (forall k :: pos < k < end ==> Continues(tokens[k]))
      && (if IsQuotedLiteral(tokens[pos].text) then end < |tokens| ==> !Continues(tokens[end]) else end == pos + 1)
  {
    StartIff(tokens[pos].text);
    ContinuationRun(tokens, pos + 1, StringStop(tokens, pos));
  }

  lemma ContinuationHolds(tok: Token)
    requires Continues(tok)
    ensures LiteralOf(tok, Standard, Stripped(tok))
  {
    ContinuesIff(tok);
    LiteralIff(tok, Standard, Stripped(tok));
  }

  lemma {:induction false} LaterTaken(tokens: seq<Token>, pos: nat, end: nat, k: nat)
    requires pos < k < end <= |tokens| && Continues(tokens[k])
    ensures LiteralOf(tokens[k], Standard, StrippedAll(tokens, pos, end)[k - pos])
  {
    ContinuationHolds(tokens[k]);
    assert StrippedAll(tokens, pos, end)[k - pos] == Stripped(tokens[k]);
  }

  lemma {:induction false} FirstTaken(tokens: seq<Token>, pos: nat, end: nat)
    requires pos < end <= |tokens| && IsStringToken(tokens[pos])
    ensures LiteralOf(tokens[pos], SpecialStringInfo(tokens[pos].text).0, StrippedAll(tokens, pos, end)[0])
  {
    LiteralIff(tokens[pos], SpecialStringInfo(tokens[pos].text).0, Stripped(tokens[pos]));
  }

  lemma {:induction false} StringTaken(tokens: seq<Token>, pos: nat)
    requires pos < |tokens| && IsStringToken(tokens[pos])
    ensures
      var end := StringStop(tokens, pos);
      TakesString(tokens, pos, end, SpecialStringInfo(tokens[pos].text).0, StrippedAll(tokens, pos, end))
  {
    var end := StringStop(tokens, pos);
    StringStops(tokens, pos);
    FirstTaken(tokens, pos, end);
    forall k | pos < k < end
      ensures LiteralOf(tokens[k], Standard, StrippedAll(tokens, pos, end)[k - pos])
    {
      LaterTaken(tokens, pos, end, k);
    }
  }

  lemma {:induction false} TakenText(tokens: seq<Token>, pos: nat, end: nat, kind: StringKind, contents: seq<string>,
                                     k: nat)
    requires pos < |tokens| && TakesString(tokens, pos, end, kind, contents) && k < |contents|
    ensures contents[k] == StrippedAll(tokens, pos, end)[k]
  {
    if k == 0 {
      LiteralIff(tokens[pos], kind, contents[0]);
    } else {
      var at := pos + k;
      assert LiteralOf(tokens[at], Standard, contents[at - pos]);
      LiteralIff(tokens[at], Standard, contents[k]);
    }
  }

  lemma {:induction false} TakenTexts(tokens: seq<Token>, pos: nat, end: nat, kind: StringKind, contents: seq<string>)
    requires pos < |tokens| && TakesString(tokens, pos, end, kind, contents)
    ensures contents == StrippedAll(tokens, pos, end)
  {
    forall k | 0 <= k < |contents|
      ensures contents[k] == StrippedAll(tokens, pos, end)[k]
    {
      TakenText(tokens, pos, end, kind, contents, k);
    }
  }

  lemma {:induction false} LiteralStarts(tok: Token, kind: StringKind, contents: string)
    requires LiteralOf(tok, kind, contents)
    ensures IsStringToken(tok) && kind == SpecialStringInfo(tok.text).0
  {
    LiteralIff(tok, kind, contents);
  }

  lemma {:induction false} TakenStops(tokens: seq<Token>, pos: nat, end: nat, kind: StringKind, contents: seq<string>)
    requires pos < |tokens| && TakesString(tokens, pos, end, kind, contents)
    ensures IsStringToken(tokens[pos]) && end == StringStop(tokens, pos)
    ensures kind == SpecialStringInfo(tokens[pos].text).0
  {
    StartIff(tokens[pos].text);
    ContinuationRun(tokens, pos + 1, end);
    LiteralStarts(tokens[pos], kind, contents[0]);
  }

  lemma {:induction false} TakenIs(tokens: seq<Token>, pos: nat, end: nat, kind: StringKind, contents: seq<string>)
    requires pos < |tokens| && TakesString(tokens, pos, end, kind, contents)
    ensures IsStringToken(tokens[pos]) && end == StringStop(tokens, pos)
    ensures kind == SpecialStringInfo(tokens[pos].text).0 && Joined(contents) == StringText(tokens, pos, end)
  {
    TakenStops(tokens, pos, end, kind, contents);
    TakenTexts(tokens, pos, end, kind, contents);
    JoinedIs(tokens, pos, end);
  }

  lemma LiteralAtIff(tok: Token)
    ensures (exists kind, contents :: LiteralOf(tok, kind, contents)) <==> IsStringToken(tok)
  {
    LiteralIff(tok, SpecialStringInfo(tok.text).0, Stripped(tok));
    forall kind, contents
      ensures LiteralOf(tok, kind, contents) ==> IsStringToken(tok)
    {
      LiteralIff(tok, kind, contents);
    }
  }

  lemma StringPutTogether(name: string, tokens: seq<Token>, pos: nat, end: nat, kind: StringKind, value: string,
                          contents: seq<string>)
    requires pos < |tokens| && TakesString(tokens, pos, end, kind, contents) && value == Joined(contents)
    ensures StringOf(name, tokens, pos, end, StringResultOf(name, tokens[pos], tokens[end - 1], value, kind), contents)
  {
  }

  lemma StringMatchIs(name: string, tokens: seq<Token>, pos: nat)
    requires pos < |tokens|
    ensures VerdictOf(StringMatch(name, tokens, pos)) ==
      if !IsStringToken(tokens[pos]) then No
      else
        var end := StringStop(tokens, pos);
        Yes(end, StringResultOf(name, tokens[pos], tokens[end - 1], StringText(tokens, pos, end),
          SpecialStringInfo(tokens[pos].text).0))
  {
  }

  /** The literal at pos, by what its match takes. */
  lemma StringTakes(tokens: seq<Token>, pos: nat)
    returns (end: nat, kind: StringKind, value: string, contents: seq<string>)
    requires pos < |tokens| && IsStringToken(tokens[pos])
    ensures end == StringStop(tokens, pos) && kind == SpecialStringInfo(tokens[pos].text).0
    ensures value == StringText(tokens, pos, end)
    ensures TakesString(tokens, pos, end, kind, contents) && value == Joined(contents)
  {
    end, kind := StringStop(tokens, pos), SpecialStringInfo(tokens[pos].text).0;
    value, contents := StringText(tokens, pos, end), StrippedAll(tokens, pos, end);
    StringTaken(tokens, pos);
    TakenIs(tokens, pos, end, kind, contents);
  }

  lemma StringOfOnly(name: string, tokens: seq<Token>, pos: nat, end: nat, tree: ParseResult, contents: seq<string>)
    requires pos < |tokens| && StringOf(name, tokens, pos, end, tree, contents)
    ensures IsStringToken(tokens[pos]) && end == StringStop(tokens, pos)
    ensures tree == StringResultOf(name, tokens[pos], tokens[end - 1], StringText(tokens, pos, end),
      SpecialStringInfo(tokens[pos].text).0)
  {
    TakenIs(tokens, pos, end, tree.stringKind, contents);
  }

  lemma StringRuleHolds(name: string, tokens: seq<Token>, pos: nat, v: Verdict)
    requires pos < |tokens| && v == VerdictOf(StringMatch(name, tokens, pos))
    ensures StringRule(name, tokens, pos, v)
  {
    LiteralAtIff(tokens[pos]);
    StringMatchIs(name, tokens, pos);
    if IsStringToken(tokens[pos]) {
      StringYes(name, tokens, pos, v);
    }
  }

  lemma StringYes(name: string, tokens: seq<Token>, pos: nat, v: Verdict)
    requires pos < |tokens| && IsStringToken(tokens[pos])
    requires var end := StringStop(tokens, pos);
      v == Yes(end, StringResultOf(name, tokens[pos], tokens[end - 1], StringText(tokens, pos, end),
        SpecialStringInfo(tokens[pos].text).0))
    ensures StringRule(name, tokens, pos, v)
  {
    var end, kind, value, contents := StringTakes(tokens, pos);
    StringPutTogether(name, tokens, pos, end, kind, value, contents);
  }

  lemma {:induction false} StringMatchYes(name: string, tokens: seq<Token>, pos: nat, end: nat, tree: ParseResult)
    requires pos < |tokens| && IsStringToken(tokens[pos]) && end == StringStop(tokens, pos)
    requires tree == StringResultOf(name, tokens[pos], tokens[end - 1], StringText(tokens, pos, end),
      SpecialStringInfo(tokens[pos].text).0)
    ensures VerdictOf(StringMatch(name, tokens, pos)) == Yes(end, tree)
  {
    StringMatchIs(name, tokens, pos);
  }

  lemma {:induction false} StringYesOnly(name: string, tokens: seq<Token>, pos: nat, end: nat, tree: ParseResult)
    requires pos < |tokens| && StringRule(name, tokens, pos, Yes(end, tree))
    ensures VerdictOf(StringMatch(name, tokens, pos)) == Yes(end, tree)
  {
    var contents :| StringOf(name, tokens, pos, end, tree, contents);
    StringOfOnly(name, tokens, pos, end, tree, contents);
    StringMatchYes(name, tokens, pos, end, tree);
  }

  lemma {:induction false} StringNoOnly(name: string, tokens: seq<Token>, pos: nat)
    requires pos < |tokens| && StringRule(name, tokens, pos, No)
    ensures VerdictOf(StringMatch(name, tokens, pos)) == No
  {
    LiteralAtIff(tokens[pos]);
    StringMatchIs(name, tokens, pos);
  }

  lemma {:induction false} StringRuleOnly(name: string, tokens: seq<Token>, pos: nat, v: Verdict)
    requires pos < |tokens| && StringRule(name, tokens, pos, v)
    ensures v == VerdictOf(StringMatch(name, tokens, pos))
  {
    match v {
      case Yes(end, tree) => StringYesOnly(name, tokens, pos, end, tree);
      case No => StringNoOnly(name, tokens, pos);
    }
  }

  /** A leaf matcher says exactly what the shape of the tokens says. */
  lemma LeafRuleIff(lexicon: Lexicon, leaf: Leaf, name: string, tokens: seq<Token>, pos: nat, v: Verdict)
    ensures LeafRule(lexicon, leaf, name, tokens, pos, v) <==>
      v == VerdictOf(LeafMatch(lexicon, leaf, name, tokens, pos))
  {
    if pos < |tokens| {
      match leaf
      case KeywordLeaf(keyword) => SameWordIff(keyword, tokens[pos].text);
      case EndOfInputLeaf =>
      case IdentifierLeaf(_, _, _) => NameRuleIff(lexicon, leaf, tokens[pos], pos, v);
      case NumberLeaf => NumberRuleIff(name, tokens[pos], pos, v);
      case StringLeaf =>
        if v == VerdictOf(StringMatch(name, tokens, pos)) {
          StringRuleHolds(name, tokens, pos, v);
        }
        if StringRule(name, tokens, pos, v) {
          StringRuleOnly(name, tokens, pos, v);
        }
      case OperatorLeaf(_) => OperatorTextIff(leaf, tokens[pos].text);
    }
  }
}
