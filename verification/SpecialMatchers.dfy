/** The leaf matchers: keywords, the end-of-input sentinel, identifiers, numbers, string
    literals and operators (internal/matcher/matcher.go, internal/matcher/special.go). */
module SpecialMatchers {
  import opened Tokens
  import opened ByteClasses
  import opened ParseTree

  datatype IdentifierClass = ClassColumnName | ClassTypeFunc | ClassTypeName | ClassBareLabel

  datatype Leaf =
    | KeywordLeaf(keyword: string)
    | EndOfInputLeaf
    | IdentifierLeaf(cls: IdentifierClass, reserved: bool, supportsString: bool)
    | NumberLeaf
    | StringLeaf
    | OperatorLeaf(allOperators: bool)

  /** What one matching attempt does.  `pos` is the token index after the consumed tokens,
      `reach` the furthest token index the attempt advanced to, its start when it never
      advanced.  Aborted is the MatchError that unwinds the whole match. */
  datatype Outcome =
    | Matched(result: ParseResult, pos: nat, reach: nat)
    | Failed(reach: nat)
    | Aborted(msg: string)

  predicate CiEquals(a: string, b: string) {
    Lower(a) == Lower(b)
  }

  /** ciEquals: ASCII case-insensitive comparison, byte by byte. */
  method CompareIgnoringCase(a: string, b: string) returns (equal: bool)
    ensures equal == CiEquals(a, b)
  {
    if |a| != |b| {
      return false;
    }
    for i := 0 to |a|
      invariant forall k :: 0 <= k < i ==> LowerChar(a[k]) == LowerChar(b[k])
    {
      if LowerChar(a[i]) != LowerChar(b[i]) {
        assert Lower(a)[i] != Lower(b)[i];
        return false;
      }
    }
    return true;
  }

  predicate IsQuoted(text: string) {
    |text| >= 2 && IsIdentifierDelimiter(text[0]) && text[0] == text[|text| - 1]
  }

  function UnquoteIdentifier(text: string): string
    requires |text| >= 2
  {
    Undouble(text[1..|text| - 1], text[0])
  }

  /** A lone quote never leaves the tokenizer; the length guard keeps slicing total. */
  predicate IsSingleQuoted(text: string) {
    |text| >= 2 && text[0] == '\'' && text[|text| - 1] == '\''
  }

  predicate IsIdentifierText(leaf: Leaf, text: string)
    requires leaf.IdentifierLeaf?
  {
    text != "" &&
    ((IsSingleQuoted(text) && leaf.supportsString)
     || IsQuoted(text)
     || (!IsInitialNumber(text[0]) && text[|text| - 1] != '\'' && IsKeywordChar(text[0])))
  }

  predicate IsAllowedKeyword(lexicon: Lexicon, cls: IdentifierClass, text: string) {
    var c := Categories(lexicon, text);
    if c == {} then true
    else if cls == ClassBareLabel then BareLabel in c
    else Unreserved in c || match cls
      case ClassTypeName => TypeName in c
      case ClassTypeFunc => FuncName in c || TypeName in c
      case _ => ColumnName in c
  }

  function IdentifierValue(leaf: Leaf, text: string): string
    requires leaf.IdentifierLeaf? && IsIdentifierText(leaf, text)
  {
    if IsQuoted(text) then UnquoteIdentifier(text)
    else if !leaf.reserved && IsSingleQuoted(text) && leaf.supportsString
      then Undouble(text[1..|text| - 1], '\'')
    else text
  }

  datatype NumberVerdict = IsNumber | NotNumber | DoubleExponent

  predicate IsNumberCont(c: char) {
    IsInitialNumber(c) || c == 'e' || c == 'E' || c == '_'
  }

  /** What the number matcher decides about text[i..], given what text[..i] contained. */
  function ScanNumber(text: string, i: nat, hasDot: bool, scientific: bool): NumberVerdict
    requires i <= |text|
    decreases |text| - i
  {
    if i == |text| then IsNumber
    else
      var c := text[i];
      if c == '.' && (hasDot || scientific) then NotNumber
      else if (c == 'e' || c == 'E') && scientific then DoubleExponent
      else
        var sci := scientific || c == 'e' || c == 'E';
        if !(sci && (c == '+' || c == '-')) && !IsNumberCont(c) then NotNumber
        else ScanNumber(text, i + 1, hasDot || c == '.', sci)
  }

  function NumberTextVerdict(text: string): NumberVerdict {
    if text == "" || !IsInitialNumber(text[0]) || text == "." then NotNumber
    else ScanNumber(text, 1, text[0] == '.', false)
  }

  method JudgeNumber(text: string) returns (v: NumberVerdict)
    ensures v == NumberTextVerdict(text)
  {
    if text == "" || !IsInitialNumber(text[0]) {
      return NotNumber;
    }
    if text == "." {
      return NotNumber;
    }
    var scientific := false;
    var hasDot := text[0] == '.';
    for i := 1 to |text|
      invariant NumberTextVerdict(text) == ScanNumber(text, i, hasDot, scientific)
    {
      var c := text[i];
      if c == '.' {
        if hasDot || scientific {
          return NotNumber;
        }
        hasDot := true;
      }
      if c == 'e' || c == 'E' {
        if scientific {
          return DoubleExponent;
        }
        scientific := true;
      }
      if scientific && (c == '+' || c == '-') {
        continue;
      }
      if !IsNumberCont(c) {
        return NotNumber;
      }
    }
    return IsNumber;
  }

  /** specialStringInfo: the literal's kind and the length of its opening delimiter. */
  function SpecialStringInfo(text: string): (StringKind, nat) {
    if text == "" then (Standard, 0)
    else if |text| > 1 && text[0] != '\'' && text[1] == '\'' && IsStringPrefix(text[0]) then (PrefixKind(text[0]), 2)
    else (Standard, 1)
  }

  function PrefixKind(c: char): StringKind {
    if c == 'N' || c == 'n' then National
    else if c == 'X' || c == 'x' then Hexadecimal
    else if c == 'B' || c == 'b' then Bit
    else Escape
  }

  predicate IsSingleQuotedLiteral(text: string, prefixLen: nat) {
    prefixLen != 0 && |text| >= prefixLen + 1 &&
    text[prefixLen - 1] == '\'' && text[|text| - 1] == '\''
  }

  /** First index of `c` in s at or after i, |s| when there is none. */
  function IndexFrom(s: string, c: char, i: nat): (r: nat)
    requires i <= |s|
    ensures i <= r <= |s|
    ensures forall k :: i <= k < r ==> s[k] != c
    ensures r < |s| ==> s[r] == c
    decreases |s| - i
  {
    if i == |s| || s[i] == c then i else IndexFrom(s, c, i + 1)
  }

  /** dollarQuoteDelimiterLength: the length of $tag$ for a terminated dollar-quoted literal. */
  function DollarDelimiterLength(tok: Token): (r: Option<nat>)
    ensures r.Some? ==> 2 <= r.value && 2 * r.value <= |tok.text|
  {
    var text := tok.text;
    if tok.unterminated || text == "" || text[0] != '$' then None
    else
      var end := IndexFrom(text, '$', 1);
      if end == |text| || |text| < (end + 1) * 2 then None
      else if text[|text| - (end + 1)..] == text[..end + 1] then Some(end + 1) else None
  }

  predicate StartsSingleQuoted(tok: Token) {
    IsSingleQuotedLiteral(tok.text, SpecialStringInfo(tok.text).1)
  }

  predicate IsStringToken(tok: Token) {
    StartsSingleQuoted(tok) || DollarDelimiterLength(tok).Some?
  }

  /** stripStringLiteral: the contents between the delimiters of a literal token. */
  function Stripped(tok: Token): string {
    var prefixLen := SpecialStringInfo(tok.text).1;
    match DollarDelimiterLength(tok)
    case Some(length) => tok.text[length..|tok.text| - length]
    case None =>
      if StartsSingleQuoted(tok) then Undouble(tok.text[prefixLen..|tok.text| - 1], '\'') else ""
  }

  /** isStringContinuation: a plain '...' literal on a later line, no block comment between. */
  predicate IsContinuation(tok: Token) {
    tok.precededByNewline && !tok.precededByBlockComment && tok.kind == StringLit &&
    SpecialStringInfo(tok.text).0 == Standard && StartsSingleQuoted(tok)
  }

  /** End of the run of continuation literals that starts at token pos. */
  function ContinuationEnd(tokens: seq<Token>, pos: nat): (r: nat)
    ensures pos <= r && (pos <= |tokens| ==> r <= |tokens|)
    decreases |tokens| - pos
  {
    if pos < |tokens| && IsContinuation(tokens[pos]) then ContinuationEnd(tokens, pos + 1) else pos
  }

  function StrippedAll(tokens: seq<Token>, from: nat, end: nat): seq<string>
    requires from <= end <= |tokens|
  {
    seq(end - from, i requires 0 <= i < end - from => Stripped(tokens[from + i]))
  }

  function Glued(texts: seq<string>): string {
    if texts == [] then "" else Glued(texts[..|texts| - 1]) + texts[|texts| - 1]
  }

  function Concatenated(tokens: seq<Token>, from: nat, end: nat): string
    requires from <= end <= |tokens|
  {
    Glued(StrippedAll(tokens, from, end))
  }

  predicate HasSpecialPrecedence(op: string) {
    op in ["=", "<", ">", "~", "->", "<=", ">=", "!=", "==", "<>", "~~", "~*", "!~",
           "~~*", "~~~", "!~~", "!~*", "!~~*"]
  }

  predicate IsOperatorText(leaf: Leaf, text: string)
    requires leaf.OperatorLeaf?
  {
    (leaf.allOperators || !HasSpecialPrecedence(text)) && forall i :: 0 <= i < |text| ==> IsOperatorCont(text[i])
  }

  /** A string literal token and, when it is single-quoted, the continuations that follow. */
  function StringMatch(name: string, tokens: seq<Token>, pos: nat): (o: Outcome)
    requires pos < |tokens|
    ensures o.Matched? ==> pos < o.pos <= |tokens| && o.reach == o.pos
    ensures o.Failed? ==> o.reach == pos
    ensures !o.Aborted?
  {
    if !IsStringToken(tokens[pos]) then Failed(pos)
    else
      var end := StringStop(tokens, pos);
      Matched(StringTree(name, tokens[pos], StringText(tokens, pos, end), EndOffset(tokens[end - 1])), end, end)
  }

  function StringStop(tokens: seq<Token>, pos: nat): (end: nat)
    requires pos < |tokens|
    ensures pos < end <= |tokens|
  {
    if StartsSingleQuoted(tokens[pos]) then ContinuationEnd(tokens, pos + 1) else pos + 1
  }

  function StringText(tokens: seq<Token>, pos: nat, end: nat): string
    requires pos < end <= |tokens|
  {
    Stripped(tokens[pos]) + Concatenated(tokens, pos + 1, end)
  }

  /** Where a token's text ends, by its recorded start. */
  function EndOffset(tok: Token): int {
    tok.span.start + |tok.text|
  }

  function StringTree(name: string, tok: Token, value: string, end: int): ParseResult {
    StringResult(Base(name, Some(tok.span.start), Some(end - tok.span.start)), value, SpecialStringInfo(tok.text).0)
  }

  function LeafBase(name: string, tok: Token): Base {
    Base(name, Some(tok.span.start), Some(|tok.text|))
  }

  function KeywordMatch(keyword: string, name: string, tok: Token, pos: nat): Outcome {
    if CiEquals(keyword, tok.text) then Matched(KeywordResult(LeafBase(name, tok), tok.text), pos + 1, pos + 1)
    else Failed(pos)
  }

  function EndOfInputMatch(tok: Token, pos: nat): Outcome {
    if tok.kind == EndOfInput then Matched(EndOfInputResult(EMPTY_BASE), pos + 1, pos + 1) else Failed(pos)
  }

  function IdentifierMatch(lexicon: Lexicon, leaf: Leaf, tok: Token, pos: nat): Outcome
    requires leaf.IdentifierLeaf?
  {
    if !leaf.reserved && !IsAllowedKeyword(lexicon, leaf.cls, tok.text) then Failed(pos)
    else if !IsIdentifierText(leaf, tok.text) then Failed(pos)
    else Matched(IdentifierResult(LeafBase("", tok), IdentifierValue(leaf, tok.text)), pos + 1, pos + 1)
  }

  function NumberMatch(name: string, tok: Token, pos: nat): Outcome {
    match NumberTextVerdict(tok.text)
    case NotNumber => Failed(pos)
    case DoubleExponent => Aborted("Already found scientific notation")
    case IsNumber => Matched(NumberResult(LeafBase(name, tok), tok.text), pos + 1, pos + 1)
  }

  function OperatorMatch(leaf: Leaf, tok: Token, pos: nat): Outcome
    requires leaf.OperatorLeaf?
  {
    if IsOperatorText(leaf, tok.text) then Matched(OperatorResult(LeafBase("", tok), tok.text), pos + 1, pos + 1)
    else Failed(pos)
  }

  /** What a leaf does at token pos: fail where it stands, consume tokens, or abort.
      A leaf that succeeds always consumes at least one token, the end-of-input sentinel
      included (an operator leaf accepts the sentinel's empty text). */
  function LeafMatch(lexicon: Lexicon, leaf: Leaf, name: string, tokens: seq<Token>, pos: nat): (o: Outcome)
    ensures o.Matched? ==> pos < o.pos <= |tokens| && o.reach == o.pos
    ensures o.Failed? ==> o.reach == pos
    ensures o.Aborted? ==> leaf.NumberLeaf?
  {
    if pos >= |tokens| then Failed(pos)
    else match leaf
      case KeywordLeaf(keyword) => KeywordMatch(keyword, name, tokens[pos], pos)
      case EndOfInputLeaf => EndOfInputMatch(tokens[pos], pos)
      case IdentifierLeaf(_, _, _) => IdentifierMatch(lexicon, leaf, tokens[pos], pos)
      case NumberLeaf => NumberMatch(name, tokens[pos], pos)
      case StringLeaf => StringMatch(name, tokens, pos)
      case OperatorLeaf(_) => OperatorMatch(leaf, tokens[pos], pos)
  }
}
