/** Tokenization as a function of the source: one lexeme at a time, no machine states
    (lexer/lexer.go:249-338, 356-684). */
module LexSpec {
  import opened Tokens
  import opened ByteClasses
  import opened LexRules

  /** Tokens emitted so far, the true source extent of each, and the last block comment. */
  datatype LexState = LexState(
    tokens: seq<Token>,
    extents: seq<(nat, nat)>,
    hasBlockComment: bool,
    lastBlockCommentPos: nat)

  const EMPTY := LexState([], [], false, 0)

  datatype LexResult = Lexed(st: LexState) | LexError(msg: string, offset: nat)

  function PlainToken(kind: Kind, text: string, offset: nat): Token {
    Token(kind, text, Span(offset, offset + |text|), false, false, false)
  }

  /** push: a token at `offset`, appended as it is; `at` is where its text really starts. */
  ghost function Push(st: LexState, kind: Kind, text: string, offset: nat, at: nat): LexState {
    st.(tokens := st.tokens + [PlainToken(kind, text, offset)], extents := st.extents + [(at, at + |text|)])
  }

  ghost predicate NewlineBetween(s: string, from: int, end: nat)
    requires end <= |s|
  {
    exists k :: 0 <= k && from <= k < end && (s[k] == '\n' || s[k] == '\r')
  }

  /** pushRange on a non-comment range: the token s[start..end] with its preceding-trivia flags. */
  ghost function PushRange(s: string, st: LexState, start: nat, end: nat, kind: Kind, unterminated: bool): LexState
    requires start < end <= |s|
  {
    var bare := Token(kind, s[start..end], Span(start, end), unterminated, false, false);
    var token :=
      if st.tokens == [] then bare
      else
        var prev := st.tokens[|st.tokens| - 1];
        var prevEnd := prev.span.start + |prev.text|;
        bare.(precededByNewline := NewlineBetween(s, prevEnd, start),
              precededByBlockComment := st.hasBlockComment && prevEnd <= st.lastBlockCommentPos < start);
    st.(tokens := st.tokens + [token], extents := st.extents + [(start, end)])
  }

  /** OnLastToken: the token that runs to the end of the source carries no flags. */
  ghost function PushLast(s: string, st: LexState, start: nat, kind: Kind): LexState
    requires start < |s|
  {
    st.(tokens := st.tokens + [Token(kind, s[start..], Span(start, |s|), false, false, false)],
        extents := st.extents + [(start, |s|)])
  }

  ghost function PushSigns(s: string, st: LexState, from: nat, end: nat): LexState
    requires from <= end <= |s|
    decreases end - from
  {
    if from == end then st else PushSigns(s, Push(st, Operator, [s[from]], from, from), from + 1, end)
  }

  /** pushOperator: the trimmed operator, then each given-back sign on its own. */
  ghost function PushOperator(s: string, st: LexState, start: nat, end: nat): LexState
    requires start < end <= |s|
  {
    var cut := OperatorEnd(s, start, end);
    PushSigns(s, PushRange(s, st, start, cut, Operator, false), cut, end)
  }

  /** A finished comment: block comments are remembered, by the start the machine gave them. */
  ghost function SkipComment(s: string, st: LexState, start: nat, end: nat): LexState
    requires start <= end <= |s|
  {
    if end >= start + 2 && StartsBlockComment(s, start)
    then st.(hasBlockComment := true, lastBlockCommentPos := start) else st
  }

  function WordKind(lexicon: Lexicon, word: string): Kind {
    if IsKeyword(lexicon, word) then Keyword else Identifier
  }

  /** Which rule applies to the byte at i of the standard state, first match first. */
  datatype Lexeme =
    | StringLexeme(body: nat, escape: bool)
    | QuotedLexeme
    | TerminatorLexeme
    | LoneDollar
    | ParameterDollar(digit: bool)
    | DollarStringLexeme(close: nat)
    | LineCommentLexeme
    | BlockCommentLexeme
    | SpaceLexeme(length: nat)
    | CompoundColonLexeme
    | SingleByteLexeme
    | NumberLexeme
    | OperatorLexeme
    | WordLexeme

  function LexemeAt(s: string, i: nat): (r: Lexeme)
    requires i < |s|
    ensures r.StringLexeme? ==> i < r.body <= |s| && r.body <= i + 2
    ensures r.DollarStringLexeme? ==> i < r.close < |s|
    ensures r.SpaceLexeme? ==> 0 < r.length && i + r.length <= |s|
  {
    var c := s[i];
    if c == '\'' then StringLexeme(i + 1, false)
    else if IsIdentifierDelimiter(c) then QuotedLexeme
    else if c == ';' then TerminatorLexeme
    else if c == '$' then
      if i + 1 >= |s| then LoneDollar
      else if IsDigit(s[i + 1]) then ParameterDollar(true)
      else match MarkerEnd(s, i + 1)
        case None => ParameterDollar(false)
        case Some(close) => DollarStringLexeme(close)
    else if StartsLineComment(s, i) then LineCommentLexeme
    else if StartsBlockComment(s, i) then BlockCommentLexeme
    else if IsSpace(c) then SpaceLexeme(1)
    else if UnicodeSpaceLen(s, i) > 0 then SpaceLexeme(UnicodeSpaceLen(s, i))
    else if CompoundColon(s, i) then
      if i + 2 < |s| && IsOperatorCont(s[i + 2]) then OperatorLexeme else CompoundColonLexeme
    else if IsSingleByteOperator(c) then SingleByteLexeme
    else if IsInitialNumber(c) then NumberLexeme
    else if IsStringPrefix(c) && i + 1 < |s| && s[i + 1] == '\'' then StringLexeme(i + 2, c == 'E' || c == 'e')
    else if IsOperatorAny(c) then OperatorLexeme
    else WordLexeme
  }

  // ----- what follows once a lexeme's end is known -----

  /** After one lexeme: the end of tokenizing, or where and how it goes on.  `mark` is the offset
      the next directly pushed operator gets: i, except right after a parameter's '$', where it is
      still the '$'. */
  datatype Next = Ends(r: LexResult) | GoesOn(i: nat, mark: nat, st: LexState)

  /** On from position i. */
  function At(i: nat, st: LexState): Next { GoesOn(i, i, st) }

  ghost function AfterString(s: string, start: nat, end: Option<nat>, st: LexState): Next
    requires start < |s| && (end.Some? ==> start < end.value <= |s|)
  {
    match end
    case None => Ends(LexError("unterminated string literal", start))
    case Some(e) => At(e, PushRange(s, st, start, e, StringLit, false))
  }

  ghost function AfterQuoted(s: string, start: nat, end: Option<nat>, st: LexState): Next
    requires start < |s| && (end.Some? ==> start < end.value <= |s|)
  {
    match end
    case None => Ends(LexError("unterminated quoted identifier", start))
    case Some(e) =>
      if e == start + 2 && (s[start..e] == "\"\"" || s[start..e] == "``")
      then Ends(LexError("zero-length delimited identifier", start))
      else At(e, PushRange(s, st, start, e, Identifier, false))
  }

  ghost function AfterDollarString(s: string, start: nat, end: Option<nat>, st: LexState): Next
    requires start < |s| && (end.Some? ==> start < end.value <= |s|)
  {
    match end
    case None => Ends(Lexed(PushRange(s, st, start, |s|, StringLit, true)))
    case Some(e) => At(e, PushRange(s, st, start, e, StringLit, false))
  }

  /** `mark` is the machine's idea of the comment's start, `start` the true one. */
  ghost function AfterBlockComment(s: string, start: nat, mark: nat, end: Option<nat>, st: LexState): Next
    requires mark <= start < |s| && (end.Some? ==> start < end.value <= |s|)
  {
    match end
    case None => Ends(LexError("unterminated /* comment at or near \"" + s[mark..] + "\"", mark))
    case Some(e) => At(e, SkipComment(s, st, mark, e))
  }

  ghost function AfterLineComment(s: string, start: nat, mark: nat, end: nat, st: LexState): Next
    requires mark <= start < end <= |s|
  {
    At(end, SkipComment(s, st, mark, end))
  }

  ghost function AfterNumber(s: string, start: nat, stop: nat, st: LexState): Next
    requires start < stop <= |s| && IsInitialNumber(s[start])
  {
    if stop == |s| then Ends(Lexed(PushLast(s, st, start, Number)))
    else
      var e := NumberEnd(s, start, stop);
      At(e, PushRange(s, st, start, e, Number, false))
  }

  ghost function AfterOperator(s: string, start: nat, stop: nat, st: LexState): Next
    requires start < stop <= |s|
  {
    At(stop, PushOperator(s, st, start, stop))
  }

  ghost function AfterWord(lexicon: Lexicon, s: string, start: nat, stop: nat, st: LexState): Next
    requires start < stop <= |s|
  {
    if stop == |s| then Ends(Lexed(PushLast(s, st, start, WordKind(lexicon, s[start..]))))
    else At(stop, PushRange(s, st, start, stop, WordKind(lexicon, s[start..stop]), false))
  }

  /** The lexeme at i and what it leaves. */
  ghost function NextAt(lexicon: Lexicon, s: string, i: nat, mark: nat, st: LexState): (n: Next)
    requires mark <= i < |s|
    ensures n.GoesOn? ==> n.mark <= n.i <= |s| && i < n.i
  {
    match LexemeAt(s, i)
    case StringLexeme(body, escape) => AfterString(s, i, StringEnd(s, body, escape), st)
    case QuotedLexeme => AfterQuoted(s, i, QuotedEnd(s, i + 1, s[i]), st)
    case TerminatorLexeme => At(i + 1, Push(st, Terminator, ";", i, i))
    case LoneDollar => GoesOn(i + 1, mark, st)
    case ParameterDollar(digit) => GoesOn(i + 1, if digit then mark else i, Push(st, Operator, "$", i, i))
    case DollarStringLexeme(close) => AfterDollarString(s, i, DollarStringEnd(s, close + 1, s[i + 1..close]), st)
    case LineCommentLexeme => AfterLineComment(s, i, mark, LineCommentEnd(s, i + 2), st)
    case BlockCommentLexeme => AfterBlockComment(s, i, mark, BlockCommentEnd(s, i + 2, 1), st)
    case SpaceLexeme(length) => At(i + length, st)
    case CompoundColonLexeme => At(i + 2, Push(st, Operator, s[i..i + 2], mark, i))
    case SingleByteLexeme => At(i + 1, Push(st, Operator, [s[i]], mark, i))
    case NumberLexeme => AfterNumber(s, i, NumberStop(s, i, i + 1), st)
    case OperatorLexeme => AfterOperator(s, i, OperatorStop(s, i + 1), st)
    case WordLexeme => AfterWord(lexicon, s, i, KeywordStop(s, i + 1), st)
  }

  /** Tokens of s from i on. */
  ghost function LexFrom(lexicon: Lexicon, s: string, i: nat, mark: nat, st: LexState): LexResult
    requires mark <= i <= |s|
    decreases |s| - i
  {
    if i == |s| then if mark == |s| then Lexed(st) else Lexed(PushLast(s, st, mark, Identifier))
    else
      match NextAt(lexicon, s, i, mark, st)
      case Ends(r) => r
      case GoesOn(j, k, more) => LexFrom(lexicon, s, j, k, more)
  }

  datatype TokenizeResult = Tokenized(tokens: seq<Token>) | TokenizeError(msg: string, offset: nat)

  /** Tokenize: the tokens of s and the end-of-input sentinel. */
  ghost function TokensOf(lexicon: Lexicon, s: string): TokenizeResult {
    match LexFrom(lexicon, s, 0, 0, EMPTY)
    case LexError(msg, offset) => TokenizeError(msg, offset)
    case Lexed(st) => Tokenized(st.tokens + [PlainToken(EndOfInput, "", |s|)])
  }
}
