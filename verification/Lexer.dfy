/** The tokenizer as it runs: a nine-state byte machine whose index also moves backwards
    (lexer/lexer.go:356-684), proved against LexSpec. */
module Lexer {
  import opened Tokens
  import opened ByteClasses
  import opened LexRules
  import opened LexSpec

  datatype State =
    | Standard
    | SingleLineComment
    | MultiLineComment
    | QuotedIdentifier
    | StringLiteral
    | Word
    | Numeric
    | Op
    | DollarQuoted

  /** The loop's variables.  `begin` is the true start of the lexeme being read. */
  datatype Machine = Machine(
    state: State,
    i: nat,
    lastPos: nat,
    begin: nat,
    escape: bool,
    delimiter: char,
    tag: string,
    depth: nat)

  ghost predicate MachineOk(s: string, m: Machine) {
    && m.lastPos <= m.i <= |s|
    && match m.state
       case Standard => m.begin == m.i && !m.escape
       case SingleLineComment => m.lastPos <= m.begin && m.begin + 2 <= m.i
       case MultiLineComment => m.lastPos <= m.begin && m.begin + 2 <= m.i && m.depth > 0
       case Numeric => m.lastPos == m.begin < m.i && IsInitialNumber(s[m.begin])
       case Word => m.lastPos == m.begin < m.i && IsKeywordChar(s[m.begin])
       case _ => m.lastPos == m.begin < m.i
  }

  /** What the lexeme the machine is in, or stands before, comes to. */
  ghost function Ahead(lexicon: Lexicon, s: string, m: Machine, st: LexState): Next
    requires MachineOk(s, m)
  {
    match m.state
    case Standard => GoesOn(m.i, m.lastPos, st)
    case SingleLineComment => AfterLineComment(s, m.begin, m.lastPos, LineCommentEnd(s, m.i), st)
    case MultiLineComment => AfterBlockComment(s, m.begin, m.lastPos, BlockCommentEnd(s, m.i, m.depth), st)
    case QuotedIdentifier => AfterQuoted(s, m.begin, QuotedEnd(s, m.i, m.delimiter), st)
    case StringLiteral => AfterString(s, m.begin, StringEnd(s, m.i, m.escape), st)
    case Word => AfterWord(lexicon, s, m.begin, KeywordStop(s, m.i), st)
    case Numeric => AfterNumber(s, m.begin, NumberStop(s, m.begin, m.i), st)
    case Op => AfterOperator(s, m.begin, OperatorStop(s, m.i), st)
    case DollarQuoted => AfterDollarString(s, m.begin, DollarStringEnd(s, m.i, m.tag), st)
  }

  /** What is still to be emitted when the machine stands at m. */
  ghost function Rest(lexicon: Lexicon, s: string, m: Machine, st: LexState): LexResult
    requires MachineOk(s, m)
  {
    match Ahead(lexicon, s, m, st)
    case Ends(r) => r
    case GoesOn(i, mark, more) => LexFrom(lexicon, s, i, mark, more)
  }

  /** Entering a number, an operator, a word, a prefixed string or a dollar quote: what is ahead is
      what the lexeme leaves. */
  lemma NumberAhead(lexicon: Lexicon, s: string, m: Machine, st: LexState)
    requires MachineOk(s, m) && m.state.Standard? && m.i < |s| && LexemeAt(s, m.i) == NumberLexeme
      && IsInitialNumber(s[m.i])
    ensures
      var m' := m.(state := Numeric, i := m.i + 1, lastPos := m.i);
      MachineOk(s, m') && Ahead(lexicon, s, m', st) == NextAt(lexicon, s, m.i, m.lastPos, st)
  {
  }

  lemma OperatorAhead(lexicon: Lexicon, s: string, m: Machine, st: LexState)
    requires MachineOk(s, m) && m.state.Standard? && m.i < |s| && LexemeAt(s, m.i) == OperatorLexeme
    ensures
      var m' := m.(state := Op, i := m.i + 1, lastPos := m.i);
      MachineOk(s, m') && Ahead(lexicon, s, m', st) == NextAt(lexicon, s, m.i, m.lastPos, st)
  {
  }

  lemma WordAhead(lexicon: Lexicon, s: string, m: Machine, st: LexState)
    requires MachineOk(s, m) && m.state.Standard? && m.i < |s| && LexemeAt(s, m.i) == WordLexeme
      && IsKeywordChar(s[m.i])
    ensures
      var m' := m.(state := Word, i := m.i + 1, lastPos := m.i);
      MachineOk(s, m') && Ahead(lexicon, s, m', st) == NextAt(lexicon, s, m.i, m.lastPos, st)
  {
  }

  lemma PrefixedAhead(lexicon: Lexicon, s: string, m: Machine, st: LexState, escape: bool)
    requires MachineOk(s, m) && m.state.Standard? && m.i + 1 < |s| && LexemeAt(s, m.i) == StringLexeme(m.i + 2, escape)
    ensures
      var m' := m.(state := StringLiteral, i := m.i + 2, lastPos := m.i, escape := escape);
      MachineOk(s, m') && Ahead(lexicon, s, m', st) == NextAt(lexicon, s, m.i, m.lastPos, st)
  {
  }

  /** Which of the lexemes without a delimiter begins at i. */
  lemma WordLexemes(s: string, i: nat)
    requires i < |s| && (LexemeAt(s, i) in {NumberLexeme, OperatorLexeme, WordLexeme} || LexemeAt(s, i).StringLexeme?)
    requires s[i] != '\'' && !IsIdentifierDelimiter(s[i]) && !CompoundColon(s, i)
    requires !IsSingleByteOperator(s[i]) && s[i] != ';' && !IsSpace(s[i])
    ensures LexemeAt(s, i) ==
      if IsInitialNumber(s[i]) then NumberLexeme
      else if IsStringPrefix(s[i]) && i + 1 < |s| && s[i + 1] == '\'' then
        StringLexeme(i + 2, s[i] == 'E' || s[i] == 'e')
      else if IsOperatorAny(s[i]) then OperatorLexeme
      else WordLexeme
    ensures LexemeAt(s, i) == WordLexeme ==> IsKeywordChar(s[i])
  {
  }

  lemma MarkerAhead(lexicon: Lexicon, s: string, m: Machine, st: LexState, close: nat)
    requires MachineOk(s, m) && m.state.Standard? && m.i < |s| && LexemeAt(s, m.i) == DollarStringLexeme(close)
    ensures
      var m' := m.(state := DollarQuoted, i := close + 1, lastPos := m.i, tag := s[m.i + 1..close]);
      MachineOk(s, m') && Ahead(lexicon, s, m', st) == NextAt(lexicon, s, m.i, m.lastPos, st)
  {
  }

  lemma LineCommentAhead(lexicon: Lexicon, s: string, m: Machine, st: LexState)
    requires MachineOk(s, m) && m.state.Standard? && m.i < |s| && LexemeAt(s, m.i) == LineCommentLexeme
      && StartsLineComment(s, m.i)
    ensures
      var m' := m.(state := SingleLineComment, i := m.i + 2);
      MachineOk(s, m') && Ahead(lexicon, s, m', st) == NextAt(lexicon, s, m.i, m.lastPos, st)
  {
  }

  lemma BlockCommentAhead(lexicon: Lexicon, s: string, m: Machine, st: LexState)
    requires MachineOk(s, m) && m.state.Standard? && m.i < |s| && LexemeAt(s, m.i) == BlockCommentLexeme
      && StartsBlockComment(s, m.i)
    ensures
      var m' := m.(state := MultiLineComment, i := m.i + 2, depth := 1);
      MachineOk(s, m') && Ahead(lexicon, s, m', st) == NextAt(lexicon, s, m.i, m.lastPos, st)
  {
  }

  lemma SpaceNext(lexicon: Lexicon, s: string, i: nat, mark: nat, st: LexState, length: nat)
    requires mark <= i < |s| && LexemeAt(s, i) == SpaceLexeme(length)
    ensures NextAt(lexicon, s, i, mark, st) == At(i + length, st)
  {
  }

  lemma CompoundNext(lexicon: Lexicon, s: string, i: nat, mark: nat, st: LexState)
    requires mark <= i < |s| && LexemeAt(s, i) == CompoundColonLexeme && i + 1 < |s|
    ensures NextAt(lexicon, s, i, mark, st) == At(i + 2, Push(st, Operator, s[i..i + 2], mark, i))
  {
  }

  lemma SymbolNext(lexicon: Lexicon, s: string, i: nat, mark: nat, st: LexState)
    requires mark <= i < |s| && LexemeAt(s, i) == SingleByteLexeme
    ensures NextAt(lexicon, s, i, mark, st) == At(i + 1, Push(st, Operator, [s[i]], mark, i))
  {
  }

  /** Inside a lexeme: it goes on, or it ends here and its token is pushed. */
  lemma WordGoesOn(lexicon: Lexicon, s: string, m: Machine, st: LexState)
    requires MachineOk(s, m) && m.i < |s| && m.state.Word? && !KeywordStops(s, m.i)
    ensures MachineOk(s, m.(i := m.i + 1)) && Ahead(lexicon, s, m.(i := m.i + 1), st) == Ahead(lexicon, s, m, st)
  {
  }

  lemma WordEnds(lexicon: Lexicon, s: string, m: Machine, st: LexState)
    requires MachineOk(s, m) && m.i < |s| && m.state.Word? && KeywordStops(s, m.i)
    ensures Ahead(lexicon, s, m, st)
      == At(m.i, PushRange(s, st, m.lastPos, m.i, WordKind(lexicon, s[m.lastPos..m.i]), false))
  {
  }

  lemma NumberGoesOn(lexicon: Lexicon, s: string, m: Machine, st: LexState)
    requires MachineOk(s, m) && m.i < |s| && m.state.Numeric? && NumberContinues(s, m.lastPos, m.i)
    ensures MachineOk(s, m.(i := m.i + 1)) && Ahead(lexicon, s, m.(i := m.i + 1), st) == Ahead(lexicon, s, m, st)
  {
  }

  lemma NumberEnds(lexicon: Lexicon, s: string, m: Machine, st: LexState)
    requires MachineOk(s, m) && m.i < |s| && m.state.Numeric? && !NumberContinues(s, m.lastPos, m.i)
    ensures Ahead(lexicon, s, m, st)
      == At(NumberEnd(s, m.begin, m.i), PushRange(s, st, m.lastPos, NumberEnd(s, m.begin, m.i), Number, false))
  {
  }

  lemma StringGoesOn(lexicon: Lexicon, s: string, m: Machine, st: LexState)
    requires MachineOk(s, m) && m.i < |s| && m.state.StringLiteral? && s[m.i] != '\''
      && !(m.escape && s[m.i] == '\\' && m.i + 1 < |s|)
    ensures MachineOk(s, m.(i := m.i + 1)) && Ahead(lexicon, s, m.(i := m.i + 1), st) == Ahead(lexicon, s, m, st)
  {
  }

  lemma StringSkips(lexicon: Lexicon, s: string, m: Machine, st: LexState)
    requires MachineOk(s, m) && m.i < |s| && m.state.StringLiteral? && m.i + 1 < |s|
    requires (m.escape && s[m.i] == '\\') || (s[m.i] == '\'' && s[m.i + 1] == '\'')
    ensures MachineOk(s, m.(i := m.i + 2)) && Ahead(lexicon, s, m.(i := m.i + 2), st) == Ahead(lexicon, s, m, st)
  {
  }

  lemma StringEnds(lexicon: Lexicon, s: string, m: Machine, st: LexState)
    requires MachineOk(s, m) && m.i < |s| && m.state.StringLiteral? && s[m.i] == '\''
    requires m.i + 1 == |s| || s[m.i + 1] != '\''
    ensures Ahead(lexicon, s, m, st) == At(m.i + 1, PushRange(s, st, m.lastPos, m.i + 1, StringLit, false))
  {
  }

  lemma QuotedGoesOn(lexicon: Lexicon, s: string, m: Machine, st: LexState)
    requires MachineOk(s, m) && m.i < |s| && m.state.QuotedIdentifier? && s[m.i] != m.delimiter
    ensures MachineOk(s, m.(i := m.i + 1)) && Ahead(lexicon, s, m.(i := m.i + 1), st) == Ahead(lexicon, s, m, st)
  {
  }

  lemma QuotedSkips(lexicon: Lexicon, s: string, m: Machine, st: LexState)
    requires MachineOk(s, m) && m.i < |s| && m.state.QuotedIdentifier? && s[m.i] == m.delimiter
    requires m.i + 1 < |s| && s[m.i + 1] == m.delimiter
    ensures MachineOk(s, m.(i := m.i + 2)) && Ahead(lexicon, s, m.(i := m.i + 2), st) == Ahead(lexicon, s, m, st)
  {
  }

  lemma QuotedEnds(lexicon: Lexicon, s: string, m: Machine, st: LexState)
    requires MachineOk(s, m) && m.i < |s| && m.state.QuotedIdentifier? && s[m.i] == m.delimiter
    requires m.i + 1 == |s| || s[m.i + 1] != m.delimiter
    ensures Ahead(lexicon, s, m, st) == AfterQuoted(s, m.begin, Some(m.i + 1), st)
  {
  }

  lemma DollarGoesOn(lexicon: Lexicon, s: string, m: Machine, st: LexState)
    requires MachineOk(s, m) && m.i < |s| && m.state.DollarQuoted? && !ClosesDollar(s, m.i, m.tag)
    ensures MachineOk(s, m.(i := m.i + 1)) && Ahead(lexicon, s, m.(i := m.i + 1), st) == Ahead(lexicon, s, m, st)
  {
  }

  lemma DollarEnds(lexicon: Lexicon, s: string, m: Machine, st: LexState)
    requires MachineOk(s, m) && m.i < |s| && m.state.DollarQuoted? && ClosesDollar(s, m.i, m.tag)
    ensures Ahead(lexicon, s, m, st)
      == At(m.i + |m.tag| + 2, PushRange(s, st, m.lastPos, m.i + |m.tag| + 2, StringLit, false))
  {
  }

  class Tokenizer {
    const sql: string
    const lexicon: Lexicon
    var tokens: seq<Token>
    var hasBlockComment: bool
    var lastBlockCommentPos: nat
    /** The true source extent of each token. */
    ghost var extents: seq<(nat, nat)>

    constructor (lexicon: Lexicon, sql: string)
      ensures this.sql == sql && this.lexicon == lexicon && Emitted() == EMPTY
    {
      this.sql, this.lexicon := sql, lexicon;
      tokens, extents, hasBlockComment, lastBlockCommentPos := [], [], false, 0;
    }

    ghost function Emitted(): LexState
      reads this
    {
      LexState(tokens, extents, hasBlockComment, lastBlockCommentPos)
    }

    /** push (lexer.go:249-255). */
    method PushToken(kind: Kind, text: string, offset: nat, ghost at: nat)
      modifies this
      ensures Emitted() == Push(old(Emitted()), kind, text, offset, at)
    {
      tokens := tokens + [PlainToken(kind, text, offset)];
      extents := extents + [(at, at + |text|)];
    }

    /** pushRange (lexer.go:264-307) for the kinds that cannot fail here: everything but comments
        and two-byte identifiers made of delimiters. */
    method PushText(start: nat, end: nat, kind: Kind, unterminated: bool)
      requires start < end <= |sql|
      modifies this
      ensures Emitted() == PushRange(sql, old(Emitted()), start, end, kind, unterminated)
    {
      var token := Token(kind, sql[start..end], Span(start, end), unterminated, false, false);
      extents := extents + [(start, end)];
      if |tokens| > 0 {
        var prev := tokens[|tokens| - 1];
        var prevEnd := prev.span.start + |prev.text|;
        if hasBlockComment && lastBlockCommentPos >= prevEnd && lastBlockCommentPos < start {
          token := token.(precededByBlockComment := true);
        }
        var pos: int := if prevEnd < 0 then 0 else prevEnd;
        while pos < start
          invariant prevEnd <= pos && 0 <= pos
          invariant forall k :: 0 <= k && prevEnd <= k < pos && k < start ==> sql[k] != '\n' && sql[k] != '\r'
          invariant !token.precededByNewline
        {
          if sql[pos] == '\n' || sql[pos] == '\r' {
            token := token.(precededByNewline := true);
            break;
          }
          pos := pos + 1;
        }
        assert token.precededByNewline == NewlineBetween(sql, prevEnd, start);
      }
      tokens := tokens + [token];
    }

    /** pushRange on a comment: an unterminated one is an error, a block comment is remembered. */
    method EndComment(start: nat, end: nat)
      requires start <= end <= |sql|
      modifies this
      ensures Emitted() == SkipComment(sql, old(Emitted()), start, end)
    {
      if end >= start + 2 && sql[start] == '/' && sql[start + 1] == '*' {
        hasBlockComment := true;
        lastBlockCommentPos := start;
      }
    }

    /** pushOperator (lexer.go:313-338). */
    method PushOperatorText(start: nat, end: nat)
      requires start < end <= |sql|
      modifies this
      ensures Emitted() == PushOperator(sql, old(Emitted()), start, end)
    {
      var endPos := end;
      var hasSpecial := false;
      for pos := start to endPos
        invariant !hasSpecial && forall k :: start <= k < pos ==> !IsSpecialOperatorChar(sql[k])
      {
        if IsSpecialOperatorChar(sql[pos]) {
          hasSpecial := true;
          break;
        }
      }
      assert hasSpecial == HasSpecial(sql, start, end);
      if !hasSpecial {
        while endPos > start + 1 && (sql[endPos - 1] == '+' || sql[endPos - 1] == '-')
          invariant start < endPos <= end
          invariant TrimSigns(sql, start, endPos) == TrimSigns(sql, start, end)
        {
          endPos := endPos - 1;
        }
      }
      PushText(start, endPos, Operator, false);
      ghost var whole := PushSigns(sql, Emitted(), endPos, end);
      for pos := endPos to end
        invariant whole == PushSigns(sql, Emitted(), pos, end)
      {
        PushToken(Operator, [sql[pos]], pos, pos);
      }
    }

    /** One pass of the loop body, the index increment included, in every state but the standard
        one.  Either the machine moves on or a lexeme ends and the index goes back to its end. */
    method StepInside(m: Machine) returns (m': Machine, err: Option<LexResult>)
      requires MachineOk(sql, m) && m.i < |sql| && !m.state.Standard?
      modifies this
      ensures err.None? ==>
        MachineOk(sql, m') && Ahead(lexicon, sql, m', Emitted()) == Ahead(lexicon, sql, m, old(Emitted()))
      ensures err.None? ==>
        if m'.state.Standard? then m.begin < m'.i else m'.begin == m.begin && m.i < m'.i
      ensures err.Some? ==> err.value.LexError? && Ahead(lexicon, sql, m, old(Emitted())) == Ends(err.value)
    {
      err := None;
      match m.state
      case Numeric => m' := StepNumeric(m);
      case Op => m' := StepOperator(m);
      case Word => m' := StepWord(m);
      case StringLiteral => m' := StepString(m);
      case QuotedIdentifier => m', err := StepQuoted(m);
      case SingleLineComment => m' := StepLineComment(m);
      case MultiLineComment => m' := StepBlockComment(m);
      case DollarQuoted => m' := StepDollar(m);
    }

    /** stateOperator (lexer.go:523-534). */
    method StepOperator(m: Machine) returns (m': Machine)
      requires MachineOk(sql, m) && m.i < |sql| && m.state.Op?
      modifies this
      ensures MachineOk(sql, m') && Ahead(lexicon, sql, m', Emitted()) == Ahead(lexicon, sql, m, old(Emitted()))
      ensures if m'.state.Standard? then m.begin < m'.i else m'.begin == m.begin && m.i < m'.i
    {
      if OperatorStops(sql, m.i) {
        PushOperatorText(m.lastPos, m.i);
        m' := m.(state := Standard, lastPos := m.i, begin := m.i, escape := false);
      } else {
        m' := m.(i := m.i + 1);
      }
    }

    /** stateKeyword (lexer.go:536-550). */
    method StepWord(m: Machine) returns (m': Machine)
      requires MachineOk(sql, m) && m.i < |sql| && m.state.Word?
      modifies this
      ensures MachineOk(sql, m') && Ahead(lexicon, sql, m', Emitted()) == Ahead(lexicon, sql, m, old(Emitted()))
      ensures if m'.state.Standard? then m.begin < m'.i else m'.begin == m.begin && m.i < m'.i
    {
      if KeywordStops(sql, m.i) {
        WordEnds(lexicon, sql, m, Emitted());
        PushText(m.lastPos, m.i, WordKind(lexicon, sql[m.lastPos..m.i]), false);
        m' := m.(state := Standard, lastPos := m.i, begin := m.i, escape := false);
      } else {
        WordGoesOn(lexicon, sql, m, Emitted());
        m' := m.(i := m.i + 1);
      }
    }

    /** stateSingleLineComment (lexer.go:585-592). */
    method StepLineComment(m: Machine) returns (m': Machine)
      requires MachineOk(sql, m) && m.i < |sql| && m.state.SingleLineComment?
      modifies this
      ensures MachineOk(sql, m') && Ahead(lexicon, sql, m', Emitted()) == Ahead(lexicon, sql, m, old(Emitted()))
      ensures if m'.state.Standard? then m.begin < m'.i else m'.begin == m.begin && m.i < m'.i
    {
      if sql[m.i] == '\n' || sql[m.i] == '\r' {
        EndComment(m.lastPos, m.i + 1);
        m' := m.(state := Standard, i := m.i + 1, lastPos := m.i + 1, begin := m.i + 1, escape := false);
      } else {
        m' := m.(i := m.i + 1);
      }
    }

    /** stateNumeric (lexer.go:492-521): the number goes on, or the index backs up over the bytes
        that turned out not to belong to it. */
    method StepNumeric(m: Machine) returns (m': Machine)
      requires MachineOk(sql, m) && m.i < |sql| && m.state.Numeric?
      modifies this
      ensures MachineOk(sql, m') && Ahead(lexicon, sql, m', Emitted()) == Ahead(lexicon, sql, m, old(Emitted()))
      ensures if m'.state.Standard? then m.begin < m'.i else m'.begin == m.begin && m.i < m'.i
    {
      if NumberContinues(sql, m.lastPos, m.i) {
        NumberGoesOn(lexicon, sql, m, Emitted());
        return m.(i := m.i + 1);
      }
      NumberEnds(lexicon, sql, m, Emitted());
      var i := LastInitial(m.begin, m.i);
      PushText(m.lastPos, i, Number, false);
      return m.(state := Standard, i := i, lastPos := i, begin := i, escape := false);
    }

    /** Back over what cannot end a number (lexer.go:512-515). */
    method LastInitial(begin: nat, from: nat) returns (i: nat)
      requires begin < from <= |sql| && IsInitialNumber(sql[begin])
      ensures i == NumberEnd(sql, begin, from) && begin < i <= from
    {
      i := from;
      while !IsInitialNumber(sql[i - 1])
        invariant begin < i <= from
        invariant NumberEnd(sql, begin, i) == NumberEnd(sql, begin, from)
        decreases i
      {
        i := i - 1;
      }
    }

    /** stateStringLiteral (lexer.go:552-569). */
    method StepString(m: Machine) returns (m': Machine)
      requires MachineOk(sql, m) && m.i < |sql| && m.state.StringLiteral?
      modifies this
      ensures MachineOk(sql, m') && Ahead(lexicon, sql, m', Emitted()) == Ahead(lexicon, sql, m, old(Emitted()))
      ensures if m'.state.Standard? then m.begin < m'.i else m'.begin == m.begin && m.i < m'.i
    {
      var i, n := m.i, |sql|;
      if m.escape && sql[i] == '\\' && i + 1 < n {
        StringSkips(lexicon, sql, m, Emitted());
        return m.(i := i + 2);
      }
      if sql[i] == '\'' {
        if i + 1 < n && sql[i + 1] == '\'' {
          StringSkips(lexicon, sql, m, Emitted());
          return m.(i := i + 2);
        }
        StringEnds(lexicon, sql, m, Emitted());
        PushText(m.lastPos, i + 1, StringLit, false);
        return m.(state := Standard, i := i + 1, lastPos := i + 1, begin := i + 1, escape := false);
      }
      StringGoesOn(lexicon, sql, m, Emitted());
      return m.(i := i + 1);
    }

    /** stateQuotedIdentifier (lexer.go:571-583), with the zero-length check of pushRange. */
    method StepQuoted(m: Machine) returns (m': Machine, err: Option<LexResult>)
      requires MachineOk(sql, m) && m.i < |sql| && m.state.QuotedIdentifier?
      modifies this
      ensures err.None? ==>
        MachineOk(sql, m') && Ahead(lexicon, sql, m', Emitted()) == Ahead(lexicon, sql, m, old(Emitted()))
      ensures err.None? ==>
        if m'.state.Standard? then m.begin < m'.i else m'.begin == m.begin && m.i < m'.i
      ensures err.Some? ==> err.value.LexError? && Ahead(lexicon, sql, m, old(Emitted())) == Ends(err.value)
    {
      var i, n := m.i, |sql|;
      if sql[i] == m.delimiter {
        if i + 1 < n && sql[i + 1] == m.delimiter {
          QuotedSkips(lexicon, sql, m, Emitted());
          return m.(i := i + 2), None;
        }
        QuotedEnds(lexicon, sql, m, Emitted());
        m', err := EndQuoted(m);
        return;
      }
      QuotedGoesOn(lexicon, sql, m, Emitted());
      return m.(i := i + 1), None;
    }

    /** The closing delimiter: an empty identifier is refused. */
    method EndQuoted(m: Machine) returns (m': Machine, err: Option<LexResult>)
      requires MachineOk(sql, m) && m.i < |sql| && m.state.QuotedIdentifier?
      modifies this
      ensures err.None? ==> MachineOk(sql, m') && m'.state.Standard? && m'.i == m.i + 1
      ensures AfterQuoted(sql, m.begin, Some(m.i + 1), old(Emitted())) ==
        if err.Some? then Ends(err.value) else Ahead(lexicon, sql, m', Emitted())
      ensures err.Some? ==> err.value.LexError?
    {
      var i := m.i;
      if i + 1 == m.lastPos + 2 && (sql[m.lastPos..i + 1] == "\"\"" || sql[m.lastPos..i + 1] == "``") {
        return m, Some(LexError("zero-length delimited identifier", m.lastPos));
      }
      PushText(m.lastPos, i + 1, Identifier, false);
      return m.(state := Standard, i := i + 1, lastPos := i + 1, begin := i + 1, escape := false), None;
    }

    /** stateMultiLineComment (lexer.go:594-608). */
    method StepBlockComment(m: Machine) returns (m': Machine)
      requires MachineOk(sql, m) && m.i < |sql| && m.state.MultiLineComment?
      modifies this
      ensures MachineOk(sql, m') && Ahead(lexicon, sql, m', Emitted()) == Ahead(lexicon, sql, m, old(Emitted()))
      ensures if m'.state.Standard? then m.begin < m'.i else m'.begin == m.begin && m.i < m'.i
    {
      var i, n := m.i, |sql|;
      if sql[i] == '/' && i + 1 < n && sql[i + 1] == '*' {
        return m.(i := i + 2, depth := m.depth + 1);
      } else if sql[i] == '*' && i + 1 < n && sql[i + 1] == '/' {
        if m.depth == 1 {
          EndComment(m.lastPos, i + 2);
          return m.(state := Standard, i := i + 2, lastPos := i + 2, begin := i + 2, escape := false);
        }
        return m.(i := i + 2, depth := m.depth - 1);
      }
      return m.(i := i + 1);
    }

    /** stateDollarQuotedString (lexer.go:610-645): only $tag$ gets out. */
    method StepDollar(m: Machine) returns (m': Machine)
      requires MachineOk(sql, m) && m.i < |sql| && m.state.DollarQuoted?
      modifies this
      ensures MachineOk(sql, m') && Ahead(lexicon, sql, m', Emitted()) == Ahead(lexicon, sql, m, old(Emitted()))
      ensures if m'.state.Standard? then m.begin < m'.i else m'.begin == m.begin && m.i < m'.i
    {
      var closes := ClosingMarkerAt(m.i, m.tag);
      if closes {
        DollarEnds(lexicon, sql, m, Emitted());
        var end := m.i + |m.tag| + 2;
        PushText(m.lastPos, end, StringLit, false);
        return m.(state := Standard, i := end, lastPos := end, begin := end, escape := false);
      }
      DollarGoesOn(lexicon, sql, m, Emitted());
      return m.(i := m.i + 1);
    }

    /** The tests of stateDollarQuotedString (lexer.go:612-636). */
    method ClosingMarkerAt(i: nat, tag: string) returns (closes: bool)
      requires i < |sql|
      ensures closes == ClosesDollar(sql, i, tag)
    {
      if sql[i] != '$' {
        return false;
      }
      if i + 1 >= |sql| {
        return false;
      }
      var end := FindDollar(i + 1);
      return end < |sql| && end - (i + 1) == |tag| && sql[i + 1..end] == tag;
    }

    /** The scan to the next dollar (lexer.go:620-624). */
    method FindDollar(start: nat) returns (end: nat)
      requires start <= |sql|
      ensures end == NextDollar(sql, start)
    {
      end := start;
      while end < |sql| && sql[end] != '$'
        invariant start <= end <= |sql|
        invariant NextDollar(sql, end) == NextDollar(sql, start)
      {
        end := end + 1;
      }
    }

    /** stateStandard (lexer.go:370-490): decide what starts at the byte under the index. */
    method StepStandard(m: Machine) returns (m': Machine)
      requires MachineOk(sql, m) && m.i < |sql| && m.state.Standard?
      modifies this
      ensures MachineOk(sql, m')
        && Ahead(lexicon, sql, m', Emitted()) == NextAt(lexicon, sql, m.i, m.lastPos, old(Emitted()))
      ensures if m'.state.Standard? then m.i < m'.i else m'.begin == m.i
    {
      var i, n := m.i, |sql|;
      var c := sql[i];
      if c == '\'' {
        return m.(state := StringLiteral, i := i + 1, lastPos := i);
      }
      if IsIdentifierDelimiter(c) {
        return m.(state := QuotedIdentifier, i := i + 1, lastPos := i, delimiter := c);
      }
      if c == ';' {
        PushToken(Terminator, ";", i, i);
        return m.(i := i + 1, lastPos := i + 1, begin := i + 1);
      }
      if c == '$' {
        m' := StepStandardDollar(m);
        return;
      }
      m' := StepStandardOther(m);
    }

    /** Comments and whitespace in the standard state (lexer.go:427-446). */
    method StepStandardOther(m: Machine) returns (m': Machine)
      requires MachineOk(sql, m) && m.i < |sql| && m.state.Standard?
      requires sql[m.i] != '\'' && !IsIdentifierDelimiter(sql[m.i]) && sql[m.i] != ';' && sql[m.i] != '$'
      modifies this
      ensures MachineOk(sql, m')
        && Ahead(lexicon, sql, m', Emitted()) == NextAt(lexicon, sql, m.i, m.lastPos, old(Emitted()))
      ensures if m'.state.Standard? then m.i < m'.i else m'.begin == m.i
    {
      var i, n := m.i, |sql|;
      var c := sql[i];
      if c == '-' && i + 1 < n && sql[i + 1] == '-' {
        LineCommentAhead(lexicon, sql, m, Emitted());
        return m.(state := SingleLineComment, i := i + 2);
      }
      if c == '/' && i + 1 < n && sql[i + 1] == '*' {
        BlockCommentAhead(lexicon, sql, m, Emitted());
        return m.(state := MultiLineComment, i := i + 2, depth := 1);
      }
      if IsSpace(c) {
        SpaceNext(lexicon, sql, i, m.lastPos, Emitted(), 1);
        return m.(i := i + 1, lastPos := i + 1, begin := i + 1);
      }
      var ul := UnicodeSpaceLen(sql, i);
      if ul > 0 {
        SpaceNext(lexicon, sql, i, m.lastPos, Emitted(), ul);
        return m.(i := i + ul, lastPos := i + ul, begin := i + ul);
      }
      m' := StepStandardSymbol(m);
    }

    /** The second half of stateStandard (lexer.go:447-490): operators, numbers, prefixed strings
        and words. */
    method StepStandardSymbol(m: Machine) returns (m': Machine)
      requires MachineOk(sql, m) && m.i < |sql| && m.state.Standard?
      requires sql[m.i] != '\'' && !IsIdentifierDelimiter(sql[m.i]) && sql[m.i] != ';' && sql[m.i] != '$'
      requires !IsSpace(sql[m.i]) && UnicodeSpaceLen(sql, m.i) == 0
      requires !StartsLineComment(sql, m.i) && !StartsBlockComment(sql, m.i)
      modifies this
      ensures MachineOk(sql, m')
        && Ahead(lexicon, sql, m', Emitted()) == NextAt(lexicon, sql, m.i, m.lastPos, old(Emitted()))
      ensures if m'.state.Standard? then m.i < m'.i else m'.begin == m.i
    {
      var i, n := m.i, |sql|;
      var c := sql[i];
      if CompoundColon(sql, i) {
        if i + 2 < n && IsOperatorCont(sql[i + 2]) {
          OperatorAhead(lexicon, sql, m, Emitted());
          return m.(state := Op, i := i + 1, lastPos := i);
        }
        CompoundNext(lexicon, sql, i, m.lastPos, Emitted());
        PushToken(Operator, sql[i..i + 2], m.lastPos, i);
        return m.(i := i + 2, lastPos := i + 2, begin := i + 2);
      }
      if IsSingleByteOperator(c) {
        SymbolNext(lexicon, sql, i, m.lastPos, Emitted());
        PushToken(Operator, [c], m.lastPos, i);
        return m.(i := i + 1, lastPos := i + 1, begin := i + 1);
      }
      m' := StepStandardWord(m);
    }

    /** The rest of stateStandard (lexer.go:467-490): numbers, prefixed strings, operators, words. */
    method StepStandardWord(m: Machine) returns (m': Machine)
      requires MachineOk(sql, m) && m.i < |sql| && m.state.Standard?
      requires LexemeAt(sql, m.i) in {NumberLexeme, OperatorLexeme, WordLexeme} || LexemeAt(sql, m.i).StringLexeme?
      requires sql[m.i] != '\'' && !IsIdentifierDelimiter(sql[m.i]) && !CompoundColon(sql, m.i)
      requires !IsSingleByteOperator(sql[m.i]) && sql[m.i] != ';' && !IsSpace(sql[m.i])
      modifies this
      ensures MachineOk(sql, m')
        && Ahead(lexicon, sql, m', Emitted()) == NextAt(lexicon, sql, m.i, m.lastPos, old(Emitted()))
      ensures m'.begin == m.i && !m'.state.Standard?
    {
      var i, n := m.i, |sql|;
      var c := sql[i];
      WordLexemes(sql, i);
      if IsInitialNumber(c) {
        NumberAhead(lexicon, sql, m, Emitted());
        return m.(state := Numeric, i := i + 1, lastPos := i);
      }
      if IsStringPrefix(c) {
        if i + 1 < n && sql[i + 1] == '\'' {
          PrefixedAhead(lexicon, sql, m, Emitted(), c == 'E' || c == 'e');
          return m.(state := StringLiteral, i := i + 2, lastPos := i, escape := c == 'E' || c == 'e');
        }
      }
      if IsOperatorAny(c) {
        OperatorAhead(lexicon, sql, m, Emitted());
        return m.(state := Op, i := i + 1, lastPos := i);
      }
      WordAhead(lexicon, sql, m, Emitted());
      return m.(state := Word, i := i + 1, lastPos := i);
    }

    /** A '$': a dollar-quoted string, a parameter, or a dollar at the very end. */
    method StepStandardDollar(m: Machine) returns (m': Machine)
      requires MachineOk(sql, m) && m.i < |sql| && m.state.Standard? && sql[m.i] == '$'
      modifies this
      ensures MachineOk(sql, m')
        && Ahead(lexicon, sql, m', Emitted()) == NextAt(lexicon, sql, m.i, m.lastPos, old(Emitted()))
      ensures if m'.state.Standard? then m.i < m'.i else m'.begin == m.i
    {
      var i, n := m.i, |sql|;
      if i + 1 >= n {
        return m.(i := i + 1, begin := i + 1);
      }
      if '0' <= sql[i + 1] <= '9' {
        PushToken(Operator, "$", i, i);
        return m.(i := i + 1, begin := i + 1);
      }
      m' := StepMarker(m);
    }

    /** A '$' before no digit: a dollar quote's opening marker, or a parameter's name. */
    method StepMarker(m: Machine) returns (m': Machine)
      requires MachineOk(sql, m) && m.state.Standard? && m.i + 1 < |sql| && sql[m.i] == '$'
      requires !('0' <= sql[m.i + 1] <= '9')
      modifies this
      ensures MachineOk(sql, m')
        && Ahead(lexicon, sql, m', Emitted()) == NextAt(lexicon, sql, m.i, m.lastPos, old(Emitted()))
      ensures if m'.state.Standard? then m.i < m'.i else m'.begin == m.i
    {
      var i := m.i;
      var nextDollar := FindMarker(i);
      if nextDollar == 0 {
        PushToken(Operator, "$", i, i);
        return m.(i := i + 1, lastPos := i, begin := i + 1);
      }
      MarkerAhead(lexicon, sql, m, Emitted(), nextDollar);
      return m.(state := DollarQuoted, i := nextDollar + 1, lastPos := i, tag := sql[i + 1..nextDollar]);
    }

    /** The '$' that ends a dollar quote's opening marker, or 0 (lexer.go:403-413). */
    method FindMarker(i: nat) returns (nextDollar: nat)
      requires i < |sql|
      ensures
        match MarkerEnd(sql, i + 1)
        case None => nextDollar == 0
        case Some(close) => nextDollar == close
    {
      nextDollar := 0;
      var idx := i + 1;
      while idx < |sql|
        invariant i + 1 <= idx <= |sql| && nextDollar == 0
        invariant MarkerEnd(sql, idx) == MarkerEnd(sql, i + 1)
      {
        if sql[idx] == '$' {
          nextDollar := idx;
          break;
        }
        if !IsDollarTagChar(sql[idx]) {
          break;
        }
        idx := idx + 1;
      }
    }

    /** run (lexer.go:356-684). */
    method Run() returns (err: Option<LexResult>)
      requires Emitted() == EMPTY
      modifies this
      ensures err.None? ==> LexFrom(lexicon, sql, 0, 0, EMPTY) == Lexed(Emitted())
      ensures err.Some? ==> err.value.LexError? && LexFrom(lexicon, sql, 0, 0, EMPTY) == err.value
    {
      ghost var all := LexFrom(lexicon, sql, 0, 0, EMPTY);
      var n := |sql|;
      var m := Machine(Standard, 0, 0, 0, false, '"', "", 0);
      while m.i < n
        invariant MachineOk(sql, m)
        invariant Rest(lexicon, sql, m, Emitted()) == all
        decreases n - m.begin, if m.state.Standard? then 1 else 0, n - m.i
      {
        if m.state.Standard? {
          m := StepStandard(m);
        } else {
          var next, failure := StepInside(m);
          if failure.Some? {
            return failure;
          }
          m := next;
        }
      }
      match m.state
      case SingleLineComment =>
        EndComment(m.lastPos, n);
        assert LexFrom(lexicon, sql, n, n, Emitted()) == Lexed(Emitted());
        return None;
      case MultiLineComment =>
        return Some(LexError("unterminated /* comment at or near \"" + sql[m.lastPos..n] + "\"", m.lastPos));
      case Op =>
        PushOperatorText(m.lastPos, n);
        assert LexFrom(lexicon, sql, n, n, Emitted()) == Lexed(Emitted());
        return None;
      case DollarQuoted => PushText(m.lastPos, n, StringLit, true); return None;
      case StringLiteral => return Some(LexError("unterminated string literal", m.lastPos));
      case QuotedIdentifier => return Some(LexError("unterminated quoted identifier", m.lastPos));
      case _ =>
        var lastWord := sql[m.lastPos..];
        if |lastWord| == 0 {
          return None;
        }
        var kind :=
          if m.state.Numeric? then Number
          else if m.state.Word? then WordKind(lexicon, lastWord)
          else Identifier;
        tokens := tokens + [Token(kind, lastWord, Span(m.lastPos, n), false, false, false)];
        extents := extents + [(m.lastPos, n)];
        return None;
    }
  }

  /** Tokenize (lexer.go:347-354). */
  method Tokenize(lexicon: Lexicon, sql: string) returns (r: TokenizeResult)
    ensures r == TokensOf(lexicon, sql)
  {
    var l := new Tokenizer(lexicon, sql);
    var err := l.Run();
    if err.Some? {
      return TokenizeError(err.value.msg, err.value.offset);
    }
    l.PushToken(EndOfInput, "", |sql|, |sql|);
    return Tokenized(l.tokens);
  }
}
