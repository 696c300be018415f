/** What tokenizing promises about any source: nothing is lost, nothing overlaps, and where a
    recorded span departs from the token's true place. */
module LexFacts {
  import opened Tokens
  import opened ByteClasses
  import opened LexRules
  import opened LexSpec

  /** s[a..b] is nothing but whitespace and whole comments. */
  ghost predicate Trivia(s: string, a: nat, b: nat)
    requires a <= b <= |s|
    decreases b - a
  {
    a == b
    || (IsSpace(s[a]) && Trivia(s, a + 1, b))
    || (UnicodeSpaceLen(s, a) > 0 && a + UnicodeSpaceLen(s, a) <= b && Trivia(s, a + UnicodeSpaceLen(s, a), b))
    || (StartsLineComment(s, a) && LineCommentEnd(s, a + 2) <= b && Trivia(s, LineCommentEnd(s, a + 2), b))
    || (StartsBlockComment(s, a)
        && var end := BlockCommentEnd(s, a + 2, 1); end.Some? && end.value <= b && Trivia(s, end.value, b))
  }

  lemma {:induction false} TriviaJoins(s: string, a: nat, b: nat, c: nat)
    requires a <= b <= c <= |s| && Trivia(s, a, b) && Trivia(s, b, c)
    ensures Trivia(s, a, c)
    decreases b - a
  {
    if a < b {
      if IsSpace(s[a]) && Trivia(s, a + 1, b) {
        TriviaJoins(s, a + 1, b, c);
      } else if UnicodeSpaceLen(s, a) > 0 && a + UnicodeSpaceLen(s, a) <= b && Trivia(s, a + UnicodeSpaceLen(s, a), b) {
        TriviaJoins(s, a + UnicodeSpaceLen(s, a), b, c);
      } else if StartsLineComment(s, a) && LineCommentEnd(s, a + 2) <= b && Trivia(s, LineCommentEnd(s, a + 2), b) {
        TriviaJoins(s, LineCommentEnd(s, a + 2), b, c);
      } else {
        TriviaJoins(s, BlockCommentEnd(s, a + 2, 1).value, b, c);
      }
    }
  }

  function LastEnd(st: LexState): nat {
    if st.extents == [] then 0 else st.extents[|st.extents| - 1].1
  }

  /** Token k comes right after a parameter's '$' and is pushed without a state of its own. */
  ghost predicate Shifted(s: string, st: LexState, k: nat)
    requires k < |st.tokens| == |st.extents|
  {
    k > 0 && st.tokens[k - 1].text == "$" && st.tokens[k - 1].kind == Operator
    && st.extents[k - 1].1 == st.extents[k].0 < |s|
    && LexemeAt(s, st.extents[k].0) in {CompoundColonLexeme, SingleByteLexeme}
  }

  /** Token k is the source slice at its extent, follows the token before it with nothing but
      trivia in between, and its span is that extent, one too small when it is shifted. */
  ghost predicate TokenFaithful(s: string, st: LexState, k: nat)
    requires k < |st.tokens| == |st.extents|
  {
    var (a, b) := st.extents[k];
    var before := if k == 0 then 0 else st.extents[k - 1].1;
    var shift := if Shifted(s, st, k) then 1 else 0;
    && before <= a < b <= |s|
    && Trivia(s, before, a)
    && st.tokens[k].text == s[a..b]
    && st.tokens[k].span == Span(a - shift, b - shift)
    && st.tokens[k].kind != EndOfInput && st.tokens[k].kind != Comment
  }

  ghost predicate Faithful(s: string, st: LexState, i: nat)
    requires i <= |s|
  {
    |st.tokens| == |st.extents|
    && (forall k :: 0 <= k < |st.tokens| ==> TokenFaithful(s, st, k))
    && LastEnd(st) <= i && Trivia(s, LastEnd(st), i)
  }

  predicate EndsInDollar(st: LexState) {
    st.tokens != [] && st.tokens[|st.tokens| - 1].text == "$" && st.tokens[|st.tokens| - 1].kind == Operator
  }

  /** The offset the machine would give a directly pushed operator at i. */
  ghost predicate MarkOk(s: string, st: LexState, i: nat, mark: nat)
    requires i <= |s|
  {
    if mark == i then EndsInDollar(st) ==> LastEnd(st) < i
    else mark + 1 == i < |s| && s[i] != '$' && EndsInDollar(st) && LastEnd(st) == i
  }

  /** A state one token longer than st: the same tokens, then one at [a, b). */
  ghost predicate OneMore(s: string, st: LexState, more: LexState, a: nat, b: nat, offset: int)
    requires a < b <= |s|
  {
    |st.tokens| == |st.extents| && |more.tokens| == |st.tokens| + 1
    && more.tokens[..|st.tokens|] == st.tokens && more.extents == st.extents + [(a, b)]
    && var t := more.tokens[|st.tokens|];
    && t.text == s[a..b] && t.span == Span(offset, offset + b - a)
    && t.kind != EndOfInput && t.kind != Comment
  }

  lemma AddToken(s: string, st: LexState, more: LexState, a: nat, b: nat, offset: int)
    requires a < b <= |s| && Faithful(s, st, a) && OneMore(s, st, more, a, b, offset)
    requires offset == if Shifted(s, more, |st.tokens|) then a - 1 else a
    ensures Faithful(s, more, b)
  {
    forall k | 0 <= k < |more.tokens| ensures TokenFaithful(s, more, k) {
      if k < |st.tokens| {
        assert TokenFaithful(s, st, k);
        assert more.tokens[k] == st.tokens[k];
        assert k > 0 ==> more.tokens[k - 1] == st.tokens[k - 1];
        assert Shifted(s, more, k) == Shifted(s, st, k);
      } else {
        assert more.extents[k] == (a, b);
      }
    }
  }

  lemma AddTrivia(s: string, st: LexState, i: nat, j: nat)
    requires i <= j <= |s| && Faithful(s, st, i) && Trivia(s, i, j)
    ensures Faithful(s, st, j)
  {
    TriviaJoins(s, LastEnd(st), i, j);
  }

  /** Tokens with a lexeme state of their own keep their true offset. */
  lemma AddRange(s: string, st: LexState, start: nat, end: nat, kind: Kind, unterminated: bool)
    requires start < end <= |s| && Faithful(s, st, start) && kind != EndOfInput && kind != Comment
    requires LexemeAt(s, start) !in {CompoundColonLexeme, SingleByteLexeme}
    ensures Faithful(s, PushRange(s, st, start, end, kind, unterminated), end)
  {
    AddToken(s, st, PushRange(s, st, start, end, kind, unterminated), start, end, start);
  }

  lemma {:induction false} AddSigns(s: string, st: LexState, from: nat, end: nat)
    requires from <= end <= |s| && Faithful(s, st, from)
    requires forall k :: from <= k < end ==> s[k] == '+' || s[k] == '-'
    ensures Faithful(s, PushSigns(s, st, from, end), end)
    ensures !EndsInDollar(st) ==> !EndsInDollar(PushSigns(s, st, from, end))
    decreases end - from
  {
    if from < end {
      var more := Push(st, Operator, [s[from]], from, from);
      AddToken(s, st, more, from, from + 1, from);
      AddSigns(s, more, from + 1, end);
    }
  }

  lemma {:induction false} AddOperator(s: string, st: LexState, start: nat, end: nat)
    requires start < end <= |s| && Faithful(s, st, start) && LexemeAt(s, start).OperatorLexeme?
    ensures Faithful(s, PushOperator(s, st, start, end), end)
    ensures !EndsInDollar(PushOperator(s, st, start, end))
  {
    var cut := OperatorEnd(s, start, end);
    AddRange(s, st, start, cut, Operator, false);
    AddSigns(s, PushRange(s, st, start, cut, Operator, false), cut, end);
  }

  ghost predicate Ready(s: string, st: LexState, i: nat, mark: nat)
    requires i <= |s|
  {
    Faithful(s, st, i) && MarkOk(s, st, i, mark)
  }

  /** What a lexeme leaves is faithful too; a '$' that ends the source becomes a token at the end. */
  ghost predicate Keeps(s: string, n: Next) {
    match n
    case Ends(r) => r.Lexed? ==> Faithful(s, r.st, |s|)
    case GoesOn(i, mark, st) =>
      mark <= i <= |s|
      && if i == |s| && mark < i then Faithful(s, PushLast(s, st, mark, Identifier), |s|) else Ready(s, st, i, mark)
  }

  lemma AddRangeLast(s: string, st: LexState, start: nat, kind: Kind)
    requires start < |s| && Faithful(s, st, start) && kind != EndOfInput && kind != Comment
    requires LexemeAt(s, start) !in {CompoundColonLexeme, SingleByteLexeme}
    ensures Faithful(s, PushLast(s, st, start, kind), |s|)
  {
    assert s[start..] == s[start..|s|];
    AddToken(s, st, PushLast(s, st, start, kind), start, |s|, start);
  }

  lemma TokenKeeps(s: string, i: nat, end: nat, kind: Kind, st: LexState)
    requires i < end <= |s| && Faithful(s, st, i)
    requires kind != EndOfInput && kind != Comment && kind != Operator
    requires LexemeAt(s, i) !in {CompoundColonLexeme, SingleByteLexeme}
    ensures Keeps(s, At(end, PushRange(s, st, i, end, kind, false)))
  {
    AddRange(s, st, i, end, kind, false);
  }

  lemma GapKeeps(s: string, i: nat, end: nat, st: LexState)
    requires i < end <= |s| && Faithful(s, st, i) && Trivia(s, i, end)
    ensures Keeps(s, At(end, st))
  {
    AddTrivia(s, st, i, end);
  }

  lemma CommentKeeps(s: string, i: nat, mark: nat, end: nat, st: LexState)
    requires mark <= i < end <= |s| && Faithful(s, st, i) && Trivia(s, i, end)
    ensures Keeps(s, At(end, SkipComment(s, st, mark, end)))
  {
    var more := SkipComment(s, st, mark, end);
    forall k | 0 <= k < |st.tokens|
      ensures TokenFaithful(s, more, k)
    {
      assert TokenFaithful(s, st, k);
      assert Shifted(s, more, k) == Shifted(s, st, k);
    }
    GapKeeps(s, i, end, more);
  }

  lemma LineCommentKeeps(s: string, i: nat, mark: nat, st: LexState)
    requires mark <= i < |s| && Faithful(s, st, i) && StartsLineComment(s, i)
    ensures Keeps(s, AfterLineComment(s, i, mark, LineCommentEnd(s, i + 2), st))
  {
    var end := LineCommentEnd(s, i + 2);
    assert Trivia(s, end, end);
    CommentKeeps(s, i, mark, end, st);
  }

  lemma BlockCommentKeeps(s: string, i: nat, mark: nat, st: LexState)
    requires mark <= i < |s| && Faithful(s, st, i) && StartsBlockComment(s, i)
    ensures Keeps(s, AfterBlockComment(s, i, mark, BlockCommentEnd(s, i + 2, 1), st))
  {
    match BlockCommentEnd(s, i + 2, 1)
    case None =>
    case Some(end) =>
      assert Trivia(s, end, end);
      CommentKeeps(s, i, mark, end, st);
  }

  lemma SymbolKeeps(s: string, i: nat, mark: nat, end: nat, st: LexState)
    requires mark <= i < end <= |s| && Ready(s, st, i, mark)
    requires LexemeAt(s, i) in {CompoundColonLexeme, SingleByteLexeme} && s[i..end] != "$"
    ensures Keeps(s, At(end, Push(st, Operator, s[i..end], mark, i)))
  {
    AddToken(s, st, Push(st, Operator, s[i..end], mark, i), i, end, mark);
  }

  lemma OperatorKeeps(s: string, i: nat, end: nat, st: LexState)
    requires i < end <= |s| && Faithful(s, st, i) && LexemeAt(s, i).OperatorLexeme?
    ensures Keeps(s, AfterOperator(s, i, end, st))
  {
    AddOperator(s, st, i, end);
  }

  lemma NumberKeeps(s: string, i: nat, stop: nat, st: LexState)
    requires i < stop <= |s| && Faithful(s, st, i) && LexemeAt(s, i).NumberLexeme? && IsInitialNumber(s[i])
    ensures Keeps(s, AfterNumber(s, i, stop, st))
  {
    if stop < |s| {
      TokenKeeps(s, i, NumberEnd(s, i, stop), Number, st);
    } else {
      AddRangeLast(s, st, i, Number);
    }
  }

  lemma WordKeeps(lexicon: Lexicon, s: string, i: nat, stop: nat, st: LexState)
    requires i < stop <= |s| && Faithful(s, st, i) && LexemeAt(s, i).WordLexeme?
    ensures Keeps(s, AfterWord(lexicon, s, i, stop, st))
  {
    if stop < |s| {
      TokenKeeps(s, i, stop, WordKind(lexicon, s[i..stop]), st);
    } else {
      AddRangeLast(s, st, i, WordKind(lexicon, s[i..]));
    }
  }

  lemma StringKeeps(s: string, i: nat, end: Option<nat>, st: LexState)
    requires i < |s| && Faithful(s, st, i) && LexemeAt(s, i).StringLexeme? && (end.Some? ==> i < end.value <= |s|)
    ensures Keeps(s, AfterString(s, i, end, st))
  {
    if end.Some? {
      TokenKeeps(s, i, end.value, StringLit, st);
    }
  }

  lemma QuotedKeeps(s: string, i: nat, end: Option<nat>, st: LexState)
    requires i < |s| && Faithful(s, st, i) && LexemeAt(s, i).QuotedLexeme? && (end.Some? ==> i < end.value <= |s|)
    ensures Keeps(s, AfterQuoted(s, i, end, st))
  {
    if end.Some? {
      TokenKeeps(s, i, end.value, Identifier, st);
    }
  }

  lemma DollarStringKeeps(s: string, i: nat, end: Option<nat>, st: LexState)
    requires i < |s| && Faithful(s, st, i) && LexemeAt(s, i).DollarStringLexeme?
    requires end.Some? ==> i < end.value <= |s|
    ensures Keeps(s, AfterDollarString(s, i, end, st))
  {
    if end.Some? {
      TokenKeeps(s, i, end.value, StringLit, st);
    } else {
      AddRange(s, st, i, |s|, StringLit, true);
    }
  }

  lemma TerminatorKeeps(s: string, i: nat, st: LexState)
    requires i < |s| && Faithful(s, st, i) && LexemeAt(s, i).TerminatorLexeme? && s[i] == ';'
    ensures Keeps(s, At(i + 1, Push(st, Terminator, ";", i, i)))
  {
    assert s[i..i + 1] == ";";
    AddToken(s, st, Push(st, Terminator, ";", i, i), i, i + 1, i);
  }

  /** A '$' alone: pushed, and the operator after it gets its offset; or the end of the source. */
  lemma DollarKeeps(s: string, i: nat, mark: nat, st: LexState)
    requires mark <= i < |s| && Ready(s, st, i, mark) && s[i] == '$'
    requires LexemeAt(s, i).LoneDollar? || LexemeAt(s, i).ParameterDollar?
    ensures mark == i
    ensures if LexemeAt(s, i).LoneDollar? then Keeps(s, GoesOn(i + 1, i, st))
            else Keeps(s, GoesOn(i + 1, i, Push(st, Operator, "$", i, i)))
  {
    if LexemeAt(s, i).LoneDollar? {
      AddRangeLast(s, st, i, Identifier);
    } else {
      assert s[i..i + 1] == "$";
      AddToken(s, st, Push(st, Operator, "$", i, i), i, i + 1, i);
    }
  }

  lemma StringsKeep(lexicon: Lexicon, s: string, i: nat, mark: nat, st: LexState)
    requires mark <= i < |s| && Ready(s, st, i, mark)
    requires LexemeAt(s, i).StringLexeme? || LexemeAt(s, i).DollarStringLexeme?
    ensures Keeps(s, NextAt(lexicon, s, i, mark, st))
  {
    match LexemeAt(s, i)
    case StringLexeme(body, escape) => StringKeeps(s, i, StringEnd(s, body, escape), st);
    case DollarStringLexeme(close) => DollarStringKeeps(s, i, DollarStringEnd(s, close + 1, s[i + 1..close]), st);
  }

  lemma NamesKeep(lexicon: Lexicon, s: string, i: nat, mark: nat, st: LexState)
    requires mark <= i < |s| && Ready(s, st, i, mark)
    requires LexemeAt(s, i).QuotedLexeme? || LexemeAt(s, i).WordLexeme?
    ensures Keeps(s, NextAt(lexicon, s, i, mark, st))
  {
    if LexemeAt(s, i).QuotedLexeme? {
      QuotedKeeps(s, i, QuotedEnd(s, i + 1, s[i]), st);
    } else {
      WordKeeps(lexicon, s, i, KeywordStop(s, i + 1), st);
    }
  }

  lemma RunsKeep(lexicon: Lexicon, s: string, i: nat, mark: nat, st: LexState)
    requires mark <= i < |s| && Ready(s, st, i, mark)
    requires LexemeAt(s, i).NumberLexeme? || LexemeAt(s, i).OperatorLexeme?
    ensures Keeps(s, NextAt(lexicon, s, i, mark, st))
  {
    if LexemeAt(s, i).NumberLexeme? {
      NumberKeeps(s, i, NumberStop(s, i, i + 1), st);
    } else {
      OperatorKeeps(s, i, OperatorStop(s, i + 1), st);
    }
  }

  lemma CommentsKeep(lexicon: Lexicon, s: string, i: nat, mark: nat, st: LexState)
    requires mark <= i < |s| && Ready(s, st, i, mark)
    requires LexemeAt(s, i).LineCommentLexeme? || LexemeAt(s, i).BlockCommentLexeme?
    ensures Keeps(s, NextAt(lexicon, s, i, mark, st))
  {
    if LexemeAt(s, i).LineCommentLexeme? {
      LineCommentKeeps(s, i, mark, st);
    } else {
      BlockCommentKeeps(s, i, mark, st);
    }
  }

  lemma BreaksKeep(lexicon: Lexicon, s: string, i: nat, mark: nat, st: LexState)
    requires mark <= i < |s| && Ready(s, st, i, mark)
    requires LexemeAt(s, i).SpaceLexeme? || LexemeAt(s, i).TerminatorLexeme?
    ensures Keeps(s, NextAt(lexicon, s, i, mark, st))
  {
    match LexemeAt(s, i)
    case SpaceLexeme(length) =>
      assert Trivia(s, i + length, i + length);
      GapKeeps(s, i, i + length, st);
    case TerminatorLexeme => TerminatorKeeps(s, i, st);
  }

  lemma DollarsKeep(lexicon: Lexicon, s: string, i: nat, mark: nat, st: LexState)
    requires mark <= i < |s| && Ready(s, st, i, mark)
    requires LexemeAt(s, i).LoneDollar? || LexemeAt(s, i).ParameterDollar?
    ensures Keeps(s, NextAt(lexicon, s, i, mark, st))
  {
    DollarKeeps(s, i, mark, st);
  }

  lemma DirectKeeps(lexicon: Lexicon, s: string, i: nat, mark: nat, st: LexState)
    requires mark <= i < |s| && Ready(s, st, i, mark)
    requires LexemeAt(s, i).CompoundColonLexeme? || LexemeAt(s, i).SingleByteLexeme?
    ensures Keeps(s, NextAt(lexicon, s, i, mark, st))
  {
    if LexemeAt(s, i).CompoundColonLexeme? {
      SymbolKeeps(s, i, mark, i + 2, st);
    } else {
      assert s[i..i + 1] == [s[i]];
      SymbolKeeps(s, i, mark, i + 1, st);
    }
  }

  /** Every lexeme keeps a faithful state faithful. */
  lemma NextKeeps(lexicon: Lexicon, s: string, i: nat, mark: nat, st: LexState)
    requires mark <= i < |s| && Ready(s, st, i, mark)
    ensures Keeps(s, NextAt(lexicon, s, i, mark, st))
  {
    match LexemeAt(s, i)
    case StringLexeme(_, _) => StringsKeep(lexicon, s, i, mark, st);
    case DollarStringLexeme(_) => StringsKeep(lexicon, s, i, mark, st);
    case QuotedLexeme => NamesKeep(lexicon, s, i, mark, st);
    case WordLexeme => NamesKeep(lexicon, s, i, mark, st);
    case NumberLexeme => RunsKeep(lexicon, s, i, mark, st);
    case OperatorLexeme => RunsKeep(lexicon, s, i, mark, st);
    case LineCommentLexeme => CommentsKeep(lexicon, s, i, mark, st);
    case BlockCommentLexeme => CommentsKeep(lexicon, s, i, mark, st);
    case SpaceLexeme(_) => BreaksKeep(lexicon, s, i, mark, st);
    case TerminatorLexeme => BreaksKeep(lexicon, s, i, mark, st);
    case LoneDollar => DollarsKeep(lexicon, s, i, mark, st);
    case ParameterDollar(_) => DollarsKeep(lexicon, s, i, mark, st);
    case CompoundColonLexeme => DirectKeeps(lexicon, s, i, mark, st);
    case SingleByteLexeme => DirectKeeps(lexicon, s, i, mark, st);
  }

  /** Tokenizing from any faithful state ends in a faithful state over the whole source. */
  lemma {:induction false} StaysFaithful(lexicon: Lexicon, s: string, i: nat, mark: nat, st: LexState)
    requires mark <= i <= |s| && Ready(s, st, i, mark)
    requires LexFrom(lexicon, s, i, mark, st).Lexed?
    ensures Faithful(s, LexFrom(lexicon, s, i, mark, st).st, |s|)
    decreases |s| - i
  {
    if i < |s| {
      var n := NextAt(lexicon, s, i, mark, st);
      NextKeeps(lexicon, s, i, mark, st);
      if n.GoesOn? && !(n.i == |s| && n.mark < n.i) {
        StaysFaithful(lexicon, s, n.i, n.mark, n.st);
      }
    }
  }

  /** Lossless tokenizing: the tokens before the sentinel sit at strictly increasing, disjoint
      extents, each token's text is the source there, everything between extents is whitespace
      or a comment, and a span is its extent except that it is one too small, at both ends, for
      a directly pushed operator right after a parameter's '$'. */
  lemma LosslessTokenizing(lexicon: Lexicon, s: string) returns (st: LexState)
    requires TokensOf(lexicon, s).Tokenized?
    ensures Faithful(s, st, |s|)
    ensures TokensOf(lexicon, s).tokens == st.tokens + [PlainToken(EndOfInput, "", |s|)]
  {
    StaysFaithful(lexicon, s, 0, 0, EMPTY);
    st := LexFrom(lexicon, s, 0, 0, EMPTY).st;
  }

  /** What the statement loop needs of its tokens. */
  ghost predicate WellSpanned(tokens: seq<Token>, n: nat) {
    tokens != []
    && (forall i :: 0 <= i < |tokens| ==> (tokens[i].kind == EndOfInput <==> i == |tokens| - 1))
    && (forall i :: 0 <= i < |tokens| ==> 0 <= tokens[i].span.start <= tokens[i].span.end <= n)
    && (forall i, j :: 0 <= i <= j < |tokens| ==> tokens[i].span.end <= tokens[j].span.end)
  }

  lemma {:induction false} ExtentsAscend(s: string, st: LexState, i: nat, j: nat)
    requires Faithful(s, st, |s|) && i < j < |st.tokens|
    ensures st.extents[i].1 <= st.extents[j].0
    decreases j - i
  {
    assert TokenFaithful(s, st, j);
    if i + 1 < j {
      ExtentsAscend(s, st, i, j - 1);
      assert TokenFaithful(s, st, j - 1);
    }
  }

  /** Span ends never decrease and stay inside the source, shifted spans included. */
  lemma TokensWellSpanned(lexicon: Lexicon, s: string)
    requires TokensOf(lexicon, s).Tokenized?
    ensures WellSpanned(TokensOf(lexicon, s).tokens, |s|)
  {
    var st := LosslessTokenizing(lexicon, s);
    var tokens := TokensOf(lexicon, s).tokens;
    forall i | 0 <= i < |tokens|
      ensures tokens[i].kind == EndOfInput <==> i == |tokens| - 1
      ensures 0 <= tokens[i].span.start <= tokens[i].span.end <= |s|
    {
      if i < |st.tokens| {
        assert TokenFaithful(s, st, i);
        assert i > 0 ==> TokenFaithful(s, st, i - 1);
      }
    }
    forall i, j | 0 <= i <= j < |tokens|
      ensures tokens[i].span.end <= tokens[j].span.end
    {
      if i < j {
        assert TokenFaithful(s, st, i);
        if j < |st.tokens| {
          ExtentsAscend(s, st, i, j);
          assert TokenFaithful(s, st, j);
        }
      }
    }
  }

  /** "$(" and its like: the operator right after the '$' is at 1 and gets the span of the '$'. */
  lemma ShiftedSpan(lexicon: Lexicon, c: char)
    requires IsSingleByteOperator(c) && c != '$'
    ensures TokensOf(lexicon, "$" + [c]) ==
      Tokenized([PlainToken(Operator, "$", 0), PlainToken(Operator, [c], 0), PlainToken(EndOfInput, "", 2)])
  {
    var s := "$" + [c];
    assert MarkerEnd(s, 1) == None;
    assert LexemeAt(s, 0) == ParameterDollar(false) && LexemeAt(s, 1) == SingleByteLexeme;
    var dollar := Push(EMPTY, Operator, "$", 0, 0);
    var both := Push(dollar, Operator, [c], 0, 1);
    assert LexFrom(lexicon, s, 2, 2, both) == Lexed(both);
    assert LexFrom(lexicon, s, 1, 0, dollar) == Lexed(both);
    assert LexFrom(lexicon, s, 0, 0, EMPTY) == Lexed(both);
  }

  /** "$(" is such a source: the parenthesis stands at 1. */
  lemma DollarParenthesis(lexicon: Lexicon)
    ensures TokensOf(lexicon, "$(").Tokenized? && TokensOf(lexicon, "$(").tokens[1].span == Span(0, 1)
  {
    assert "$" + ['('] == "$(";
    ShiftedSpan(lexicon, '(');
  }
}
