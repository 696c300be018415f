/** What each lexeme leaves behind: the token it is, or the refusal of the source
    (lexer/lexer.go:378-490, 552-633). */
module LexTokens {
  import opened Tokens
  import opened ByteClasses
  import opened LexRules
  import opened LexSpec
  import opened LexPieces

  /** One token more, of this kind and text, recorded at `offset`, and reading on at `next`. */
  ghost predicate Leaves(n: Next, st: LexState, kind: Kind, text: string, offset: nat, next: nat) {
    && n.GoesOn? && n.i == next
    && n.st.tokens == st.tokens + [Token(kind, text, Span(offset, offset + |text|), false, false, false)]
  }

  /** Bytes that are tokens by themselves.  One right behind a parameter's `$` is recorded at
      `mark`, where the `$` stands; a `$` at the end of the source is left for its last token. */
  lemma {:induction false} SymbolIsToken(lexicon: Lexicon, s: string, i: nat, mark: nat, st: LexState)
    requires mark <= i < |s|
    ensures
      var n := NextAt(lexicon, s, i, mark, st);
      && (s[i] == ';' ==> Leaves(n, st, Terminator, ";", i, i + 1) && n.mark == i + 1)
      && (LooksLike(s, i, SingleByteLexeme) ==> Leaves(n, st, Operator, [s[i]], mark, i + 1) && n.mark == i + 1)
      && (LooksLike(s, i, CompoundColonLexeme) ==> Leaves(n, st, Operator, s[i..i + 2], mark, i + 2) && n.mark == i + 2)
      && (LooksLike(s, i, LoneDollar) ==> n == GoesOn(|s|, mark, st))
      && (LooksLike(s, i, ParameterDollar(true)) ==> Leaves(n, st, Operator, "$", i, i + 1) && n.mark == mark)
      && (LooksLike(s, i, ParameterDollar(false)) ==> Leaves(n, st, Operator, "$", i, i + 1) && n.mark == i)
  {
    LexemeTable(s, i, TerminatorLexeme);
    LexemeTable(s, i, SingleByteLexeme);
    LexemeTable(s, i, CompoundColonLexeme);
    LexemeTable(s, i, LoneDollar);
    LexemeTable(s, i, ParameterDollar(true));
    LexemeTable(s, i, ParameterDollar(false));
  }

  // ----- what is refused -----

  /** No closing quote, from `body` on. */
  ghost predicate NeverCloses(s: string, body: nat, q: char, escape: bool) {
    forall us, e :: !ClosesAt(s, body, q, escape, us, e)
  }

  ghost predicate StringRefused(s: string, i: nat, body: nat, escape: bool, msg: string, offset: nat)
    requires i < |s|
  {
    && LooksLike(s, i, StringLexeme(body, escape)) && NeverCloses(s, body, '\'', escape)
    && msg == "unterminated string literal" && offset == i
  }

  /** An identifier that is not closed, or has nothing between its delimiters. */
  ghost predicate QuotedRefused(s: string, i: nat, msg: string, offset: nat)
    requires i < |s|
  {
    && LooksLike(s, i, QuotedLexeme) && offset == i
    && ((NeverCloses(s, i + 1, s[i], false) && msg == "unterminated quoted identifier")
        || (ClosesAt(s, i + 1, s[i], false, [], i + 2) && msg == "zero-length delimited identifier"))
  }

  ghost predicate CommentRefused(s: string, i: nat, mark: nat, msg: string, offset: nat)
    requires mark <= i < |s|
  {
    && LooksLike(s, i, BlockCommentLexeme) && CloseOf(s, i + 2) == None
    && msg == "unterminated /* comment at or near \"" + s[mark..] + "\"" && offset == mark
  }

  ghost predicate Refused(n: Next, msg: string, offset: nat) { n == Ends(LexError(msg, offset)) }

  lemma {:induction false} StringNeverCloses(s: string, body: nat, escape: bool)
    requires body <= |s|
    ensures NeverCloses(s, body, '\'', escape) <==> StringEnd(s, body, escape).None?
  {
    if StringEnd(s, body, escape).Some? {
      var us := StringClosed(s, body, escape);
    }
    forall us, e: nat
      ensures ClosesAt(s, body, '\'', escape, us, e) ==> StringEnd(s, body, escape).Some?
    {
      if ClosesAt(s, body, '\'', escape, us, e) {
        ClosedString(s, body, escape, us, e);
      }
    }
  }

  lemma {:induction false} QuotedNeverCloses(s: string, body: nat, q: char)
    requires body <= |s|
    ensures NeverCloses(s, body, q, false) <==> QuotedEnd(s, body, q).None?
  {
    if QuotedEnd(s, body, q).Some? {
      var us := QuotedClosed(s, body, q);
    }
    forall us, e: nat
      ensures ClosesAt(s, body, q, false, us, e) ==> QuotedEnd(s, body, q).Some?
    {
      if ClosesAt(s, body, q, false, us, e) {
        QuotedEndIsStringEnd(s, body, e, us, q);
      }
    }
  }

  lemma {:induction false} StringRefusedIff(lexicon: Lexicon, s: string, i: nat, mark: nat, st: LexState, body: nat,
                                            escape: bool, msg: string, offset: nat)
    requires mark <= i < |s| && LexemeAt(s, i) == StringLexeme(body, escape)
    ensures Refused(NextAt(lexicon, s, i, mark, st), msg, offset) <==> StringRefused(s, i, body, escape, msg, offset)
  {
    LexemeTable(s, i, StringLexeme(body, escape));
    StringNeverCloses(s, body, escape);
  }

  lemma {:induction false} QuotedRefusedIff(lexicon: Lexicon, s: string, i: nat, mark: nat, st: LexState, msg: string,
                                            offset: nat)
    requires mark <= i < |s| && LexemeAt(s, i) == QuotedLexeme
    ensures Refused(NextAt(lexicon, s, i, mark, st), msg, offset) <==> QuotedRefused(s, i, msg, offset)
  {
    LexemeTable(s, i, QuotedLexeme);
    QuotedNeverCloses(s, i + 1, s[i]);
    NothingBetween(s, i);
  }

  /** Nothing between the delimiters: two of them, and no third. */
  lemma {:induction false} NothingBetween(s: string, i: nat)
    requires i < |s| && (s[i] == '"' || s[i] == '`')
    ensures ClosesAt(s, i + 1, s[i], false, [], i + 2) <==>
      QuotedEnd(s, i + 1, s[i]) == Some(i + 2) && (s[i..i + 2] == "\"\"" || s[i..i + 2] == "``")
  {
    QuotedEndIff(s, i + 1, s[i], i + 2);
    if i + 2 <= |s| {
      assert s[i..i + 2] == [s[i], s[i + 1]] && s[i + 1..i + 2] == [s[i + 1]];
      assert Joined([]) + [s[i]] == [s[i]];
    }
    if QuotedEnd(s, i + 1, s[i]) == Some(i + 2) && s[i + 1] == s[i] {
      assert i + 2 < |s| ==> s[i + 2] != s[i];
    }
  }

  lemma {:induction false} CommentRefusedIff(lexicon: Lexicon, s: string, i: nat, mark: nat, st: LexState, msg: string,
                                             offset: nat)
    requires mark <= i < |s| && LexemeAt(s, i) == BlockCommentLexeme
    ensures Refused(NextAt(lexicon, s, i, mark, st), msg, offset) <==> CommentRefused(s, i, mark, msg, offset)
  {
    LexemeTable(s, i, BlockCommentLexeme);
    BlockCommentsNest(s, i + 2);
  }

  /** The source is refused at a lexeme exactly when it is a string, a quoted identifier or a block
      comment that is not closed, or an identifier with nothing in it; and where, and with which
      words. */
  lemma {:induction false} RefusedIff(lexicon: Lexicon, s: string, i: nat, mark: nat, st: LexState, msg: string,
                                      offset: nat)
    requires mark <= i < |s|
    ensures Refused(NextAt(lexicon, s, i, mark, st), msg, offset) <==>
      || (exists body, escape :: StringRefused(s, i, body, escape, msg, offset))
      || QuotedRefused(s, i, msg, offset) || CommentRefused(s, i, mark, msg, offset)
  {
    var l := LexemeAt(s, i);
    forall body: nat, escape
      ensures StringRefused(s, i, body, escape, msg, offset) ==> l == StringLexeme(body, escape)
    {
      LexemeTable(s, i, StringLexeme(body, escape));
    }
    LexemeTable(s, i, QuotedLexeme);
    LexemeTable(s, i, BlockCommentLexeme);
    match l {
      case StringLexeme(body, escape) => StringRefusedIff(lexicon, s, i, mark, st, body, escape, msg, offset);
      case QuotedLexeme => QuotedRefusedIff(lexicon, s, i, mark, st, msg, offset);
      case BlockCommentLexeme => CommentRefusedIff(lexicon, s, i, mark, st, msg, offset);
      case _ =>
    }
  }
}
