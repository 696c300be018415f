/** What stands between two tokens, and what the later one remembers of it: a line break continues
    a string, a block comment does not (lexer/lexer.go:207-247, 356-369, 646-684). */
module LexGaps {
  import opened Tokens
  import opened ByteClasses
  import opened LexRules
  import opened LexSpec
  import opened LexPieces

  datatype Kindred = Blank | LineComment | BlockComment

  /** A stretch of source that makes no token. */
  datatype Piece = Piece(kind: Kindred, length: nat)

  /** Through the first line break, or to the end of the source. */
  predicate LineEndsAt(s: string, i: nat, j: nat) {
    i <= j <= |s| &&
    if j > i && s[j - 1] in "\n\r" then forall k :: i <= k < j - 1 ==> s[k] !in "\n\r"
    else j == |s| && forall k :: i <= k < j ==> s[k] !in "\n\r"
  }

  ghost predicate PieceAt(s: string, i: nat, p: Piece) {
    && p.length > 0 && i + p.length <= |s|
    && match p.kind
       case Blank => LooksLike(s, i, SpaceLexeme(p.length))
       case LineComment => LooksLike(s, i, LineCommentLexeme) && LineEndsAt(s, i + 2, i + p.length)
       case BlockComment => LooksLike(s, i, BlockCommentLexeme) && CloseOf(s, i + 2) == Some(i + p.length)
  }

  function GapEnd(a: nat, gap: seq<Piece>): (b: nat)
    ensures a <= b
    decreases |gap|
  {
    if gap == [] then a else GapEnd(a + gap[0].length, gap[1..])
  }

  ghost predicate GapAt(s: string, a: nat, gap: seq<Piece>)
    decreases |gap|
  {
    gap == [] || (PieceAt(s, a, gap[0]) && GapAt(s, a + gap[0].length, gap[1..]))
  }

  predicate HasBlock(gap: seq<Piece>) { exists i :: 0 <= i < |gap| && gap[i].kind == BlockComment }

  /** No block comment begins at or behind a. */
  predicate NoBlockFrom(st: LexState, a: nat) { st.hasBlockComment ==> st.lastBlockCommentPos < a }

  // What tokenizing from a place on comes to, as any function of the place and the state.
  type Reading = (nat, LexState) -> LexResult

  predicate Step(i: nat, st: LexState) { true }

  /** The reading goes on past every lexeme. */
  ghost predicate GoesOnIn(lexicon: Lexicon, s: string, rest: Reading) {
    forall i: nat, st {:trigger Step(i, st)} :: Step(i, st) && i < |s| ==> PassesAt(lexicon, s, rest, i, st)
  }

  ghost predicate PassesAt(lexicon: Lexicon, s: string, rest: Reading, i: nat, st: LexState)
    requires i < |s|
  {
    var n := NextAt(lexicon, s, i, i, st);
    n.GoesOn? && n.mark == n.i ==> rest(i, st) == rest(n.i, n.st)
  }

  /** Tokenizing does. */
  lemma LexingGoesOn(lexicon: Lexicon, s: string) returns (rest: Reading)
    ensures GoesOnIn(lexicon, s, rest)
    ensures forall i: nat, st :: i <= |s| ==> rest(i, st) == LexFrom(lexicon, s, i, i, st)
  {
    rest := (i: nat, st: LexState) => if i <= |s| then LexFrom(lexicon, s, i, i, st) else LexError("", 0);
    forall i: nat, st: LexState {:trigger Step(i, st)} | Step(i, st) && i < |s|
      ensures PassesAt(lexicon, s, rest, i, st)
    {
    }
  }

  lemma StepOn(lexicon: Lexicon, s: string, i: nat, st: LexState, j: nat, more: LexState, rest: Reading)
    requires GoesOnIn(lexicon, s, rest) && i < j <= |s| && NextAt(lexicon, s, i, i, st) == At(j, more)
    ensures rest(i, st) == rest(j, more)
  {
    assert Step(i, st);
  }

  /** A piece leaves the tokens as they are; a block comment is remembered by where it begins. */
  lemma PieceSkipped(lexicon: Lexicon, s: string, i: nat, p: Piece, st: LexState)
    requires i < |s| && PieceAt(s, i, p)
    ensures NextAt(lexicon, s, i, i, st) == At(i + p.length,
      if p.kind == BlockComment then st.(hasBlockComment := true, lastBlockCommentPos := i) else st)
  {
    match p.kind
    case Blank => LexemeTable(s, i, SpaceLexeme(p.length));
    case LineComment =>
      LexemeTable(s, i, LineCommentLexeme);
      LineCommentIff(s, i + 2, i + p.length);
    case BlockComment =>
      LexemeTable(s, i, BlockCommentLexeme);
      BlockCommentsNest(s, i + 2);
  }

  lemma {:induction false} GapSkipped(lexicon: Lexicon, s: string, a: nat, gap: seq<Piece>, st: LexState, rest: Reading)
    returns (more: LexState)
    requires GoesOnIn(lexicon, s, rest) && a <= |s| && GapAt(s, a, gap)
    ensures GapEnd(a, gap) <= |s| && rest(a, st) == rest(GapEnd(a, gap), more)
    ensures more.tokens == st.tokens && more.extents == st.extents
    ensures !HasBlock(gap) ==> more == st
    ensures HasBlock(gap) ==> more.hasBlockComment && a <= more.lastBlockCommentPos < GapEnd(a, gap)
    decreases |gap|
  {
    more := st;
    if gap != [] {
      var next := FirstSkipped(lexicon, s, a, gap[0], st, rest);
      more := GapSkipped(lexicon, s, a + gap[0].length, gap[1..], next, rest);
      BlockIn(gap);
    }
  }

  lemma FirstSkipped(lexicon: Lexicon, s: string, a: nat, p: Piece, st: LexState, rest: Reading)
    returns (next: LexState)
    requires GoesOnIn(lexicon, s, rest) && a <= |s| && PieceAt(s, a, p)
    ensures rest(a, st) == rest(a + p.length, next)
    ensures next ==
      if p.kind == BlockComment then st.(hasBlockComment := true, lastBlockCommentPos := a) else st
  {
    PieceSkipped(lexicon, s, a, p, st);
    next := if p.kind == BlockComment then st.(hasBlockComment := true, lastBlockCommentPos := a) else st;
    StepOn(lexicon, s, a, st, a + p.length, next, rest);
  }

  lemma BlockIn(gap: seq<Piece>)
    requires gap != []
    ensures HasBlock(gap) <==> gap[0].kind == BlockComment || HasBlock(gap[1..])
  {
    if HasBlock(gap[1..]) {
      var i :| 0 <= i < |gap[1..]| && gap[1..][i].kind == BlockComment;
      assert gap[i + 1].kind == BlockComment;
    }
    if HasBlock(gap) && gap[0].kind != BlockComment {
      var i :| 0 <= i < |gap| && gap[i].kind == BlockComment;
      assert gap[1..][i - 1].kind == BlockComment;
    }
  }

  predicate LineBreakIn(s: string, a: nat, b: nat) { exists k :: a <= k < b && k < |s| && s[k] in "\n\r" }

  /** The last token ends at a. */
  predicate LastEndsAt(st: LexState, a: nat) {
    st.tokens != [] && var t := st.tokens[|st.tokens| - 1]; t.span.start + |t.text| == a
  }

  lemma FlagsTell(s: string, a: nat, gap: seq<Piece>, b: nat, e: nat, kind: Kind, st: LexState, more: LexState)
    requires b == GapEnd(a, gap) && b < e <= |s| && LastEndsAt(st, a) && NoBlockFrom(st, a)
    requires more.tokens == st.tokens && (!HasBlock(gap) ==> more == st)
    requires HasBlock(gap) ==> more.hasBlockComment && a <= more.lastBlockCommentPos < b
    ensures PushRange(s, more, b, e, kind, false).tokens
      == st.tokens + [Token(kind, s[b..e], Span(b, e), false, LineBreakIn(s, a, b), HasBlock(gap))]
  {
  }

  /** A string behind a gap: one token more, which knows whether the gap has a line break and
      whether it has a block comment. */
  lemma StringBehindGap(lexicon: Lexicon, s: string, a: nat, gap: seq<Piece>, body: nat, escape: bool,
                        us: seq<string>, e: nat, st: LexState) returns (more: LexState)
    requires a <= |s| && GapAt(s, a, gap) && LastEndsAt(st, a) && NoBlockFrom(st, a) && GapEnd(a, gap) < |s|
    requires LooksLike(s, GapEnd(a, gap), StringLexeme(body, escape)) && ClosesAt(s, body, '\'', escape, us, e)
    ensures
      var b := GapEnd(a, gap);
      && LexFrom(lexicon, s, a, a, st) == LexFrom(lexicon, s, e, e, more)
      && more.tokens == st.tokens + [Token(StringLit, s[b..e], Span(b, e), false, LineBreakIn(s, a, b), HasBlock(gap))]
      && LastEndsAt(more, e) && NoBlockFrom(more, e)
  {
    var b := GapEnd(a, gap);
    var rest := LexingGoesOn(lexicon, s);
    var at := GapSkipped(lexicon, s, a, gap, st, rest);
    LexemeTable(s, b, StringLexeme(body, escape));
    ClosedString(s, body, escape, us, e);
    more := PushRange(s, at, b, e, StringLit, false);
    StepOn(lexicon, s, b, at, e, more, rest);
    FlagsTell(s, a, gap, b, e, StringLit, st, at);
  }
}
