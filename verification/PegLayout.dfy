/** Grammar text as it may be laid out, with spaces, line ends and comments between the tokens,
    and what loading it gives (internal/grammar/parser.go:133-315). */
module PegLayout {
  import opened Tokens
  import opened ByteClasses
  import opened PegGrammar
  import opened PegSyntax
  import opened PegText
  import opened PegRoundTrip

  // ----- places -----

  /** The text reads `part` at c. */
  predicate Reads(s: string, c: nat, part: string) {
    c + |part| <= |s| && forall k {:trigger part[k]} :: 0 <= k < |part| ==> s[c + k] == part[k]
  }

  lemma ReadsSplit(s: string, c: nat, a: string, b: string)
    requires Reads(s, c, a + b)
    ensures Reads(s, c, a) && Reads(s, c + |a|, b)
  {
    var whole := a + b;
    forall k | 0 <= k < |a|
      ensures s[c + k] == a[k]
    {
      assert whole[k] == a[k];
    }
    forall k | 0 <= k < |b|
      ensures s[c + |a| + k] == b[k]
    {
      assert whole[|a| + k] == b[k];
    }
  }

  lemma ReadsIsAt(s: string, c: nat, part: string)
    ensures Reads(s, c, part) <==> At(s, c, part)
  {
    if c + |part| <= |s| {
      var there := s[c..c + |part|];
      assert forall k :: 0 <= k < |part| ==> there[k] == s[c + k];
    }
  }

  // ----- reading on -----

  predicate EndsLine(c: char) { c == '\n' || c == '\r' }

  predicate Blank(c: char) {
    c == ' ' || c == '\t' || c == '\n' || c == '\U{0b}' || c == '\U{0c}' || c == '\r'
  }

  /** A line end would not complete a rule: none is being defined, or it has no token yet, or a
      bracket is open, or an alternative is due. */
  predicate Continues(st: ScanState) {
    st.Definition? ==> st.tokens == [] || st.brackets > 0 || st.inOrClause
  }

  /** The continuation skips spaces and comments, and takes the pieces. */
  ghost predicate ReadsOn(s: string, rest: Continuation) {
    forall c: nat, st {:trigger Step(c, st)} :: Step(c, st) && c < |s| ==> PassesAt(s, rest, c, st)
  }

  ghost predicate PassesAt(s: string, rest: Continuation, c: nat, st: ScanState)
    requires c < |s|
  {
    && (Blank(s[c]) && (EndsLine(s[c]) ==> Continues(st)) ==> rest(c, st) == rest(c + 1, st))
    && (s[c] == '#' ==> rest(c, st) == rest(CommentEnd(s, c), st))
    && (s[c] != '#' && !Blank(s[c]) && PieceAt(s, c, st).Piece?
        ==> rest(c, st) == rest(PieceAt(s, c, st).next, PieceAt(s, c, st).st))
  }

  /** Loading does. */
  lemma LoadingReadsOn(s: string, l: Loaded) returns (rest: Continuation)
    ensures ReadsOn(s, rest)
    ensures forall c: nat, st :: c <= |s| ==> rest(c, st) == Scan(s, c, st, l)
  {
    rest := (p: nat, x: ScanState) => if p <= |s| then Scan(s, p, x, l) else None;
    forall p: nat, x: ScanState {:trigger Step(p, x)} | Step(p, x) && p < |s|
      ensures PassesAt(s, rest, p, x)
    {
    }
  }

  lemma ScanSpace(s: string, c: nat, st: ScanState, rest: Continuation)
    requires ReadsOn(s, rest) && c < |s| && Blank(s[c]) && (EndsLine(s[c]) ==> Continues(st))
    ensures rest(c, st) == rest(c + 1, st)
  {
    assert Step(c, st);
  }

  lemma ScanComment(s: string, c: nat, st: ScanState, rest: Continuation)
    requires ReadsOn(s, rest) && c < |s| && s[c] == '#'
    ensures rest(c, st) == rest(CommentEnd(s, c), st)
  {
    assert Step(c, st);
  }

  lemma ScanPiece(s: string, c: nat, st: ScanState, rest: Continuation)
    requires ReadsOn(s, rest) && c < |s| && s[c] != '#' && !Blank(s[c]) && PieceAt(s, c, st).Piece?
    ensures rest(c, st) == rest(PieceAt(s, c, st).next, PieceAt(s, c, st).st)
  {
    assert Step(c, st);
  }

  // ----- gaps -----

  /** A '#' and what follows it on the line. */
  predicate IsComment(t: string) { t != "" && t[0] == '#' && forall i :: 0 < i < |t| ==> !EndsLine(t[i]) }

  /** A space, or a comment with the line end that ends it. */
  predicate IsBit(t: string) {
    || (|t| == 1 && Blank(t[0]))
    || (|t| >= 2 && EndsLine(t[|t| - 1]) && IsComment(t[..|t| - 1]))
  }

  predicate IsGap(gap: seq<string>) { forall i :: 0 <= i < |gap| ==> IsBit(gap[i]) }

  /** Every line break in a gap ends one of its bits. */
  predicate BreaksLine(gap: seq<string>) {
    exists i :: 0 <= i < |gap| && gap[i] != "" && EndsLine(gap[i][|gap[i]| - 1])
  }

  function GapText(gap: seq<string>): string {
    if gap == [] then "" else gap[0] + GapText(gap[1..])
  }

  lemma {:induction false} CommentFound(s: string, c: nat, end: nat)
    requires c <= end <= |s| && (forall k :: c <= k < end ==> !EndsLine(s[k])) && (end == |s| || EndsLine(s[end]))
    ensures CommentEnd(s, c) == end
    decreases end - c
  {
    if c < end {
      CommentFound(s, c + 1, end);
    }
  }

  lemma CommentSkips(s: string, c: nat, text: string, st: ScanState, rest: Continuation)
    requires ReadsOn(s, rest) && IsComment(text) && Reads(s, c, text)
    requires c + |text| == |s| || EndsLine(s[c + |text|])
    ensures rest(c, st) == rest(c + |text|, st)
  {
    forall k | c <= k < c + |text|
      ensures !EndsLine(s[k])
    {
      assert text[k - c] == s[c + (k - c)];
    }
    assert s[c + 0] == text[0];
    CommentFound(s, c, c + |text|);
    ScanComment(s, c, st, rest);
  }

  lemma BitSkips(s: string, c: nat, t: string, st: ScanState, rest: Continuation)
    requires ReadsOn(s, rest) && IsBit(t) && Reads(s, c, t) && (EndsLine(t[|t| - 1]) ==> Continues(st))
    ensures rest(c, st) == rest(c + |t|, st)
  {
    if |t| == 1 {
      assert s[c + 0] == t[0];
      ScanSpace(s, c, st, rest);
    } else {
      var n := |t| - 1;
      assert s[c + n] == t[n];
      ShorterReads(s, c, t, n);
      CommentSkips(s, c, t[..n], st, rest);
      ScanSpace(s, c + n, st, rest);
    }
  }

  lemma ShorterReads(s: string, c: nat, t: string, n: nat)
    requires Reads(s, c, t) && n <= |t|
    ensures Reads(s, c, t[..n])
  {
    forall k | 0 <= k < n
      ensures s[c + k] == t[..n][k]
    {
      assert t[..n][k] == t[k];
    }
  }

  /** A gap changes nothing, unless it has a line end where one completes the rule. */
  lemma {:induction false} GapSkips(s: string, c: nat, gap: seq<string>, st: ScanState, rest: Continuation)
    requires ReadsOn(s, rest) && IsGap(gap) && Reads(s, c, GapText(gap)) && (BreaksLine(gap) ==> Continues(st))
    ensures rest(c, st) == rest(c + |GapText(gap)|, st)
    decreases |gap|
  {
    if gap != [] {
      var first, others := gap[0], gap[1..];
      ReadsSplit(s, c, first, GapText(others));
      FirstBit(gap);
      BitSkips(s, c, first, st, rest);
      GapSkips(s, c + |first|, others, st, rest);
    }
  }

  lemma FirstBit(gap: seq<string>)
    requires gap != [] && IsGap(gap)
    ensures IsBit(gap[0]) && IsGap(gap[1..])
    ensures EndsLine(gap[0][|gap[0]| - 1]) || BreaksLine(gap[1..]) ==> BreaksLine(gap)
  {
    if BreaksLine(gap[1..]) {
      var i :| 0 <= i < |gap[1..]| && gap[1..][i] != "" && EndsLine(gap[1..][i][|gap[1..][i]| - 1]);
      assert gap[i + 1] == gap[1..][i];
    }
  }

  // ----- tokens -----

  /** No quote but behind a backslash, which takes any byte along. */
  predicate QuotesEscaped(t: string) {
    || t == ""
    || (t[0] != '\'' && t[0] != '\\' && QuotesEscaped(t[1..]))
    || (t[0] == '\\' && |t| >= 2 && QuotesEscaped(t[2..]))
  }

  /** From k on, the last byte is the first that closes. */
  predicate ClosesLast(t: string, k: nat, close: char)
    decreases |t| - k
  {
    if k + 1 >= |t| then k + 1 == |t| && t[k] == close
    else t[k] != close && ClosesLast(t, if t[k] == '\\' then k + 2 else k + 1, close)
  }

  /** A character class: [ to the first unescaped ], or < to the first unescaped >. */
  predicate IsClass(t: string) {
    |t| >= 2 && ((t[0] == '[' && ClosesLast(t, 0, ']')) || (t[0] == '<' && ClosesLast(t, 0, '>')))
  }

  predicate WordByte(c: char) { 'A' <= c <= 'Z' || 'a' <= c <= 'z' || '0' <= c <= '9' }

  predicate IsWord(t: string) { t != "" && forall i :: 0 <= i < |t| ==> WordByte(t[i]) }

  /** How a token is spelled: a literal in quotes, a call with its bracket, the rest as they are. */
  predicate Spells(word: string, t: PegToken) {
    match t.kind
    case LiteralToken => word == "'" + (t.text + "'") && QuotesEscaped(t.text)
    case ReferenceToken => word == t.text && IsWord(t.text)
    case FunctionCallToken => word == t.text + "(" && IsWord(t.text)
    case RegexToken => word == t.text && IsClass(t.text)
    case OperatorToken =>
      word == t.text && (t == Op('/') || t == Op('?') || t == Op('(') || t == Op(')') || t == Op('*') || t == Op('+')
                         || t == Op('!'))
  }

  /** What may not stand right behind: an `i` behind a literal; behind a word more of it, or a
      bracket. */
  predicate Apart(t: PegToken, s: string, p: nat) {
    p < |s| ==>
      && (t.kind == LiteralToken ==> s[p] != 'i')
      && (t.kind == ReferenceToken ==> !WordByte(s[p]) && s[p] != '(')
  }

  function Took(st: ScanState, t: PegToken): ScanState
    requires st.Definition?
  {
    var opens := t.kind == FunctionCallToken || t == Op('(');
    Definition(st.name, st.params, st.tokens + [t],
      if opens then st.brackets + 1 else if t == Op(')') && st.brackets > 0 then st.brackets - 1 else st.brackets,
      t == Op('/'))
  }

  lemma {:induction false} QuoteFound(s: string, c: nat, t: string)
    requires QuotesEscaped(t) && Reads(s, c, t) && c + |t| < |s| && s[c + |t|] == '\''
    ensures LiteralEnd(s, c) == c + |t|
    decreases |t|
  {
    if t != "" {
      assert s[c + 0] == t[0];
      var n := if t[0] == '\\' then 2 else 1;
      LaterReads(s, c, t, n);
      QuoteFound(s, c + n, t[n..]);
    }
  }

  lemma LaterReads(s: string, c: nat, t: string, n: nat)
    requires Reads(s, c, t) && n <= |t|
    ensures Reads(s, c + n, t[n..])
  {
    forall k | 0 <= k < |t[n..]|
      ensures s[c + n + k] == t[n..][k]
    {
      assert t[n..][k] == t[n + k];
    }
  }

  lemma {:induction false} CloserFound(s: string, c: nat, t: string, k: nat, close: char)
    requires Reads(s, c, t) && k < |t| && ClosesLast(t, k, close)
    ensures ClassEnd(s, c + k, close) == c + |t| - 1
    decreases |t| - k
  {
    assert s[c + k] == t[k];
    if k + 1 < |t| {
      CloserFound(s, c, t, if t[k] == '\\' then k + 2 else k + 1, close);
    }
  }

  /** A spelled token is the next piece, whole. */
  lemma TokenScans(s: string, c: nat, word: string, t: PegToken, st: ScanState, rest: Continuation)
    requires ReadsOn(s, rest) && st.Definition? && Spells(word, t) && Reads(s, c, word) && Apart(t, s, c + |word|)
    requires t == Op(')') ==> st.brackets > 0
    ensures rest(c, st) == rest(c + |word|, Took(st, t))
  {
    match t.kind {
      case LiteralToken => QuotedPiece(s, c, t.text, st);
      case ReferenceToken => WordPiece(s, c, t.text, st);
      case FunctionCallToken => CallPiece(s, c, t.text, st);
      case RegexToken => ClassPiece(s, c, t.text, st);
      case OperatorToken => OperatorPiece(s, c, t, st);
    }
    PieceTaken(s, c, st, t, c + |word|, rest);
  }

  lemma PieceTaken(s: string, c: nat, st: ScanState, t: PegToken, next: nat, rest: Continuation)
    requires ReadsOn(s, rest) && st.Definition? && c < |s| && s[c] != '#' && !Blank(s[c])
    requires DefinitionPiece(s, c, st) == Piece(Took(st, t), next)
    ensures rest(c, st) == rest(next, Took(st, t))
  {
    ScanPiece(s, c, st, rest);
  }

  lemma {:induction false} QuotedPiece(s: string, c: nat, text: string, st: ScanState)
    requires st.Definition? && QuotesEscaped(text) && Reads(s, c, "'" + (text + "'"))
    requires c + |text| + 2 < |s| ==> s[c + |text| + 2] != 'i'
    ensures c < |s| && s[c] == '\''
    ensures DefinitionPiece(s, c, st) == Piece(Took(st, PegToken(LiteralToken, text)), c + |text| + 2)
  {
    ReadsSplit(s, c, "'", text + "'");
    assert s[c + 0] == "'"[0];
    ReadsSplit(s, c + 1, text, "'");
    assert s[c + 1 + |text| + 0] == "'"[0];
    QuoteFound(s, c + 1, text);
    TextBetween(s, c + 1, text);
    QuotedIs(s, c, text, st);
  }

  lemma TextBetween(s: string, c: nat, t: string)
    requires Reads(s, c, t)
    ensures s[c..c + |t|] == t
  {
    ReadsIsAt(s, c, t);
  }

  lemma QuotedIs(s: string, c: nat, text: string, st: ScanState)
    requires st.Definition? && c + |text| + 1 < |s| && s[c] == '\'' && s[c + 1..c + 1 + |text|] == text
    requires LiteralEnd(s, c + 1) == c + 1 + |text| && (c + |text| + 2 < |s| ==> s[c + |text| + 2] != 'i')
    ensures DefinitionPiece(s, c, st) == Piece(Took(st, PegToken(LiteralToken, text)), c + |text| + 2)
  {
  }

  lemma WordFound(s: string, c: nat, name: string)
    requires IsWord(name) && Reads(s, c, name) && (c + |name| < |s| ==> !WordByte(s[c + |name|]))
    ensures NameEnd(s, c) == c + |name| && c < |s| && WordByte(s[c]) && s[c..c + |name|] == name
  {
    ReadsIsAt(s, c, name);
    NameFound(s, c, name, 0);
    assert s[c + 0] == name[0];
  }

  lemma WordPiece(s: string, c: nat, name: string, st: ScanState)
    requires st.Definition? && IsWord(name) && Reads(s, c, name)
    requires c + |name| < |s| ==> !WordByte(s[c + |name|]) && s[c + |name|] != '('
    ensures c < |s| && WordByte(s[c])
    ensures DefinitionPiece(s, c, st) == Piece(Took(st, PegToken(ReferenceToken, name)), c + |name|)
  {
    WordFound(s, c, name);
  }

  lemma CallPiece(s: string, c: nat, name: string, st: ScanState)
    requires st.Definition? && IsWord(name) && Reads(s, c, name + "(")
    ensures c < |s| && WordByte(s[c])
    ensures DefinitionPiece(s, c, st) == Piece(Took(st, PegToken(FunctionCallToken, name)), c + |name| + 1)
  {
    ReadsSplit(s, c, name, "(");
    assert s[c + |name| + 0] == "("[0];
    WordFound(s, c, name);
  }

  lemma ClassPiece(s: string, c: nat, text: string, st: ScanState)
    requires st.Definition? && IsClass(text) && Reads(s, c, text)
    ensures c < |s| && (s[c] == '[' || s[c] == '<')
    ensures DefinitionPiece(s, c, st) == Piece(Took(st, PegToken(RegexToken, text)), c + |text|)
  {
    assert s[c + 0] == text[0];
    CloserFound(s, c, text, 0, Closer(text[0]));
    TextBetween(s, c, text);
  }

  lemma OperatorPiece(s: string, c: nat, t: PegToken, st: ScanState)
    requires st.Definition? && t.kind == OperatorToken && Spells(t.text, t) && Reads(s, c, t.text)
    requires t == Op(')') ==> st.brackets > 0
    ensures c < |s| && IsPegOperator(s[c]) && DefinitionPiece(s, c, st) == Piece(Took(st, t), c + 1)
  {
    assert s[c + 0] == t.text[0];
  }

  // ----- the tokens of a rule -----

  /** A token behind its gap, and its spelling. */
  datatype Laid = Laid(gap: seq<string>, word: string, token: PegToken)

  function LaidText(ls: seq<Laid>): string {
    if ls == [] then "" else GapText(ls[0].gap) + (ls[0].word + LaidText(ls[1..]))
  }

  function TokensOf(ls: seq<Laid>): (ts: seq<PegToken>)
    ensures |ts| == |ls|
  {
    seq(|ls|, i requires 0 <= i < |ls| => ls[i].token)
  }

  function TookAll(st: ScanState, ls: seq<Laid>): (r: ScanState)
    requires st.Definition?
    ensures r.Definition? && r.name == st.name && r.params == st.params
    decreases |ls|
  {
    if ls == [] then st else TookAll(Took(st, ls[0].token), ls[1..])
  }

  /** One token laid out at c: its gap breaks the line only where the rule goes on, its bracket
      closes one that is open, and what would run together with it is apart. */
  ghost predicate TokenLaidOut(s: string, c: nat, l: Laid, st: ScanState)
    requires st.Definition?
  {
    && IsGap(l.gap) && (BreaksLine(l.gap) ==> Continues(st))
    && Spells(l.word, l.token) && (l.token == Op(')') ==> st.brackets > 0)
    && Apart(l.token, s, c + |GapText(l.gap)| + |l.word|)
  }

  ghost predicate LaidOut(s: string, c: nat, ls: seq<Laid>, st: ScanState)
    requires st.Definition?
    decreases |ls|
  {
    ls == [] ||
      (TokenLaidOut(s, c, ls[0], st)
       && LaidOut(s, c + |GapText(ls[0].gap)| + |ls[0].word|, ls[1..], Took(st, ls[0].token)))
  }

  lemma {:induction false} LaidScans(s: string, c: nat, ls: seq<Laid>, st: ScanState, rest: Continuation)
    requires ReadsOn(s, rest) && st.Definition? && Reads(s, c, LaidText(ls)) && LaidOut(s, c, ls, st)
    ensures rest(c, st) == rest(c + |LaidText(ls)|, TookAll(st, ls))
    decreases |ls|
  {
    if ls != [] {
      var gap, word, more := GapText(ls[0].gap), ls[0].word, LaidText(ls[1..]);
      ReadsThree(s, c, gap, word, more);
      FirstScans(s, c, gap, ls[0], st, rest);
      LaidScans(s, c + |gap| + |word|, ls[1..], Took(st, ls[0].token), rest);
    }
  }

  lemma ReadsThree(s: string, c: nat, a: string, b: string, d: string)
    requires Reads(s, c, a + (b + d))
    ensures Reads(s, c, a) && Reads(s, c + |a|, b) && Reads(s, c + |a| + |b|, d)
  {
    ReadsSplit(s, c, a, b + d);
    ReadsSplit(s, c + |a|, b, d);
  }

  lemma FirstScans(s: string, c: nat, gap: string, l: Laid, st: ScanState, rest: Continuation)
    requires ReadsOn(s, rest) && st.Definition? && gap == GapText(l.gap)
    requires Reads(s, c, gap) && Reads(s, c + |gap|, l.word) && TokenLaidOut(s, c, l, st)
    ensures rest(c, st) == rest(c + |gap| + |l.word|, Took(st, l.token))
  {
    GapSkips(s, c, l.gap, st, rest);
    TokenScans(s, c + |gap|, l.word, l.token, st, rest);
  }

  lemma {:induction false} TookTokens(st: ScanState, ls: seq<Laid>)
    requires st.Definition?
    ensures TookAll(st, ls).tokens == st.tokens + TokensOf(ls)
    decreases |ls|
  {
    if ls != [] {
      TookTokens(Took(st, ls[0].token), ls[1..]);
      assert TokensOf(ls) == [ls[0].token] + TokensOf(ls[1..]);
      assert st.tokens + [ls[0].token] + TokensOf(ls[1..]) == st.tokens + TokensOf(ls);
    }
  }

  // ----- a whole rule -----

  /** A rule as laid out: its head with the parameter in brackets or without, its tokens, and its
      end, blanks, a comment perhaps and the line end.  Only the end of the text may stand in for
      the line end. */
  datatype LaidRule = LaidRule(
    before: seq<string>, name: string, after: seq<string>,
    bracket: string, params: seq<string>, beforeArrow: seq<string>,
    body: seq<Laid>,
    blanks: seq<string>, comment: string, newline: string)

  function NameText(r: LaidRule): string { GapText(r.before) + (r.name + GapText(r.after)) }

  function ArrowText(r: LaidRule): string { r.bracket + (GapText(r.beforeArrow) + "<-") }

  function TailText(r: LaidRule): string { GapText(r.blanks) + (r.comment + r.newline) }

  function LaidRuleText(r: LaidRule): string { NameText(r) + (ArrowText(r) + (LaidText(r.body) + TailText(r))) }

  predicate IsRuleName(t: string) { IsWord(t) || (t != "" && t[0] == '%' && (|t| == 1 || IsWord(t[1..]))) }

  predicate IsHead(r: LaidRule) {
    && IsGap(r.before) && IsRuleName(r.name) && IsGap(r.after) && IsGap(r.beforeArrow)
    && (if r.params == [] then r.bracket == "" && r.beforeArrow == []
        else |r.params| == 1 && IsWord(r.params[0]) && r.bracket == "(" + (r.params[0] + ")"))
  }

  predicate IsTail(r: LaidRule) {
    && IsGap(r.blanks) && !BreaksLine(r.blanks) && (r.comment == "" || IsComment(r.comment))
    && (r.newline == "" || (|r.newline| == 1 && EndsLine(r.newline[0])))
  }

  function Start(r: LaidRule): ScanState { Definition(r.name, r.params, [], 0, false) }

  /** Some token, every bracket closed, and no alternative due. */
  predicate Whole(r: LaidRule) {
    var st := TookAll(Start(r), r.body);
    r.body != [] && st.brackets == 0 && !st.inOrClause
  }

  function Defined(r: LaidRule): ScanState { Definition(r.name, r.params, TokensOf(r.body), 0, false) }

  lemma GapNoWord(s: string, c: nat, gap: seq<string>)
    requires IsGap(gap) && gap != [] && Reads(s, c, GapText(gap))
    ensures c < |s| && !WordByte(s[c])
  {
    assert IsBit(gap[0]);
    ReadsSplit(s, c, gap[0], GapText(gap[1..]));
    assert s[c + 0] == gap[0][0];
    assert |gap[0]| > 1 ==> gap[0][..|gap[0]| - 1][0] == gap[0][0];
  }

  lemma NameScansOn(s: string, c: nat, name: string, rest: Continuation)
    requires ReadsOn(s, rest) && IsRuleName(name) && Reads(s, c, name)
    requires c + |name| < |s| && !WordByte(s[c + |name|])
    ensures rest(c, RuleName) == rest(c + |name|, Separator(name, []))
  {
    assert s[c + 0] == name[0];
    if name[0] == '%' {
      PercentName(s, c, name);
    } else {
      WordFound(s, c, name);
    }
    TextBetween(s, c, name);
    ScanPiece(s, c, RuleName, rest);
  }

  lemma PercentName(s: string, c: nat, name: string)
    requires IsRuleName(name) && name[0] == '%' && Reads(s, c, name)
    requires c + |name| < |s| && !WordByte(s[c + |name|])
    ensures NameEnd(s, c + 1) == c + |name|
  {
    LaterReads(s, c, name, 1);
    if |name| > 1 {
      assert !WordByte(name[0]);
      WordFound(s, c + 1, name[1..]);
    }
  }

  lemma ParamScans(s: string, c: nat, name: string, param: string, rest: Continuation)
    requires ReadsOn(s, rest) && IsWord(param) && Reads(s, c, "(" + (param + ")"))
    ensures rest(c, Separator(name, [])) == rest(c + |param| + 2, Separator(name, [param]))
  {
    ReadsThree(s, c, "(", param, ")");
    assert s[c + 0] == "("[0];
    assert s[c + 1 + |param| + 0] == ")"[0];
    WordFound(s, c + 1, param);
    ScanPiece(s, c, Separator(name, []), rest);
    assert [] + [param] == [param];
  }

  lemma ArrowScansOn(s: string, c: nat, name: string, params: seq<string>, rest: Continuation)
    requires ReadsOn(s, rest) && Reads(s, c, "<-")
    ensures rest(c, Separator(name, params)) == rest(c + 2, Definition(name, params, [], 0, false))
  {
    assert s[c + 0] == "<-"[0] && s[c + 1] == "<-"[1];
    ScanPiece(s, c, Separator(name, params), rest);
  }

  /** The name with the gaps around it. */
  lemma NamePartScans(s: string, c: nat, r: LaidRule, rest: Continuation)
    requires ReadsOn(s, rest) && IsHead(r) && Reads(s, c, NameText(r))
    requires c + |NameText(r)| < |s| && !WordByte(s[c + |NameText(r)|])
    ensures rest(c, RuleName) == rest(c + |NameText(r)|, Separator(r.name, []))
  {
    var before, after := GapText(r.before), GapText(r.after);
    ReadsThree(s, c, before, r.name, after);
    if r.after != [] {
      GapNoWord(s, c + |before| + |r.name|, r.after);
    }
    GapSkips(s, c, r.before, RuleName, rest);
    NameScansOn(s, c + |before|, r.name, rest);
    GapSkips(s, c + |before| + |r.name|, r.after, Separator(r.name, []), rest);
  }

  /** The parameter, if there is one, and the arrow. */
  lemma ArrowPartScans(s: string, c: nat, r: LaidRule, rest: Continuation)
    requires ReadsOn(s, rest) && IsHead(r) && Reads(s, c, ArrowText(r))
    ensures c < |s| && !WordByte(s[c])
    ensures rest(c, Separator(r.name, [])) == rest(c + |ArrowText(r)|, Start(r))
  {
    var gap := GapText(r.beforeArrow);
    ReadsThree(s, c, r.bracket, gap, "<-");
    var m := c + |r.bracket| + |gap|;
    if r.params == [] {
      assert s[m + 0] == "<-"[0] && gap == "";
    } else {
      assert s[c + 0] == r.bracket[0] && r.params == [r.params[0]];
      ParamScans(s, c, r.name, r.params[0], rest);
      GapSkips(s, c + |r.bracket|, r.beforeArrow, Separator(r.name, r.params), rest);
    }
    ArrowScansOn(s, m, r.name, r.params, rest);
  }

  /** The blanks and the comment behind the last token. */
  lemma TailSkips(s: string, c: nat, r: LaidRule, st: ScanState, rest: Continuation)
    requires ReadsOn(s, rest) && IsTail(r) && Reads(s, c, TailText(r))
    requires r.newline == "" ==> c + |TailText(r)| == |s|
    ensures rest(c, st) == rest(c + |TailText(r)| - |r.newline|, st)
    ensures r.newline != "" ==> EndsLine(s[c + |TailText(r)| - 1])
  {
    var gap := GapText(r.blanks);
    ReadsThree(s, c, gap, r.comment, r.newline);
    GapSkips(s, c, r.blanks, st, rest);
    if r.newline != "" {
      assert s[c + |gap| + |r.comment| + 0] == r.newline[0];
    }
    if r.comment != "" {
      CommentSkips(s, c + |gap|, r.comment, st, rest);
    }
  }

  /** A rule's tokens, built and added under its name, or nothing where they make no expression or
      the name is taken. */
  function WithLaid(l: Loaded, r: LaidRule): Option<Loaded> {
    match Build(TokensOf(r.body))
    case Err(_) => None
    case Ok(e, _) =>
      if Lower(r.name) in l.rules then None
      else Some(Loaded(l.rules[Lower(r.name) := Rule(r.name, r.params, e)], l.names + [r.name]))
  }

  /** Where a rule's tokens stand. */
  function BodyStart(c: nat, r: LaidRule): nat { c + |NameText(r)| + |ArrowText(r)| }

  /** A rule laid out in the text: its head, its tokens and its end. */
  ghost predicate RuleLaidOut(s: string, c: nat, r: LaidRule) {
    && IsHead(r) && IsTail(r) && Whole(r) && Reads(s, c, LaidRuleText(r))
    && LaidOut(s, BodyStart(c, r), r.body, Start(r))
    && (r.newline == "" ==> c + |LaidRuleText(r)| == |s|)
  }

  lemma WholeRule(r: LaidRule)
    requires Whole(r)
    ensures TookAll(Start(r), r.body) == Defined(r)
  {
    TookTokens(Start(r), r.body);
    assert [] + TokensOf(r.body) == TokensOf(r.body);
  }

  /** The four parts of a rule's text. */
  lemma RuleParts(s: string, c: nat, a: string, b: string, d: string, e: string)
    requires Reads(s, c, a + (b + (d + e)))
    ensures Reads(s, c, a) && Reads(s, c + |a|, b)
    ensures Reads(s, c + |a| + |b|, d) && Reads(s, c + |a| + |b| + |d|, e)
  {
    ReadsThree(s, c, a, b, d + e);
    ReadsSplit(s, c + |a| + |b|, d, e);
  }

  lemma HeadScansOn(s: string, c: nat, r: LaidRule, rest: Continuation)
    requires ReadsOn(s, rest) && IsHead(r) && Reads(s, c, NameText(r)) && Reads(s, c + |NameText(r)|, ArrowText(r))
    ensures rest(c, RuleName) == rest(BodyStart(c, r), Start(r))
  {
    ArrowPartScans(s, c + |NameText(r)|, r, rest);
    NamePartScans(s, c, r, rest);
  }

  lemma BodyScans(s: string, c: nat, r: LaidRule, rest: Continuation)
    requires ReadsOn(s, rest) && Whole(r) && Reads(s, c, LaidText(r.body)) && LaidOut(s, c, r.body, Start(r))
    ensures rest(c, Start(r)) == rest(c + |LaidText(r.body)|, Defined(r))
  {
    LaidScans(s, c, r.body, Start(r), rest);
    WholeRule(r);
  }

  lemma {:induction false} RuleScansOn(s: string, c: nat, r: LaidRule, m: nat, rest: Continuation)
    requires ReadsOn(s, rest) && IsHead(r) && IsTail(r) && Whole(r) && LaidOut(s, BodyStart(c, r), r.body, Start(r))
    requires Reads(s, c, NameText(r)) && Reads(s, c + |NameText(r)|, ArrowText(r))
    requires Reads(s, BodyStart(c, r), LaidText(r.body)) && m == BodyStart(c, r) + |LaidText(r.body)|
    requires Reads(s, m, TailText(r)) && (r.newline == "" ==> m + |TailText(r)| == |s|)
    ensures rest(c, RuleName) == rest(m + |TailText(r)| - |r.newline|, Defined(r))
    ensures r.newline != "" ==> EndsLine(s[m + |TailText(r)| - 1])
  {
    HeadScansOn(s, c, r, rest);
    BodyScans(s, BodyStart(c, r), r, rest);
    TailSkips(s, m, r, Defined(r), rest);
  }

  /** A rule read up to its line end. */
  lemma {:induction false} RuleReadsOn(s: string, c: nat, r: LaidRule, rest: Continuation) returns (end: nat)
    requires ReadsOn(s, rest) && RuleLaidOut(s, c, r)
    ensures end <= |s| && rest(c, RuleName) == rest(end, Defined(r))
    ensures end + |r.newline| == c + |LaidRuleText(r)| && (r.newline == "" ==> end == |s|)
    ensures r.newline != "" ==> end < |s| && EndsLine(s[end]) && |r.newline| == 1
  {
    var m := BodyStart(c, r) + |LaidText(r.body)|;
    RuleParts(s, c, NameText(r), ArrowText(r), LaidText(r.body), TailText(r));
    RuleScansOn(s, c, r, m, rest);
    end := m + |TailText(r)| - |r.newline|;
  }

  lemma {:induction false} RuleToEnd(s: string, c: nat, r: LaidRule, l: Loaded) returns (end: nat)
    requires RuleLaidOut(s, c, r)
    ensures end <= |s| && Scan(s, c, RuleName, l) == Scan(s, end, Defined(r), l)
    ensures end + |r.newline| == c + |LaidRuleText(r)| && (r.newline == "" ==> end == |s|)
    ensures r.newline != "" ==> end < |s| && EndsLine(s[end]) && |r.newline| == 1
  {
    var rest := LoadingReadsOn(s, l);
    end := RuleReadsOn(s, c, r, rest);
  }

  lemma LineEnds(s: string, c: nat, r: LaidRule, l: Loaded)
    requires c < |s| && EndsLine(s[c]) && r.body != []
    ensures Scan(s, c, Defined(r), l) ==
      match WithLaid(l, r) case None => None case Some(more) => Scan(s, c + 1, RuleName, more)
  {
  }

  lemma TextEnds(s: string, r: LaidRule, l: Loaded)
    requires r.body != []
    ensures Scan(s, |s|, Defined(r), l) == WithLaid(l, r)
    ensures Scan(s, |s|, RuleName, l) == Some(l)
  {
  }

  /** However a rule is laid out, it is loaded as one rule more: of its name, its parameter and the
      expression of its tokens. */
  lemma {:induction false} LaidRuleLoads(s: string, c: nat, r: LaidRule, l: Loaded)
    requires RuleLaidOut(s, c, r)
    ensures Scan(s, c, RuleName, l) ==
      match WithLaid(l, r) case None => None case Some(more) => Scan(s, c + |LaidRuleText(r)|, RuleName, more)
  {
    var end := RuleToEnd(s, c, r, l);
    if r.newline != "" {
      LineEnds(s, end, r, l);
    } else {
      TextEnds(s, r, l);
      if WithLaid(l, r).Some? {
        TextEnds(s, r, WithLaid(l, r).value);
      }
    }
  }

  // ----- a whole grammar -----

  function GrammarLayout(rs: seq<LaidRule>, last: seq<string>): string {
    if rs == [] then GapText(last) else LaidRuleText(rs[0]) + GrammarLayout(rs[1..], last)
  }

  ghost predicate AllLaidOut(s: string, c: nat, rs: seq<LaidRule>, last: seq<string>)
    decreases |rs|
  {
    if rs == [] then IsGap(last)
    else RuleLaidOut(s, c, rs[0]) && AllLaidOut(s, c + |LaidRuleText(rs[0])|, rs[1..], last)
  }

  function WithAllLaid(l: Loaded, rs: seq<LaidRule>): Option<Loaded>
    decreases |rs|
  {
    if rs == [] then Some(l)
    else match WithLaid(l, rs[0])
      case None => None
      case Some(more) => WithAllLaid(more, rs[1..])
  }

  /** `loaded` is what reading on from c gives. */
  lemma {:induction false} LaidLoads(s: string, c: nat, rs: seq<LaidRule>, last: seq<string>, text: string, l: Loaded,
                                     loaded: Option<Loaded>)
    requires text == GrammarLayout(rs, last) && Reads(s, c, text) && c + |text| == |s| && AllLaidOut(s, c, rs, last)
    requires loaded == Scan(s, c, RuleName, l)
    ensures loaded == WithAllLaid(l, rs)
    decreases |rs|
  {
    if rs == [] {
      GapAtEnd(s, c, last, l);
    } else {
      var p := FirstOfLayout(s, c, rs, last, text);
      var more := FirstLoads(s, c, rs[0], p, l, loaded);
      if more.Some? {
        LaidLoads(s, p, rs[1..], last, GrammarLayout(rs[1..], last), more.value, loaded);
      }
    }
  }

  lemma {:induction false} FirstOfLayout(s: string, c: nat, rs: seq<LaidRule>, last: seq<string>, text: string)
    returns (p: nat)
    requires rs != [] && text == GrammarLayout(rs, last) && Reads(s, c, text) && c + |text| == |s|
    requires AllLaidOut(s, c, rs, last)
    ensures p == c + |LaidRuleText(rs[0])| && RuleLaidOut(s, c, rs[0]) && AllLaidOut(s, p, rs[1..], last)
    ensures Reads(s, p, GrammarLayout(rs[1..], last)) && p + |GrammarLayout(rs[1..], last)| == |s|
  {
    p := c + |LaidRuleText(rs[0])|;
    FirstLaidOut(s, c, rs, last);
    LayoutFirst(rs, last);
    ReadsBehind(s, c, LaidRuleText(rs[0]), GrammarLayout(rs[1..], last), text);
  }

  lemma {:induction false} LayoutFirst(rs: seq<LaidRule>, last: seq<string>)
    requires rs != []
    ensures GrammarLayout(rs, last) == LaidRuleText(rs[0]) + GrammarLayout(rs[1..], last)
  {
  }

  lemma {:induction false} ReadsBehind(s: string, c: nat, a: string, b: string, text: string)
    requires text == a + b && Reads(s, c, text)
    ensures Reads(s, c + |a|, b) && |text| == |a| + |b|
  {
    ReadsSplit(s, c, a, b);
  }

  lemma {:induction false} FirstLaidOut(s: string, c: nat, rs: seq<LaidRule>, last: seq<string>)
    requires rs != [] && AllLaidOut(s, c, rs, last)
    ensures RuleLaidOut(s, c, rs[0]) && AllLaidOut(s, c + |LaidRuleText(rs[0])|, rs[1..], last)
  {
  }

  lemma {:induction false} FirstLoads(s: string, c: nat, r: LaidRule, p: nat, l: Loaded, loaded: Option<Loaded>)
    returns (more: Option<Loaded>)
    requires RuleLaidOut(s, c, r) && p == c + |LaidRuleText(r)| <= |s| && loaded == Scan(s, c, RuleName, l)
    ensures more == WithLaid(l, r)
    ensures loaded == match more case None => None case Some(x) => Scan(s, p, RuleName, x)
  {
    LaidRuleLoads(s, c, r, l);
    more := WithLaid(l, r);
  }

  lemma GapAtEnd(s: string, c: nat, last: seq<string>, l: Loaded)
    requires IsGap(last) && Reads(s, c, GapText(last)) && c + |GapText(last)| == |s|
    ensures Scan(s, c, RuleName, l) == Some(l)
  {
    var rest := LoadingReadsOn(s, l);
    GapSkips(s, c, last, RuleName, rest);
    assert Scan(s, |s|, RuleName, l) == Some(l);
  }

  /** Loading a grammar text, whatever its spaces, line ends and comments: its rules in order. */
  lemma LaidGrammarLoads(rs: seq<LaidRule>, last: seq<string>)
    requires AllLaidOut(GrammarLayout(rs, last), 0, rs, last)
    ensures Load(GrammarLayout(rs, last)) == WithAllLaid(NOTHING, rs)
  {
    var s := GrammarLayout(rs, last);
    LaidLoads(s, 0, rs, last, s, NOTHING, Load(s));
  }

  // ----- no other tokens -----

  lemma {:induction false} EscapedUpTo(s: string, c: nat)
    requires LiteralEnd(s, c) < |s|
    ensures QuotesEscaped(s[c..LiteralEnd(s, c)])
    decreases |s| - c
  {
    var end := LiteralEnd(s, c);
    if c < end {
      if s[c] == '\\' {
        EscapedUpTo(s, c + 2);
        assert s[c..end][2..] == s[c + 2..end];
      } else {
        EscapedUpTo(s, c + 1);
        assert s[c..end][1..] == s[c + 1..end];
      }
    }
  }

  lemma {:induction false} WordUpTo(s: string, c: nat)
    requires c <= |s|
    ensures forall k :: c <= k < NameEnd(s, c) ==> WordByte(s[k])
    ensures NameEnd(s, c) < |s| ==> !WordByte(s[NameEnd(s, c)])
    decreases |s| - c
  {
    if NameEnd(s, c) > c {
      WordUpTo(s, c + 1);
    }
  }

  lemma {:induction false} ClosedUpTo(s: string, c: nat, k: nat, close: char)
    requires c <= k <= |s| && ClassEnd(s, k, close) < |s|
    ensures ClosesLast(s[c..ClassEnd(s, k, close) + 1], k - c, close)
    decreases |s| - k
  {
    var end := ClassEnd(s, k, close);
    var t := s[c..end + 1];
    assert k < |s| && t[k - c] == s[k];
    if s[k] != close {
      if s[k] == '\\' {
        ClosedUpTo(s, c, if k + 2 <= |s| then k + 2 else k + 1, close);
      } else {
        ClosedUpTo(s, c, k + 1, close);
      }
    }
  }

  /** A token that stands at c, whole: spelled right, or a class that the end of the text leaves
      open. */
  ghost predicate TokenAt(s: string, c: nat, word: string, t: PegToken, brackets: nat) {
    && At(s, c, word) && Apart(t, s, c + |word|) && (t == Op(')') ==> brackets > 0)
    && (Spells(word, t) || OpenClass(s, c, word, t))
  }

  predicate OpenClass(s: string, c: nat, word: string, t: PegToken) {
    t == PegToken(RegexToken, word) && word != "" && (word[0] == '[' || word[0] == '<') && c + |word| == |s|
  }

  /** Every piece of a definition is such a token. */
  lemma PieceIsToken(s: string, c: nat, st: ScanState) returns (t: PegToken, word: string)
    requires c < |s| && st.Definition? && DefinitionPiece(s, c, st).Piece?
    ensures TokenAt(s, c, word, t, st.brackets)
    ensures DefinitionPiece(s, c, st) == Piece(Took(st, t), c + |word|)
  {
    if s[c] == '\'' {
      t, word := QuotedIsToken(s, c, st);
    } else if IsAlphaNumeric(s[c]) {
      t, word := WordIsToken(s, c, st);
    } else if s[c] == '[' || s[c] == '<' {
      t, word := ClassIsToken(s, c, st);
    } else {
      t, word := Op(s[c]), [s[c]];
    }
  }

  lemma QuotedIsToken(s: string, c: nat, st: ScanState) returns (t: PegToken, word: string)
    requires c < |s| && st.Definition? && s[c] == '\'' && DefinitionPiece(s, c, st).Piece?
    ensures TokenAt(s, c, word, t, st.brackets)
    ensures DefinitionPiece(s, c, st) == Piece(Took(st, t), c + |word|)
  {
    var end := LiteralEnd(s, c + 1);
    t, word := PegToken(LiteralToken, s[c + 1..end]), s[c..end + 1];
    EscapedUpTo(s, c + 1);
    assert s[c..end + 1] == "'" + (t.text + "'");
  }

  lemma WordIsToken(s: string, c: nat, st: ScanState) returns (t: PegToken, word: string)
    requires c < |s| && st.Definition? && IsAlphaNumeric(s[c]) && DefinitionPiece(s, c, st).Piece?
    ensures TokenAt(s, c, word, t, st.brackets)
    ensures DefinitionPiece(s, c, st) == Piece(Took(st, t), c + |word|)
  {
    var end := NameEnd(s, c);
    WordUpTo(s, c);
    word := s[c..end];
    if end < |s| && s[end] == '(' {
      t, word := PegToken(FunctionCallToken, s[c..end]), s[c..end + 1];
      assert s[c..end + 1] == t.text + "(";
    } else {
      t := PegToken(ReferenceToken, s[c..end]);
    }
  }

  lemma ClassIsToken(s: string, c: nat, st: ScanState) returns (t: PegToken, word: string)
    requires c < |s| && st.Definition? && (s[c] == '[' || s[c] == '<')
    ensures TokenAt(s, c, word, t, st.brackets)
    ensures DefinitionPiece(s, c, st) == Piece(Took(st, t), c + |word|)
  {
    var end := ClassEnd(s, c, Closer(s[c]));
    if end < |s| {
      word := s[c..end + 1];
      ClosedUpTo(s, c, c, Closer(s[c]));
    } else {
      word := s[c..end];
    }
    t := PegToken(RegexToken, word);
  }
}
