/** Character classes the grammar text ends inside: where they stand in a loaded rule, and what
    printing the rule and loading it again makes of them (internal/grammar/parser.go:248-269). */
module PegOpenEnds {
  import opened Tokens
  import opened ByteClasses
  import opened PegGrammar
  import opened PegSyntax
  import opened PegPrinter
  import opened PegText
  import opened PegRoundTrip
  import opened PegRules
  import opened PegReload
  import opened PegWeights

  /** A class with no closing bracket. */
  predicate OpenClass(t: string) {
    t != "" && (t[0] == '[' || t[0] == '<') && ClassEnd(t, 0, Closer(t[0])) == |t|
  }

  predicate TokenCloses(t: PegToken) { t.kind == RegexToken ==> ClassScans(t.text) }

  predicate AllClose(ts: seq<PegToken>) { forall i :: 0 <= i < |ts| ==> TokenCloses(ts[i]) }

  /** All tokens close but the last. */
  predicate OpenLast(ts: seq<PegToken>) {
    ts != [] && AllClose(ts[..|ts| - 1]) && ts[|ts| - 1].kind == RegexToken && OpenClass(ts[|ts| - 1].text)
  }

  /** The last thing in e is an open class, and nothing else in e is open. */
  predicate OpenEnd(e: Expr) {
    match e
    case Regex(t) => OpenClass(t)
    case Sequence(cs) => cs != [] && OpenEnd(cs[|cs| - 1]) && forall i :: 0 <= i < |cs| - 1 ==> ClassesClosed(cs[i])
    case Choice(cs) => cs != [] && OpenEnd(cs[|cs| - 1]) && forall i :: 0 <= i < |cs| - 1 ==> ClassesClosed(cs[i])
    case _ => false
  }

  lemma {:induction false} OpenIsNotClosed(e: Expr)
    requires OpenEnd(e)
    ensures !ClassesClosed(e)
  {
    if e.Sequence? || e.Choice? {
      OpenIsNotClosed(e.children[|e.children| - 1]);
    }
  }

  // ----- parsing -----

  predicate AtMostLast(ts: seq<PegToken>) { AllClose(ts) || OpenLast(ts) }

  /** What was parsed up to p: open exactly if it reaches an open last token. */
  predicate EndsAt(ts: seq<PegToken>, p: nat, e: Expr) {
    if OpenLast(ts) && p == |ts| then OpenEnd(e) else ClassesClosed(e)
  }

  predicate AllEndAt(ts: seq<PegToken>, p: nat, es: seq<Expr>) {
    (forall i :: 0 <= i < |es| - 1 ==> ClassesClosed(es[i]))
    && (es != [] ==> EndsAt(ts, p, es[|es| - 1]))
  }

  lemma OneMoreEnds(ts: seq<PegToken>, e: Expr, es: seq<Expr>, p: nat)
    requires if es == [] then EndsAt(ts, p, e) else ClassesClosed(e) && AllEndAt(ts, p, es)
    ensures AllEndAt(ts, p, [e] + es)
  {
    var all := [e] + es;
    forall i | 0 <= i < |all| - 1
      ensures ClassesClosed(all[i])
    {
      assert i > 0 ==> all[i] == es[i - 1];
    }
    if es != [] {
      assert all[|all| - 1] == es[|es| - 1];
    }
  }

  /** An operator is no open class. */
  lemma OperatorCloses(ts: seq<PegToken>, pos: nat)
    requires AtMostLast(ts) && pos < |ts| && ts[pos].kind != RegexToken
    ensures OpenLast(ts) ==> pos + 1 < |ts|
  {
  }

  lemma {:induction false} ChoiceEnds(ts: seq<PegToken>, pos: nat)
    requires AtMostLast(ts) && pos <= |ts| && (OpenLast(ts) ==> pos < |ts|) && ParseChoice(ts, pos).Ok?
    ensures EndsAt(ts, ParseChoice(ts, pos).pos, ParseChoice(ts, pos).value)
    decreases |ts| - pos, 5
  {
    SequenceEnds(ts, pos);
    var first := ParseSequence(ts, pos);
    if IsOp(ts, first.pos, '/') {
      AlternativesEnd(ts, first.pos);
      var rest := ParseAlternatives(ts, first.pos);
      OneMoreEnds(ts, first.value, rest.value, rest.pos);
    }
  }

  lemma {:induction false} AlternativesEnd(ts: seq<PegToken>, pos: nat)
    requires AtMostLast(ts) && pos <= |ts| && ParseAlternatives(ts, pos).Ok?
    ensures AllEndAt(ts, ParseAlternatives(ts, pos).pos, ParseAlternatives(ts, pos).value)
    decreases |ts| - pos, 4
  {
    if IsOp(ts, pos, '/') {
      OperatorCloses(ts, pos);
      SequenceEnds(ts, pos + 1);
      var next := ParseSequence(ts, pos + 1);
      AlternativesEnd(ts, next.pos);
      var rest := ParseAlternatives(ts, next.pos);
      OneMoreEnds(ts, next.value, rest.value, rest.pos);
    }
  }

  lemma {:induction false} SequenceEnds(ts: seq<PegToken>, pos: nat)
    requires AtMostLast(ts) && pos <= |ts| && (OpenLast(ts) ==> pos < |ts|) && ParseSequence(ts, pos).Ok?
    ensures EndsAt(ts, ParseSequence(ts, pos).pos, ParseSequence(ts, pos).value)
    decreases |ts| - pos, 3
  {
    ItemsEnd(ts, pos);
  }

  lemma {:induction false} ItemsEnd(ts: seq<PegToken>, pos: nat)
    requires AtMostLast(ts) && pos <= |ts| && ParseItems(ts, pos).Ok?
    ensures AllEndAt(ts, ParseItems(ts, pos).pos, ParseItems(ts, pos).value)
    ensures OpenLast(ts) && pos < |ts| && ParseItems(ts, pos).pos == |ts| ==> ParseItems(ts, pos).value != []
    decreases |ts| - pos, 2
  {
    if !SequenceStops(ts, pos) {
      PostfixEnds(ts, pos);
      var item := ParsePostfix(ts, pos);
      ItemsEnd(ts, item.pos);
      var rest := ParseItems(ts, item.pos);
      OneMoreEnds(ts, item.value, rest.value, rest.pos);
    }
  }

  lemma {:induction false} PostfixEnds(ts: seq<PegToken>, pos: nat)
    requires AtMostLast(ts) && pos <= |ts| && ParsePostfix(ts, pos).Ok?
    ensures EndsAt(ts, ParsePostfix(ts, pos).pos, ParsePostfix(ts, pos).value)
    decreases |ts| - pos, 1
  {
    PrimaryEnds(ts, pos);
    var p := ParsePrimary(ts, pos).pos;
    if IsOp(ts, p, '?') || IsOp(ts, p, '*') || IsOp(ts, p, '+') {
      OperatorCloses(ts, p);
    }
  }

  lemma {:induction false} PrimaryEnds(ts: seq<PegToken>, pos: nat)
    requires AtMostLast(ts) && pos <= |ts| && ParsePrimary(ts, pos).Ok?
    ensures EndsAt(ts, ParsePrimary(ts, pos).pos, ParsePrimary(ts, pos).value)
    decreases |ts| - pos, 0
  {
    if ts[pos].kind != RegexToken {
      OperatorCloses(ts, pos);
    }
    if IsOp(ts, pos, '(') {
      ChoiceEnds(ts, pos + 1);
      OperatorCloses(ts, ParseChoice(ts, pos + 1).pos);
    } else if IsOp(ts, pos, '!') {
      PrimaryEnds(ts, pos + 1);
    } else if ts[pos].kind == FunctionCallToken {
      ChoiceEnds(ts, pos + 1);
      OperatorCloses(ts, ParseChoice(ts, pos + 1).pos);
    } else if ts[pos].kind == RegexToken {
      assert pos < |ts| - 1 ==> ts[..|ts| - 1][pos] == ts[pos];
    }
  }

  /** A rule body is closed, or open at its very end. */
  lemma BuiltEnds(ts: seq<PegToken>)
    requires ts != [] && AtMostLast(ts) && Build(ts).Ok?
    ensures EndsAt(ts, |ts|, Build(ts).value)
  {
    ChoiceEnds(ts, 0);
  }

  // ----- loading -----

  lemma {:induction false} ClosedCut(s: string, c: nat, k: nat, close: char)
    requires c <= k <= |s| && ClassEnd(s, k, close) < |s|
    ensures
      var end := ClassEnd(s, k, close);
      ClassEnd(s[c..end + 1], k - c, close) == end - c
    decreases |s| - k
  {
    var end := ClassEnd(s, k, close);
    if k < end {
      assert s[c..end + 1][k - c] == s[k];
      ClosedCut(s, c, if s[k] == '\\' then k + 2 else k + 1, close);
    }
  }

  lemma {:induction false} OpenCut(s: string, c: nat, k: nat, close: char)
    requires c <= k <= |s| && ClassEnd(s, k, close) == |s|
    ensures ClassEnd(s[c..], k - c, close) == |s| - c
    decreases |s| - k
  {
    if k < |s| {
      assert s[c..][k - c] == s[k];
      OpenCut(s, c, if s[k] != '\\' then k + 1 else if k + 2 <= |s| then k + 2 else k + 1, close);
    }
  }

  /** Only a token that reaches the end of the text is open. */
  ghost predicate TokensAt(s: string, c: nat, st: ScanState) {
    st.Definition? ==> AllClose(st.tokens) || (c == |s| && OpenLast(st.tokens))
  }

  lemma PieceCloses(s: string, c: nat, st: ScanState)
    requires c < |s| && TokensAt(s, c, st) && PieceAt(s, c, st).Piece?
    ensures TokensAt(s, PieceAt(s, c, st).next, PieceAt(s, c, st).st)
  {
    if st.Definition? {
      var t := PieceAt(s, c, st).st.tokens;
      assert t == st.tokens + [t[|t| - 1]] && t[..|t| - 1] == st.tokens;
      if s[c] == '[' || s[c] == '<' {
        if ClassEnd(s, c, Closer(s[c])) < |s| {
          ClosedCut(s, c, c, Closer(s[c]));
        } else {
          OpenCut(s, c, c, Closer(s[c]));
          assert s[c..|s|] == s[c..];
        }
      }
      if TokenCloses(t[|t| - 1]) {
        assert AllClose(t);
      }
    }
  }

  ghost predicate AllRulesClosed(l: Loaded) { forall k :: k in l.rules ==> ClassesClosed(l.rules[k].expression) }

  /** Every rule is closed, but the last may be open at its end. */
  ghost predicate OpenAtMostLast(l: Loaded) {
    forall k :: k in l.rules ==>
      || ClassesClosed(l.rules[k].expression)
      || (l.names != [] && k == Lower(l.names[|l.names| - 1]) && OpenEnd(l.rules[k].expression))
  }

  lemma CompletedCloses(l: Loaded, name: string, params: seq<string>, tokens: seq<PegToken>)
    requires AllRulesClosed(l) && tokens != [] && AtMostLast(tokens) && Completed(l, name, params, tokens).Some?
    ensures OpenAtMostLast(Completed(l, name, params, tokens).value)
    ensures AllClose(tokens) ==> AllRulesClosed(Completed(l, name, params, tokens).value)
  {
    BuiltEnds(tokens);
    if AllClose(tokens) {
      ClosedIsNotOpen(tokens);
    }
  }

  lemma ClosedIsNotOpen(ts: seq<PegToken>)
    requires AllClose(ts)
    ensures !OpenLast(ts)
  {
    if ts != [] {
      assert TokenCloses(ts[|ts| - 1]);
    }
  }

  lemma {:induction false} ScanCloses(s: string, c: nat, st: ScanState, l: Loaded)
    requires c <= |s| && TokensAt(s, c, st) && AllRulesClosed(l) && Scan(s, c, st, l).Some?
    ensures OpenAtMostLast(Scan(s, c, st, l).value)
    decreases |s| - c
  {
    if c == |s| {
      if st.Definition? {
        CompletedCloses(l, st.name, st.params, st.tokens);
      }
    } else if s[c] == '#' {
      ScanCloses(s, CommentEnd(s, c), st, l);
    } else if Completes(s, c, st) {
      CompletedCloses(l, st.name, st.params, st.tokens);
      ScanCloses(s, c + 1, RuleName, Completed(l, st.name, st.params, st.tokens).value);
    } else if IsSpace(s[c]) {
      ScanCloses(s, c + 1, st, l);
    } else {
      PieceCloses(s, c, st);
      ScanCloses(s, PieceAt(s, c, st).next, PieceAt(s, c, st).st, l);
    }
  }

  // ----- scanning a printed open class -----

  /** Behind a printed open class come only closing parentheses and the newline. */
  predicate OnlyEnds(s: string, p: nat) {
    p < |s| && forall i :: p <= i < |s| ==> s[i] == ')' || s[i] == '\n'
  }

  lemma {:induction false} NoCloser(s: string, p: nat, close: char)
    requires p <= |s| && close != ')' && close != '\n' && forall i :: p <= i < |s| ==> s[i] == ')' || s[i] == '\n'
    ensures ClassEnd(s, p, close) == |s|
    decreases |s| - p
  {
    if p < |s| {
      NoCloser(s, p + 1, close);
    }
  }

  /** The class reads on to the end of the text. */
  lemma {:induction false} OpenRuns(s: string, c: nat, t: string, close: char, k: nat)
    requires At(s, c, t) && k <= |t| && ClassEnd(t, k, close) == |t| && OnlyEnds(s, c + |t|)
    requires close == ']' || close == '>'
    ensures ClassEnd(s, c + k, close) == |s|
    decreases |t| - k
  {
    if k == |t| {
      NoCloser(s, c + k, close);
    } else {
      assert s[c + k] == s[c..c + |t|][k] == t[k];
      if t[k] == '\\' && k + 2 > |t| {
        NoCloser(s, c + k + 2, close);
      } else {
        OpenRuns(s, c, t, close, if t[k] == '\\' then k + 2 else k + 1);
      }
    }
  }

  /** A state that went on from another: the same rule, more tokens. */
  ghost predicate Later(st: ScanState, st': ScanState) {
    st.Definition? && st'.Definition? && st'.name == st.name && st'.params == st.params
    && st.tokens <= st'.tokens
  }

  /** A later state whose new tokens hold more text than `size`. */
  ghost predicate Heavier(st: ScanState, st': ScanState, size: nat) {
    Later(st, st') && Weight(st'.tokens) > Weight(st.tokens) + size
  }

  lemma FurtherWeighs(st: ScanState, e: Expr, top: bool)
    requires st.Definition?
    ensures Later(st, Further(st, Print(e, top)))
    ensures Weight(Further(st, Print(e, top)).tokens) == Weight(st.tokens) + Held(e)
  {
    PrintWeighs(e, top);
    WeightJoins(st.tokens, Print(e, top));
    assert st.tokens + [] == st.tokens;
  }

  lemma OperatorWeighs(ts: seq<PegToken>, t: PegToken)
    ensures Weight(ts + [t]) == Weight(ts) + TokenWeight(t)
  {
    assert (ts + [t])[..|ts|] == ts;
  }

  lemma OpenClassScans(s: string, c: nat, t: string, st: ScanState, rest: Continuation) returns (last: ScanState)
    requires Agrees(s, rest) && st.Definition?
    requires OpenClass(t) && At(s, c, t) && OnlyEnds(s, c + |t|)
    ensures rest(c, st) == rest(|s|, last) && Heavier(st, last, |t|)
  {
    OpenRuns(s, c, t, Closer(t[0]), 0);
    assert s[c] == s[c..c + |t|][0] == t[0];
    StepPiece(s, c, st, rest);
    last := DefinitionPiece(s, c, st).st;
    assert last.tokens == st.tokens + [PegToken(RegexToken, s[c..|s|])];
    OperatorWeighs(st.tokens, PegToken(RegexToken, s[c..|s|]));
  }

  /** A printed expression that is open at its end swallows the text: the tokens hold more text
      than the expression did. */
  lemma {:induction false} OpenScans(s: string, c: nat, e: Expr, top: bool, text: string, st: ScanState,
                                     rest: Continuation)
    returns (last: ScanState)
    requires Agrees(s, rest) && st.Definition? && WordsScan(e) && OpenEnd(e)
    requires text == Text(e, top) && At(s, c, text) && OnlyEnds(s, c + |text|)
    ensures rest(c, st) == rest(|s|, last) && Heavier(st, last, Held(e))
    decreases e, 1
  {
    match e
    case Regex(t) => last := OpenClassScans(s, c, t, st, rest);
    case Sequence(cs) => last := OpenGroupScans(s, c, cs, false, top, st, rest);
    case Choice(cs) => last := OpenGroupScans(s, c, cs, true, top, st, rest);
  }

  predicate OpenParts(cs: seq<Expr>) {
    && cs != [] && OpenEnd(cs[|cs| - 1])
    && (forall i :: 0 <= i < |cs| - 1 ==> ClassesClosed(cs[i]))
    && forall i :: 0 <= i < |cs| ==> WordsScan(cs[i])
  }

  lemma {:induction false} OpenGroupScans(s: string, c: nat, cs: seq<Expr>, slash: bool, top: bool, st: ScanState,
                                          rest: Continuation)
    returns (last: ScanState)
    requires Agrees(s, rest) && st.Definition? && OpenParts(cs)
    requires At(s, c, Bracketed(TextAll(cs, Sep(slash)), top))
    requires OnlyEnds(s, c + |Bracketed(TextAll(cs, Sep(slash)), top)|)
    ensures rest(c, st) == rest(|s|, last) && Heavier(st, last, HeldAll(cs))
    decreases cs, 3
  {
    if top {
      last := OpenAllScan(s, c, cs, slash, st, rest);
    } else {
      BracketOpens(s, c, TextAll(cs, Sep(slash)), st, rest);
      last := OpenAllScan(s, c + 1, cs, slash, Opened(st, Op('(')), rest);
    }
  }

  lemma BracketOpens(s: string, c: nat, body: string, st: ScanState, rest: Continuation)
    requires Agrees(s, rest) && st.Definition? && At(s, c, "(" + body + ")") && OnlyEnds(s, c + |"(" + body + ")"|)
    ensures At(s, c + 1, body) && OnlyEnds(s, c + 1 + |body|)
    ensures rest(c, st) == rest(c + 1, Opened(st, Op('(')))
    ensures Later(st, Opened(st, Op('('))) && Weight(Opened(st, Op('(')).tokens) == Weight(st.tokens)
  {
    BracketLayout(s, c, body);
    StepPiece(s, c, st, rest);
    OperatorWeighs(st.tokens, Op('('));
  }

  lemma {:induction false} OpenAllScan(s: string, c: nat, cs: seq<Expr>, slash: bool, st: ScanState, rest: Continuation)
    returns (last: ScanState)
    requires Agrees(s, rest) && st.Definition? && OpenParts(cs)
    requires At(s, c, TextAll(cs, Sep(slash))) && OnlyEnds(s, c + |TextAll(cs, Sep(slash))|)
    ensures rest(c, st) == rest(|s|, last) && Heavier(st, last, HeldAll(cs))
    decreases cs, 2
  {
    if |cs| == 1 {
      assert cs == [cs[0]] + [];
      HeldByMore(cs[0], []);
      assert TextAll(cs, Sep(slash)) == Text(cs[0], false);
      last := OpenScans(s, c, cs[0], false, TextAll(cs, Sep(slash)), st, rest);
    } else {
      ScannableParts(cs[0]);
      var p, middle := FirstScans(s, c, cs, slash, st, rest);
      FurtherWeighs(st, cs[0], false);
      OpenRest(cs);
      last := OpenMoreScan(s, p, cs[1..], slash, middle, rest);
    }
  }

  lemma OpenRest(cs: seq<Expr>)
    requires OpenParts(cs) && |cs| > 1
    ensures OpenParts(cs[1..])
  {
    assert cs[1..][|cs| - 2] == cs[|cs| - 1];
  }

  lemma {:induction false} OpenMoreScan(s: string, c: nat, cs: seq<Expr>, slash: bool, st: ScanState,
                                        rest: Continuation)
    returns (last: ScanState)
    requires Agrees(s, rest) && st.Definition? && OpenParts(cs)
    requires At(s, c, TextMore(cs, Sep(slash))) && OnlyEnds(s, c + |TextMore(cs, Sep(slash))|)
    ensures rest(c, st) == rest(|s|, last) && Heavier(st, last, HeldAll(cs))
    decreases cs, 2
  {
    if |cs| == 1 {
      assert cs == [cs[0]] + [] == [cs[0]];
      OneTextMore(cs[0], Sep(slash));
      last := OpenLastScan(s, c, cs[0], Text(cs[0], false), slash, st, rest);
      HeldByMore(cs[0], []);
    } else {
      BegunWeighs(st, slash);
      ScannableParts(cs[0]);
      var p, middle := NextScans(s, c, cs, slash, st, rest);
      FurtherWeighs(Begun(st, slash), cs[0], false);
      OpenRest(cs);
      last := OpenMoreScan(s, p, cs[1..], slash, middle, rest);
    }
  }

  /** A separator and the part that is open at its end. */
  lemma {:induction false} OpenLastScan(s: string, c: nat, e: Expr, text: string, slash: bool, st: ScanState,
                                        rest: Continuation)
    returns (last: ScanState)
    requires Agrees(s, rest) && st.Definition? && WordsScan(e) && OpenEnd(e) && text == Text(e, false)
    requires At(s, c, Sep(slash) + text) && OnlyEnds(s, c + |Sep(slash)| + |text|)
    ensures rest(c, st) == rest(|s|, last) && Heavier(st, last, Held(e))
    decreases e, 2
  {
    BegunWeighs(st, slash);
    AtSplit(s, c, Sep(slash), text);
    SeparatorScans(s, c, slash, st, rest);
    last := OpenScans(s, c + |Sep(slash)|, e, false, text, Begun(st, slash), rest);
  }

  lemma OneTextMore(e: Expr, sep: string)
    ensures TextMore([e], sep) == sep + Text(e, false)
  {
    assert [e][1..] == [];
  }

  lemma BegunWeighs(st: ScanState, slash: bool)
    requires st.Definition?
    ensures Later(st, Begun(st, slash)) && Weight(Begun(st, slash).tokens) == Weight(st.tokens)
  {
    OperatorWeighs(st.tokens, Op('/'));
  }
}
