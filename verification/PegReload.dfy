/** Loading a grammar, printing it and loading it again
    (internal/grammar/parser.go:74-315, internal/grammar/expression.go:45-85). */
module PegReload {
  import opened Tokens
  import opened ByteClasses
  import opened PegGrammar
  import opened PegSyntax
  import opened PegPrinter
  import opened PegText
  import opened PegRoundTrip
  import opened PegRules

  // ----- loaded tokens scan back -----

  /** A loaded token's text, read again, is the same token; an unclosed character class at the
      end of the text is the exception. */
  predicate TokenScans(t: PegToken) {
    match t.kind
    case LiteralToken => LiteralScans(t.text)
    case ReferenceToken => NameScans(t.text)
    case FunctionCallToken => NameScans(t.text)
    case RegexToken => t.text != ""
    case _ => true
  }

  predicate AllScan(ts: seq<PegToken>) { forall i :: 0 <= i < |ts| ==> TokenScans(ts[i]) }

  lemma {:induction false} LiteralCut(s: string, c: nat, end: nat, k: nat)
    requires LiteralEnd(s, k) == end && c <= k <= end < |s|
    ensures LiteralEnd(s[c..end] + "'", k - c) == end - c
    decreases end - k
  {
    var t := s[c..end] + "'";
    if k < end {
      assert t[k - c] == s[k];
      LiteralCut(s, c, end, if s[k] == '\\' then k + 2 else k + 1);
    }
  }

  lemma {:induction false} NameCut(s: string, c: nat)
    requires c <= |s|
    ensures forall i :: c <= i < NameEnd(s, c) ==> IsAlphaNumeric(s[i])
    decreases |s| - c
  {
    if c < |s| && IsAlphaNumeric(s[c]) {
      NameCut(s, c + 1);
    }
  }

  lemma PieceScans(s: string, c: nat, st: ScanState)
    requires c < |s| && st.Definition? && AllScan(st.tokens) && DefinitionPiece(s, c, st).Piece?
    ensures DefinitionPiece(s, c, st).st.Definition? && AllScan(DefinitionPiece(s, c, st).st.tokens)
  {
    if s[c] == '\'' {
      LiteralCut(s, c + 1, LiteralEnd(s, c + 1), c + 1);
    } else if IsAlphaNumeric(s[c]) {
      NameCut(s, c);
    }
  }

  // ----- expressions of such tokens -----

  /** Every literal and name of e is one the scanner would read whole. */
  predicate WordsScan(e: Expr) {
    match e
    case Literal(t) => LiteralScans(t)
    case Reference(name) => NameScans(name)
    case Regex(t) => t != ""
    case Call(name, arg) => NameScans(name) && WordsScan(arg)
    case Sequence(cs) => forall i :: 0 <= i < |cs| ==> WordsScan(cs[i])
    case Choice(cs) => forall i :: 0 <= i < |cs| ==> WordsScan(cs[i])
    case Optional(c) => WordsScan(c)
    case Repeat(c) => WordsScan(c)
    case OptionalRepeat(c) => WordsScan(c)
  }

  /** Every character class of e is closed. */
  predicate ClassesClosed(e: Expr) {
    match e
    case Regex(t) => ClassScans(t)
    case Call(_, arg) => ClassesClosed(arg)
    case Sequence(cs) => forall i :: 0 <= i < |cs| ==> ClassesClosed(cs[i])
    case Choice(cs) => forall i :: 0 <= i < |cs| ==> ClassesClosed(cs[i])
    case Optional(c) => ClassesClosed(c)
    case Repeat(c) => ClassesClosed(c)
    case OptionalRepeat(c) => ClassesClosed(c)
    case _ => true
  }

  lemma {:induction false} ScannableParts(e: Expr)
    ensures Scannable(e) <==> WordsScan(e) && ClassesClosed(e)
  {
    match e
    case Call(_, arg) => ScannableParts(arg);
    case Sequence(cs) =>
      forall i | 0 <= i < |cs|
        ensures Scannable(cs[i]) <==> WordsScan(cs[i]) && ClassesClosed(cs[i])
      {
        ScannableParts(cs[i]);
      }
    case Choice(cs) =>
      forall i | 0 <= i < |cs|
        ensures Scannable(cs[i]) <==> WordsScan(cs[i]) && ClassesClosed(cs[i])
      {
        ScannableParts(cs[i]);
      }
    case Optional(c) => ScannableParts(c);
    case Repeat(c) => ScannableParts(c);
    case OptionalRepeat(c) => ScannableParts(c);
    case _ =>
  }

  lemma {:induction false} ChoiceWords(ts: seq<PegToken>, pos: nat)
    requires AllScan(ts) && pos <= |ts| && ParseChoice(ts, pos).Ok?
    ensures WordsScan(ParseChoice(ts, pos).value)
    decreases |ts| - pos, 5
  {
    SequenceWords(ts, pos);
    var p := ParseSequence(ts, pos).pos;
    if IsOp(ts, p, '/') {
      AlternativesWords(ts, p);
    }
  }

  lemma {:induction false} AlternativesWords(ts: seq<PegToken>, pos: nat)
    requires AllScan(ts) && pos <= |ts| && ParseAlternatives(ts, pos).Ok?
    ensures forall i :: 0 <= i < |ParseAlternatives(ts, pos).value| ==> WordsScan(ParseAlternatives(ts, pos).value[i])
    decreases |ts| - pos, 4
  {
    if IsOp(ts, pos, '/') {
      SequenceWords(ts, pos + 1);
      AlternativesWords(ts, ParseSequence(ts, pos + 1).pos);
    }
  }

  lemma {:induction false} SequenceWords(ts: seq<PegToken>, pos: nat)
    requires AllScan(ts) && pos <= |ts| && ParseSequence(ts, pos).Ok?
    ensures WordsScan(ParseSequence(ts, pos).value)
    decreases |ts| - pos, 3
  {
    ItemsWords(ts, pos);
  }

  lemma {:induction false} ItemsWords(ts: seq<PegToken>, pos: nat)
    requires AllScan(ts) && pos <= |ts| && ParseItems(ts, pos).Ok?
    ensures forall i :: 0 <= i < |ParseItems(ts, pos).value| ==> WordsScan(ParseItems(ts, pos).value[i])
    decreases |ts| - pos, 2
  {
    if !SequenceStops(ts, pos) {
      PostfixWords(ts, pos);
      ItemsWords(ts, ParsePostfix(ts, pos).pos);
    }
  }

  lemma {:induction false} PostfixWords(ts: seq<PegToken>, pos: nat)
    requires AllScan(ts) && pos <= |ts| && ParsePostfix(ts, pos).Ok?
    ensures WordsScan(ParsePostfix(ts, pos).value)
    decreases |ts| - pos, 1
  {
    PrimaryWords(ts, pos);
  }

  lemma {:induction false} PrimaryWords(ts: seq<PegToken>, pos: nat)
    requires AllScan(ts) && pos <= |ts| && ParsePrimary(ts, pos).Ok?
    ensures WordsScan(ParsePrimary(ts, pos).value)
    decreases |ts| - pos, 0
  {
    if IsOp(ts, pos, '(') {
      ChoiceWords(ts, pos + 1);
    } else if IsOp(ts, pos, '!') {
      PrimaryWords(ts, pos + 1);
    } else if ts[pos].kind == FunctionCallToken {
      ChoiceWords(ts, pos + 1);
    }
  }

  // ----- loaded rules -----

  /** A rule whose printed line scans, but for its character classes and an empty body. */
  ghost predicate LoadedRule(r: Rule) {
    && HeadNameScans(r.name) && |r.parameters| <= 1
    && (forall i :: 0 <= i < |r.parameters| ==> NameScans(r.parameters[i]))
    && TopShape(r.expression) && WordsScan(r.expression)
  }

  /** Names in order, each with its rule, no two alike. */
  ghost predicate LoadedWell(l: Loaded) {
    && (forall k :: k in l.rules ==> LoadedRule(l.rules[k]))
    && (forall i :: 0 <= i < |l.names| ==>
      Lower(l.names[i]) in l.rules && l.rules[Lower(l.names[i])].name == l.names[i])
    && (forall i, j :: 0 <= i < j < |l.names| ==> Lower(l.names[i]) != Lower(l.names[j]))
  }

  ghost predicate StateScans(st: ScanState) {
    match st
    case RuleName => true
    case Separator(name, params) => HeadNameScans(name) && |params| <= 1 && forall i :: 0 <= i < |params| ==>
      NameScans(params[i])
    case Definition(name, params, tokens, _, _) =>
      && HeadNameScans(name) && |params| <= 1 && (forall i :: 0 <= i < |params| ==> NameScans(params[i]))
      && AllScan(tokens)
  }

  lemma NextStateScans(s: string, c: nat, st: ScanState)
    requires c < |s| && StateScans(st) && PieceAt(s, c, st).Piece?
    ensures StateScans(PieceAt(s, c, st).st)
  {
    match st
    case RuleName => NameCut(s, if s[c] == '%' then c + 1 else c);
    case Separator(_, _) => NameCut(s, if c + 1 <= |s| then c + 1 else c);
    case Definition(_, _, _, _, _) => PieceScans(s, c, st);
  }

  lemma CompletedWell(l: Loaded, name: string, params: seq<string>, tokens: seq<PegToken>)
    requires LoadedWell(l) && StateScans(Definition(name, params, tokens, 0, false))
    requires Completed(l, name, params, tokens).Some?
    ensures LoadedWell(Completed(l, name, params, tokens).value)
  {
    ChoiceWords(tokens, 0);
  }

  lemma {:induction false} ScanLoadsWell(s: string, c: nat, st: ScanState, l: Loaded)
    requires c <= |s| && LoadedWell(l) && StateScans(st) && Scan(s, c, st, l).Some?
    ensures LoadedWell(Scan(s, c, st, l).value)
    decreases |s| - c
  {
    if c == |s| {
      if st.Definition? {
        CompletedWell(l, st.name, st.params, st.tokens);
      }
    } else if s[c] == '#' {
      ScanLoadsWell(s, CommentEnd(s, c), st, l);
    } else if Completes(s, c, st) {
      CompletedWell(l, st.name, st.params, st.tokens);
      ScanLoadsWell(s, c + 1, RuleName, Completed(l, st.name, st.params, st.tokens).value);
    } else if IsSpace(s[c]) {
      ScanLoadsWell(s, c + 1, st, l);
    } else {
      NextStateScans(s, c, st);
      ScanLoadsWell(s, PieceAt(s, c, st).next, PieceAt(s, c, st).st, l);
    }
  }

  /** The rules of a loaded grammar, in order. */
  ghost function RulesOf(l: Loaded): seq<Rule>
    requires LoadedWell(l)
  {
    seq(|l.names|, i requires 0 <= i < |l.names| => l.rules[Lower(l.names[i])])
  }

  /** For every grammar text that loads: its rules printed, one a line, load again, in the same
      order, each itself up to the groups that do not show; provided no rule prints as nothing
      and every character class is closed. */
  lemma LoadedReloads(s: string)
    requires Load(s).Some?
    ensures LoadedWell(Load(s).value)
    ensures
      var rs := RulesOf(Load(s).value);
      (forall i :: 0 <= i < |rs| ==> ClassesClosed(rs[i].expression) && Text(rs[i].expression, true) != "") ==>
        Load(GrammarText(rs)) == Some(AddAll(NOTHING, rs))
  {
    ScanLoadsWell(s, 0, RuleName, NOTHING);
    var rs := RulesOf(Load(s).value);
    if forall i :: 0 <= i < |rs| ==> ClassesClosed(rs[i].expression) && Text(rs[i].expression, true) != "" {
      forall i | 0 <= i < |rs|
        ensures ScannableRule(rs[i])
      {
        ScannableParts(rs[i].expression);
      }
      GrammarReadsBack(rs);
    }
  }

  // ----- printing again -----

  /** What the round trip takes away was not printed: the text is the same. */
  lemma {:induction false} TextIsStable(e: Expr, top: bool)
    requires TopShape(e)
    ensures Text(Normal(e, top), top) == Text(e, top)
    decreases e, 1
  {
    match e
    case Call(_, arg) =>
      assert PrimaryShape(e);
      TextIsStable(arg, true);
    case Sequence(cs) =>
      PartsAreTop(e);
      if top && LosesGroup(e) {
        TextIsStable(cs[0], false);
        assert cs[1..] == [];
        assert TextAll(cs, " ") == Text(cs[0], false);
        assert PrimaryShape(e);
        BareTextAlike(Normal(cs[0], false));
      } else {
        ItemsTextStable(cs, " ");
      }
    case Choice(cs) =>
      PartsAreTop(e);
      ItemsTextStable(cs, " / ");
    case Optional(c) =>
      PostfixIsTop(c);
      TextIsStable(c, false);
    case Repeat(c) =>
      PostfixIsTop(c);
      TextIsStable(c, false);
    case OptionalRepeat(c) =>
      PostfixIsTop(c);
      TextIsStable(c, false);
    case _ =>
  }

  lemma BareTextAlike(e: Expr)
    requires !e.Sequence? && !e.Choice?
    ensures Text(e, true) == Text(e, false)
  {
  }

  lemma {:induction false} ItemsTextStable(es: seq<Expr>, sep: string)
    requires forall i :: 0 <= i < |es| ==> TopShape(es[i])
    ensures TextAll(NormalAll(es), sep) == TextAll(es, sep) && TextMore(NormalAll(es), sep) == TextMore(es, sep)
    decreases es, 0
  {
    if es != [] {
      TextIsStable(es[0], false);
      ItemsTextStable(es[1..], sep);
      assert NormalAll(es)[1..] == NormalAll(es[1..]);
    }
  }

  /** The second round trip changes nothing. */
  lemma NormalIsStable(e: Expr)
    requires TopShape(e)
    ensures Normal(Normal(e, true), true) == Normal(e, true)
  {
    PrintedReadsBack(e);
    PrintedReadsBack(Normal(e, true));
    PrintingIsStable(e, true);
  }
}
