/** Printing a rule's expression as grammar text and loading that text again
    (internal/grammar/expression.go:45-85, internal/grammar/parser.go:133-302). */
module PegRoundTrip {
  import opened Tokens
  import opened ByteClasses
  import opened PegGrammar
  import opened PegSyntax
  import opened PegPrinter
  import opened PegText

  /** write: the printed form of an expression. */
  function Text(e: Expr, top: bool): string
    decreases e, 1
  {
    match e
    case Literal(text) => "'" + text + "'"
    case Reference(name) => name
    case Regex(text) => text
    case Call(name, arg) => name + "(" + Text(arg, true) + ")"
    case Sequence(cs) => Bracketed(TextAll(cs, " "), top)
    case Choice(cs) => Bracketed(TextAll(cs, " / "), top)
    case Optional(c) => Text(c, false) + "?"
    case Repeat(c) => Text(c, false) + "+"
    case OptionalRepeat(c) => Text(c, false) + "*"
  }

  function Bracketed(body: string, top: bool): string {
    if top then body else "(" + body + ")"
  }

  function TextAll(es: seq<Expr>, sep: string): string
    decreases es, 0
  {
    if es == [] then "" else Text(es[0], false) + TextMore(es[1..], sep)
  }

  function TextMore(es: seq<Expr>, sep: string): string
    decreases es, 0
  {
    if es == [] then "" else sep + Text(es[0], false) + TextMore(es[1..], sep)
  }

  class Builder {
    var text: string

    constructor ()
      ensures text == ""
    {
      text := "";
    }

    /** Expression.write (expression.go:53-85). */
    method Write(e: Expr, top: bool)
      modifies this
      ensures text == old(text) + Text(e, top)
      decreases e, 1
    {
      match e
      case Literal(t) => text := text + ("'" + t + "'");
      case Reference(name) => text := text + name;
      case Regex(t) => text := text + t;
      case Call(name, arg) =>
        text := text + (name + "(");
        Write(arg, true);
        text := text + ")";
      case Sequence(cs) => Join(cs, " ", top);
      case Choice(cs) => Join(cs, " / ", top);
      case Optional(c) =>
        Write(c, false);
        text := text + "?";
      case Repeat(c) =>
        Write(c, false);
        text := text + "+";
      case OptionalRepeat(c) =>
        Write(c, false);
        text := text + "*";
    }

    method Join(es: seq<Expr>, sep: string, top: bool)
      modifies this
      ensures text == old(text) + Bracketed(TextAll(es, sep), top)
      decreases es, 0
    {
      if !top {
        text := text + "(";
      }
      ghost var start := text;
      for i := 0 to |es|
        invariant text == start + TextAll(es[..i], sep)
      {
        TextAllGrows(es, sep, i);
        if i > 0 {
          text := text + sep;
        }
        Write(es[i], false);
      }
      assert es[..|es|] == es;
      if !top {
        text := text + ")";
      }
    }
  }

  lemma {:induction false} TextMoreGrows(es: seq<Expr>, sep: string, i: nat)
    requires i < |es|
    ensures TextMore(es[..i + 1], sep) == TextMore(es[..i], sep) + sep + Text(es[i], false)
    decreases |es|
  {
    if i == 0 {
      assert es[..1] == [es[0]] && es[..0] == [];
      assert es[..1][1..] == [];
    } else {
      TextMoreGrows(es[1..], sep, i - 1);
      assert es[..i + 1][1..] == es[1..][..i] && es[..i][1..] == es[1..][..i - 1];
    }
  }

  lemma TextAllGrows(es: seq<Expr>, sep: string, i: nat)
    requires i < |es|
    ensures TextAll(es[..i + 1], sep) == TextAll(es[..i], sep) + (if i > 0 then sep else "") + Text(es[i], false)
  {
    if i == 0 {
      assert es[..1] == [es[0]] && es[..1][1..] == [];
    } else {
      TextMoreGrows(es[1..], sep, i - 1);
      FirstOfPrefix(es, sep, i);
      FirstOfPrefix(es, sep, i + 1);
    }
  }

  lemma FirstOfPrefix(es: seq<Expr>, sep: string, n: nat)
    requires 0 < n <= |es|
    ensures TextAll(es[..n], sep) == Text(es[0], false) + TextMore(es[1..][..n - 1], sep)
  {
    assert es[..n][1..] == es[1..][..n - 1];
  }

  // ----- texts that scan back -----

  predicate LiteralScans(t: string) { LiteralEnd(t + "'", 0) == |t| }

  predicate NameScans(t: string) { t != "" && forall i :: 0 <= i < |t| ==> IsAlphaNumeric(t[i]) }

  predicate ClassScans(t: string) {
    t != "" && (t[0] == '[' || t[0] == '<') && ClassEnd(t, 0, Closer(t[0])) == |t| - 1
  }

  /** Every literal, name and character class of e is one the scanner would read whole. */
  predicate Scannable(e: Expr) {
    match e
    case Literal(t) => LiteralScans(t)
    case Reference(name) => NameScans(name)
    case Regex(t) => ClassScans(t)
    case Call(name, arg) => NameScans(name) && Scannable(arg)
    case Sequence(cs) => forall i :: 0 <= i < |cs| ==> Scannable(cs[i])
    case Choice(cs) => forall i :: 0 <= i < |cs| ==> Scannable(cs[i])
    case Optional(c) => Scannable(c)
    case Repeat(c) => Scannable(c)
    case OptionalRepeat(c) => Scannable(c)
  }

  lemma {:induction false} LiteralFound(s: string, c: nat, t: string, k: nat)
    requires At(s, c, t + "'") && k <= |t| && LiteralEnd(t + "'", k) == |t|
    ensures LiteralEnd(s, c + k) == c + |t|
    decreases |t| - k
  {
    var quoted := t + "'";
    assert s[c + k] == s[c..c + |quoted|][k] == quoted[k];
    if k < |t| {
      if quoted[k] == '\\' {
        LiteralFound(s, c, t, k + 2);
      } else {
        LiteralFound(s, c, t, k + 1);
      }
    }
  }

  lemma {:induction false} ClassFound(s: string, c: nat, t: string, close: char, k: nat)
    requires At(s, c, t) && k < |t| && ClassEnd(t, k, close) == |t| - 1
    ensures ClassEnd(s, c + k, close) == c + |t| - 1
    decreases |t| - k
  {
    assert s[c + k] == s[c..c + |t|][k] == t[k];
    if t[k] != close {
      if t[k] == '\\' {
        ClassFound(s, c, t, close, if k + 2 <= |t| then k + 2 else k + 1);
      } else {
        ClassFound(s, c, t, close, k + 1);
      }
    }
  }

  lemma {:induction false} NameFound(s: string, c: nat, t: string, k: nat)
    requires At(s, c, t) && k <= |t| && forall i :: 0 <= i < |t| ==> IsAlphaNumeric(t[i])
    requires c + |t| < |s| ==> !IsAlphaNumeric(s[c + |t|])
    ensures NameEnd(s, c + k) == c + |t|
    decreases |t| - k
  {
    if k < |t| {
      assert s[c + k] == s[c..c + |t|][k] == t[k];
      NameFound(s, c, t, k + 1);
    }
  }

  // ----- scanning printed text -----

  ghost predicate At(s: string, c: nat, part: string) {
    c + |part| <= |s| && s[c..c + |part|] == part
  }

  lemma AtSplit(s: string, c: nat, a: string, b: string)
    requires At(s, c, a + b)
    ensures At(s, c, a) && At(s, c + |a|, b)
  {
    var whole := s[c..c + |a| + |b|];
    assert s[c..c + |a|] == whole[..|a|] == a;
    assert s[c + |a|..c + |a| + |b|] == whole[|a|..] == b;
  }

  lemma AtOne(s: string, c: nat, x: char)
    requires At(s, c, [x])
    ensures c < |s| && s[c] == x
  {
    assert s[c] == s[c..c + 1][0];
  }

  /** What may stand right after a printed expression. */
  predicate Follows(s: string, p: nat) {
    p >= |s| || s[p] == ' ' || s[p] == ')' || s[p] == '?' || s[p] == '+' || s[p] == '*' || s[p] == '\n'
  }

  // What a scan from a place on comes to, as any function of the place and the state.
  type Continuation = (nat, ScanState) -> Option<Loaded>

  predicate Step(c: nat, st: ScanState) { true }

  /** The continuation agrees with every step that completes no rule. */
  ghost predicate Agrees(s: string, rest: Continuation) {
    forall c: nat, st {:trigger Step(c, st)} :: Step(c, st) && c < |s| ==> AgreesAt(s, rest, c, st)
  }

  ghost predicate AgreesAt(s: string, rest: Continuation, c: nat, st: ScanState)
    requires c < |s|
  {
    && (s[c] == ' ' ==> rest(c, st) == rest(c + 1, st))
    && (s[c] != '#' && !IsSpace(s[c]) && PieceAt(s, c, st).Piece?
        ==> rest(c, st) == rest(PieceAt(s, c, st).next, PieceAt(s, c, st).st))
  }

  lemma StepSpace(s: string, c: nat, st: ScanState, rest: Continuation)
    requires Agrees(s, rest) && c < |s| && s[c] == ' '
    ensures rest(c, st) == rest(c + 1, st)
  {
    assert Step(c, st);
  }

  lemma StepPiece(s: string, c: nat, st: ScanState, rest: Continuation)
    requires Agrees(s, rest)
    requires c < |s| && st.Definition? && s[c] != '#' && !IsSpace(s[c]) && DefinitionPiece(s, c, st).Piece?
    ensures rest(c, st) == rest(DefinitionPiece(s, c, st).next, DefinitionPiece(s, c, st).st)
  {
    assert Step(c, st);
  }

  lemma StepHead(s: string, c: nat, st: ScanState, rest: Continuation)
    requires Agrees(s, rest)
    requires c < |s| && s[c] != '#' && !IsSpace(s[c]) && PieceAt(s, c, st).Piece?
    ensures rest(c, st) == rest(PieceAt(s, c, st).next, PieceAt(s, c, st).st)
  {
    assert Step(c, st);
  }

  /** The state after more tokens: the last one is no '/'. */
  function Further(st: ScanState, more: seq<PegToken>): (r: ScanState)
    requires st.Definition?
    ensures r.Definition?
  {
    if more == [] then st else st.(tokens := st.tokens + more, inOrClause := false)
  }

  lemma FurtherTwice(st: ScanState, a: seq<PegToken>, b: seq<PegToken>)
    requires st.Definition?
    ensures Further(Further(st, a), b) == Further(st, a + b)
  {
    assert st.tokens + a + b == st.tokens + (a + b);
    assert a == [] ==> a + b == b;
    assert b == [] ==> a + b == a;
  }

  lemma StepPostfix(s: string, c: nat, st: ScanState, x: char, rest: Continuation)
    requires Agrees(s, rest)
    requires st.Definition? && c < |s| && s[c] == x && (x == '?' || x == '+' || x == '*')
    ensures rest(c, st) == rest(c + 1, Further(st, [Op(x)]))
  {
    StepPiece(s, c, st, rest);
  }

  lemma {:induction false} TextScans(s: string, c: nat, e: Expr, top: bool, st: ScanState, rest: Continuation)
    requires Agrees(s, rest)
    requires Scannable(e) && st.Definition? && At(s, c, Text(e, top)) && Follows(s, c + |Text(e, top)|)
    ensures rest(c, st) == rest(c + |Text(e, top)|, Further(st, Print(e, top)))
    decreases e, 1
  {
    match e
    case Literal(_) => LeafScans(s, c, e, st, rest);
    case Reference(_) => LeafScans(s, c, e, st, rest);
    case Regex(_) => LeafScans(s, c, e, st, rest);
    case Call(_, _) => CallScans(s, c, e, st, rest);
    case Sequence(cs) => ListScans(s, c, e, cs, false, top, st, rest);
    case Choice(cs) => ListScans(s, c, e, cs, true, top, st, rest);
    case Optional(x) => SuffixedScans(s, c, e, x, '?', top, st, rest);
    case Repeat(x) => SuffixedScans(s, c, e, x, '+', top, st, rest);
    case OptionalRepeat(x) => SuffixedScans(s, c, e, x, '*', top, st, rest);
  }

  lemma {:induction false} ListScans(s: string, c: nat, e: Expr, cs: seq<Expr>, slash: bool, top: bool, st: ScanState,
                                     rest: Continuation)
    requires Agrees(s, rest) && Scannable(e) && st.Definition? && e == (if slash then Choice(cs) else Sequence(cs))
    requires At(s, c, Text(e, top)) && Follows(s, c + |Text(e, top)|)
    ensures rest(c, st) == rest(c + |Text(e, top)|, Further(st, Print(e, top)))
    decreases e, 0
  {
    GroupScans(s, c, cs, slash, top, st, rest);
  }

  lemma {:induction false} SuffixedScans(s: string, c: nat, e: Expr, x: Expr, op: char, top: bool, st: ScanState,
                                         rest: Continuation)
    requires Agrees(s, rest) && Scannable(e) && st.Definition? && At(s, c, Text(e, top))
    requires (e == Optional(x) && op == '?') || (e == Repeat(x) && op == '+') || (e == OptionalRepeat(x) && op == '*')
    ensures rest(c, st) == rest(c + |Text(e, top)|, Further(st, Print(e, top)))
    decreases e, 0
  {
    assert Text(e, top) == Text(x, false) + [op];
    PostfixScans(s, c, x, op, st, rest);
  }

  lemma LeafScans(s: string, c: nat, e: Expr, st: ScanState, rest: Continuation)
    requires Agrees(s, rest) && (e.Literal? || e.Reference? || e.Regex?)
    requires Scannable(e) && st.Definition? && At(s, c, Text(e, true)) && Follows(s, c + |Text(e, true)|)
    ensures rest(c, st) == rest(c + |Text(e, true)|, Further(st, Print(e, true)))
  {
    match e
    case Literal(t) => LiteralStep(s, c, t, st, rest);
    case Reference(name) => NameStep(s, c, name, st, rest);
    case Regex(t) => ClassStep(s, c, t, st, rest);
  }

  lemma NameStep(s: string, c: nat, name: string, st: ScanState, rest: Continuation)
    requires Agrees(s, rest)
    requires NameScans(name) && st.Definition? && At(s, c, name) && Follows(s, c + |name|)
    ensures rest(c, st) == rest(c + |name|, Further(st, [PegToken(ReferenceToken, name)]))
  {
    NameFound(s, c, name, 0);
    assert s[c] == s[c..c + |name|][0] == name[0];
    StepPiece(s, c, st, rest);
  }

  lemma ClassStep(s: string, c: nat, t: string, st: ScanState, rest: Continuation)
    requires Agrees(s, rest)
    requires ClassScans(t) && st.Definition? && At(s, c, t)
    ensures rest(c, st) == rest(c + |t|, Further(st, [PegToken(RegexToken, t)]))
  {
    ClassFound(s, c, t, Closer(t[0]), 0);
    assert s[c] == s[c..c + |t|][0] == t[0];
    StepPiece(s, c, st, rest);
  }

  lemma LiteralStep(s: string, c: nat, t: string, st: ScanState, rest: Continuation)
    requires Agrees(s, rest)
    requires LiteralScans(t) && st.Definition? && At(s, c, "'" + t + "'") && Follows(s, c + |t| + 2)
    ensures rest(c, st) == rest(c + |t| + 2, Further(st, [PegToken(LiteralToken, t)]))
  {
    assert "'" + t + "'" == "'" + (t + "'");
    AtSplit(s, c, "'", t + "'");
    AtOne(s, c, '\'');
    LiteralFound(s, c + 1, t, 0);
    AtSplit(s, c + 1, t, "'");
    StepPiece(s, c, st, rest);
  }

  lemma {:induction false} PostfixScans(s: string, c: nat, x: Expr, op: char, st: ScanState, rest: Continuation)
    requires Agrees(s, rest)
    requires op == '?' || op == '+' || op == '*'
    requires Scannable(x) && st.Definition? && At(s, c, Text(x, false) + [op])
    ensures rest(c, st) == rest(c + |Text(x, false)| + 1, Further(st, Print(x, false) + [Op(op)]))
    decreases x, 2
  {
    var t := Text(x, false);
    AtSplit(s, c, t, [op]);
    AtOne(s, c + |t|, op);
    TextScans(s, c, x, false, st, rest);
    var middle := Further(st, Print(x, false));
    StepPostfix(s, c + |t|, middle, op, rest);
    FurtherTwice(st, Print(x, false), [Op(op)]);
  }

  function Opened(st: ScanState, t: PegToken): ScanState
    requires st.Definition?
  {
    st.(tokens := st.tokens + [t], inOrClause := false, brackets := st.brackets + 1)
  }

  lemma StepClose(s: string, c: nat, st: ScanState, within: ScanState, more: seq<PegToken>, open: PegToken,
                  rest: Continuation)
    requires Agrees(s, rest)
    requires st.Definition? && within == Further(Opened(st, open), more)
    requires c < |s| && s[c] == ')'
    ensures rest(c, within) == rest(c + 1, Further(st, [open] + more + [Op(')')]))
  {
    StepPiece(s, c, within, rest);
    assert within.tokens + [Op(')')] == st.tokens + ([open] + more + [Op(')')]);
  }

  lemma CallOpens(s: string, c: nat, name: string, st: ScanState, rest: Continuation)
    requires Agrees(s, rest)
    requires NameScans(name) && st.Definition? && At(s, c, name) && c + |name| < |s| && s[c + |name|] == '('
    ensures rest(c, st) == rest(c + |name| + 1, Opened(st, PegToken(FunctionCallToken, name)))
  {
    NameFound(s, c, name, 0);
    assert s[c] == s[c..c + |name|][0] == name[0];
    StepPiece(s, c, st, rest);
  }

  lemma {:induction false} CallScans(s: string, c: nat, e: Expr, st: ScanState, rest: Continuation)
    requires Agrees(s, rest)
    requires e.Call? && Scannable(e) && st.Definition? && At(s, c, Text(e, true))
    ensures rest(c, st) == rest(c + |Text(e, true)|, Further(st, Print(e, true)))
    decreases e.arg, 2
  {
    var open := PegToken(FunctionCallToken, e.name);
    var inside, end := CallLayout(s, c, e.name, Text(e.arg, true));
    CallOpens(s, c, e.name, st, rest);
    TextScans(s, inside, e.arg, true, Opened(st, open), rest);
    StepClose(s, end, st, Further(Opened(st, open), Print(e.arg, true)), Print(e.arg, true), open, rest);
    assert end + 1 == c + |Text(e, true)|;
    assert [open] + Print(e.arg, true) + [Op(')')] == Print(e, true);
  }

  lemma CallLayout(s: string, c: nat, name: string, arg: string) returns (inside: nat, end: nat)
    requires At(s, c, name + "(" + arg + ")")
    ensures inside == c + |name| + 1 && end == inside + |arg| < |s|
    ensures At(s, c, name) && s[c + |name|] == '(' && At(s, inside, arg) && s[end] == ')'
  {
    inside := c + |name| + 1;
    end := inside + |arg|;
    assert name + "(" + arg + ")" == name + "(" + (arg + ")");
    AtThree(s, c, name, "(", arg + ")");
    AtSplit(s, inside, arg, ")");
    AtOne(s, c + |name|, '(');
    AtOne(s, end, ')');
  }

  function Sep(slash: bool): string { if slash then " / " else " " }

  /** The state after a separator. */
  function Begun(st: ScanState, slash: bool): ScanState
    requires st.Definition?
  {
    if slash then st.(tokens := st.tokens + [Op('/')], inOrClause := true) else st
  }

  ghost function Separated(cs: seq<Expr>, slash: bool): seq<PegToken> {
    if slash then PrintChoices(cs) else PrintAll(cs)
  }

  ghost function SeparatedMore(cs: seq<Expr>, slash: bool): seq<PegToken> {
    if slash then PrintMore(cs) else PrintAll(cs)
  }

  lemma {:induction false} GroupScans(s: string, c: nat, cs: seq<Expr>, slash: bool, top: bool, st: ScanState,
                                      rest: Continuation)
    requires Agrees(s, rest)
    requires forall i :: 0 <= i < |cs| ==> Scannable(cs[i])
    requires st.Definition? && At(s, c, Bracketed(TextAll(cs, Sep(slash)), top))
    requires Follows(s, c + |Bracketed(TextAll(cs, Sep(slash)), top)|)
    ensures rest(c, st)
      == rest(c + |Bracketed(TextAll(cs, Sep(slash)), top)|, Further(st, Grouped(Separated(cs, slash), top)))
    decreases cs, 3
  {
    if top {
      AllScans(s, c, cs, slash, st, rest);
    } else {
      BracketLayout(s, c, TextAll(cs, Sep(slash)));
      BracketScans(s, c, cs, slash, TextAll(cs, Sep(slash)), st, rest);
    }
  }

  lemma {:induction false} BracketScans(s: string, c: nat, cs: seq<Expr>, slash: bool, body: string, st: ScanState,
                                        rest: Continuation)
    requires Agrees(s, rest)
    requires forall i :: 0 <= i < |cs| ==> Scannable(cs[i])
    requires st.Definition? && body == TextAll(cs, Sep(slash)) && At(s, c + 1, body) && c + 1 + |body| < |s|
    requires s[c] == '(' && s[c + 1 + |body|] == ')'
    ensures rest(c, st) == rest(c + |body| + 2, Further(st, [Op('(')] + Separated(cs, slash) + [Op(')')]))
    decreases cs, 2, 1
  {
    var open := Op('(');
    StepPiece(s, c, st, rest);
    AllScans(s, c + 1, cs, slash, Opened(st, open), rest);
    var within := Further(Opened(st, open), Separated(cs, slash));
    StepClose(s, c + 1 + |body|, st, within, Separated(cs, slash), open, rest);
  }

  lemma BracketLayout(s: string, c: nat, body: string)
    requires At(s, c, "(" + body + ")")
    ensures At(s, c + 1, body) && c + 1 + |body| < |s| && s[c] == '(' && s[c + 1 + |body|] == ')'
  {
    AtThree(s, c, "(", body, ")");
    AtOne(s, c, '(');
    AtOne(s, c + 1 + |body|, ')');
  }

  lemma {:induction false} AllScans(s: string, c: nat, cs: seq<Expr>, slash: bool, st: ScanState, rest: Continuation)
    requires Agrees(s, rest)
    requires forall i :: 0 <= i < |cs| ==> Scannable(cs[i])
    requires st.Definition? && At(s, c, TextAll(cs, Sep(slash))) && Follows(s, c + |TextAll(cs, Sep(slash))|)
    ensures rest(c, st) == rest(c + |TextAll(cs, Sep(slash))|, Further(st, Separated(cs, slash)))
    decreases cs, 2, 0
  {
    if cs != [] {
      var p, middle := FirstScans(s, c, cs, slash, st, rest);
      MoreScans(s, p, cs[1..], slash, middle, rest);
      FurtherTwice(st, Print(cs[0], false), SeparatedMore(cs[1..], slash));
      assert Print(cs[0], false) + SeparatedMore(cs[1..], slash) == Separated(cs, slash);
    }
  }

  lemma {:induction false} FirstScans(s: string, c: nat, cs: seq<Expr>, slash: bool, st: ScanState, rest: Continuation)
    returns (p: nat, middle: ScanState)
    requires Agrees(s, rest)
    requires cs != [] && Scannable(cs[0])
    requires st.Definition? && At(s, c, TextAll(cs, Sep(slash))) && Follows(s, c + |TextAll(cs, Sep(slash))|)
    ensures middle == Further(st, Print(cs[0], false)) && rest(c, st) == rest(p, middle)
    ensures At(s, p, TextMore(cs[1..], Sep(slash)))
      && p + |TextMore(cs[1..], Sep(slash))| == c + |TextAll(cs, Sep(slash))|
    decreases cs, 1
  {
    p, middle := c + |Text(cs[0], false)|, Further(st, Print(cs[0], false));
    AtSplit(s, c, Text(cs[0], false), TextMore(cs[1..], Sep(slash)));
    MoreFollows(s, p, cs[1..], slash);
    TextScans(s, c, cs[0], false, st, rest);
  }

  lemma MoreFollows(s: string, c: nat, cs: seq<Expr>, slash: bool)
    requires At(s, c, TextMore(cs, Sep(slash))) && Follows(s, c + |TextMore(cs, Sep(slash))|)
    ensures Follows(s, c)
  {
    if cs != [] {
      assert s[c] == s[c..c + |TextMore(cs, Sep(slash))|][0] == ' ';
    }
  }

  lemma {:induction false} MoreScans(s: string, c: nat, cs: seq<Expr>, slash: bool, st: ScanState, rest: Continuation)
    requires Agrees(s, rest)
    requires forall i :: 0 <= i < |cs| ==> Scannable(cs[i])
    requires st.Definition? && At(s, c, TextMore(cs, Sep(slash))) && Follows(s, c + |TextMore(cs, Sep(slash))|)
    ensures rest(c, st) == rest(c + |TextMore(cs, Sep(slash))|, Further(st, SeparatedMore(cs, slash)))
    decreases cs, 2
  {
    if cs != [] {
      var p, middle := NextScans(s, c, cs, slash, st, rest);
      MoreScans(s, p, cs[1..], slash, middle, rest);
      MoreTokens(st, cs, slash);
    }
  }

  lemma {:induction false} NextScans(s: string, c: nat, cs: seq<Expr>, slash: bool, st: ScanState, rest: Continuation)
    returns (p: nat, middle: ScanState)
    requires Agrees(s, rest)
    requires cs != [] && Scannable(cs[0])
    requires st.Definition? && At(s, c, TextMore(cs, Sep(slash))) && Follows(s, c + |TextMore(cs, Sep(slash))|)
    ensures middle == Further(Begun(st, slash), Print(cs[0], false)) && rest(c, st) == rest(p, middle)
    ensures At(s, p, TextMore(cs[1..], Sep(slash)))
      && p + |TextMore(cs[1..], Sep(slash))| == c + |TextMore(cs, Sep(slash))|
    decreases cs, 1
  {
    p := NextPart(s, c, cs, slash);
    SeparatorScans(s, c, slash, st, rest);
    TextScans(s, c + |Sep(slash)|, cs[0], false, Begun(st, slash), rest);
    middle := Further(Begun(st, slash), Print(cs[0], false));
  }

  lemma NextPart(s: string, c: nat, cs: seq<Expr>, slash: bool) returns (p: nat)
    requires cs != [] && At(s, c, TextMore(cs, Sep(slash))) && Follows(s, c + |TextMore(cs, Sep(slash))|)
    ensures p == c + |Sep(slash)| + |Text(cs[0], false)|
    ensures At(s, c, Sep(slash)) && At(s, c + |Sep(slash)|, Text(cs[0], false))
    ensures At(s, p, TextMore(cs[1..], Sep(slash))) && Follows(s, p)
    ensures p + |TextMore(cs[1..], Sep(slash))| == c + |TextMore(cs, Sep(slash))|
  {
    var sep, first, others := Sep(slash), Text(cs[0], false), TextMore(cs[1..], Sep(slash));
    assert TextMore(cs, sep) == sep + first + others;
    p := c + |sep| + |first|;
    AtThree(s, c, sep, first, others);
    assert p + |others| == c + |TextMore(cs, sep)|;
    MoreFollows(s, p, cs[1..], slash);
  }

  lemma AtThree(s: string, c: nat, a: string, b: string, d: string)
    requires At(s, c, a + b + d)
    ensures At(s, c, a) && At(s, c + |a|, b) && At(s, c + |a| + |b|, d)
  {
    assert a + b + d == a + (b + d);
    AtSplit(s, c, a, b + d);
    AtSplit(s, c + |a|, b, d);
  }

  lemma NeverEmpty(e: Expr)
    ensures Print(e, false) != []
  {
  }

  lemma MoreTokens(st: ScanState, cs: seq<Expr>, slash: bool)
    requires st.Definition? && cs != []
    ensures Further(Further(Begun(st, slash), Print(cs[0], false)), SeparatedMore(cs[1..], slash))
      == Further(st, SeparatedMore(cs, slash))
  {
    var first, others := Print(cs[0], false), SeparatedMore(cs[1..], slash);
    var begun := Begun(st, slash);
    FurtherTwice(begun, first, others);
    NeverEmpty(cs[0]);
    if slash {
      assert begun.tokens + (first + others) == st.tokens + ([Op('/')] + first + others);
    }
  }

  /** A separator: a space, or a '/' between spaces. */
  lemma SeparatorScans(s: string, c: nat, slash: bool, st: ScanState, rest: Continuation)
    requires Agrees(s, rest)
    requires st.Definition? && At(s, c, Sep(slash))
    ensures rest(c, st) == rest(c + |Sep(slash)|, Begun(st, slash))
  {
    assert s[c] == s[c..c + |Sep(slash)|][0] == ' ';
    StepSpace(s, c, st, rest);
    if slash {
      assert s[c + 1] == s[c..c + 3][1] == '/';
      assert s[c + 2] == s[c..c + 3][2] == ' ';
      StepPiece(s, c + 1, st, rest);
      StepSpace(s, c + 2, Begun(st, true), rest);
    }
  }
}
