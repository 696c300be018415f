/** Printing rule expressions, and what parsing the printed form gives back
    (internal/grammar/expression.go:47-85). */
module PegPrinter {
  import opened Tokens
  import opened PegGrammar
  import opened PegSyntax

  /** The tokens of an expression's printed form: every nested sequence and choice in
      parentheses, the outermost one bare. */
  ghost function Print(e: Expr, top: bool): seq<PegToken>
    decreases e, 1
  {
    match e
    case Literal(text) => [PegToken(LiteralToken, text)]
    case Reference(name) => [PegToken(ReferenceToken, name)]
    case Regex(text) => [PegToken(RegexToken, text)]
    case Call(name, arg) => [PegToken(FunctionCallToken, name)] + Print(arg, true) + [Op(')')]
    case Sequence(cs) => Grouped(PrintAll(cs), top)
    case Choice(cs) => Grouped(PrintChoices(cs), top)
    case Optional(c) => Print(c, false) + [Op('?')]
    case Repeat(c) => Print(c, false) + [Op('+')]
    case OptionalRepeat(c) => Print(c, false) + [Op('*')]
  }

  function Grouped(body: seq<PegToken>, top: bool): seq<PegToken> {
    if top then body else [Op('(')] + body + [Op(')')]
  }

  ghost function PrintAll(es: seq<Expr>): seq<PegToken>
    decreases es, 0
  {
    if es == [] then [] else Print(es[0], false) + PrintAll(es[1..])
  }

  ghost function PrintChoices(es: seq<Expr>): seq<PegToken>
    decreases es, 0
  {
    if es == [] then [] else Print(es[0], false) + PrintMore(es[1..])
  }

  /** Each expression after a '/'. */
  ghost function PrintMore(es: seq<Expr>): seq<PegToken>
    decreases es, 0
  {
    if es == [] then [] else [Op('/')] + Print(es[0], false) + PrintMore(es[1..])
  }

  // ----- what the round trip changes -----

  /** The one group the printed form cannot show: a single element in parentheses that stands
      alone, where the element is not itself a choice. */
  predicate LosesGroup(e: Expr) {
    e.Sequence? && |e.children| == 1 && !e.children[0].Choice?
  }

  /** The expression with every group its printed form cannot show taken away. */
  function Normal(e: Expr, top: bool): Expr
    decreases e, 1
  {
    match e
    case Call(name, arg) => Call(name, Normal(arg, true))
    case Sequence(cs) =>
      if top && LosesGroup(e) then Normal(cs[0], false) else Sequence(NormalAll(cs))
    case Choice(cs) => Choice(NormalAll(cs))
    case Optional(c) => Optional(Normal(c, false))
    case Repeat(c) => Repeat(Normal(c, false))
    case OptionalRepeat(c) => OptionalRepeat(Normal(c, false))
    case _ => e
  }

  function NormalAll(es: seq<Expr>): (r: seq<Expr>)
    ensures |r| == |es| && forall i :: 0 <= i < |es| ==> r[i] == Normal(es[i], false)
    decreases es, 0
  {
    if es == [] then [] else [Normal(es[0], false)] + NormalAll(es[1..])
  }

  // ----- parsing printed tokens -----

  /** `part` stands at pos. */
  ghost predicate Stands(ts: seq<PegToken>, pos: nat, part: seq<PegToken>) {
    pos + |part| <= |ts| && ts[pos..pos + |part|] == part
  }

  lemma StandsSplit(ts: seq<PegToken>, pos: nat, a: seq<PegToken>, b: seq<PegToken>)
    requires Stands(ts, pos, a + b)
    ensures Stands(ts, pos, a) && Stands(ts, pos + |a|, b)
  {
    var whole := ts[pos..pos + |a| + |b|];
    assert ts[pos..pos + |a|] == whole[..|a|] == a;
    assert ts[pos + |a|..pos + |a| + |b|] == whole[|a|..] == b;
  }

  lemma StandsOne(ts: seq<PegToken>, pos: nat, t: PegToken)
    requires Stands(ts, pos, [t])
    ensures pos < |ts| && ts[pos] == t
  {
    assert ts[pos] == ts[pos..pos + 1][0];
  }

  predicate IsPostfixOp(ts: seq<PegToken>, pos: nat) {
    IsOp(ts, pos, '?') || IsOp(ts, pos, '*') || IsOp(ts, pos, '+')
  }

  /** A printed element begins with a token that neither stops a sequence nor is a postfix
      operator or a '!'. */
  predicate StartsElement(t: PegToken) {
    t.kind != OperatorToken || t.text == "("
  }

  lemma {:induction false} FirstToken(e: Expr)
    requires PostfixShape(e)
    ensures Print(e, false) != [] && StartsElement(Print(e, false)[0])
  {
    match e
    case Optional(c) => FirstToken(c);
    case Repeat(c) => FirstToken(c);
    case OptionalRepeat(c) => FirstToken(c);
    case _ =>
  }

  lemma {:induction false} PrimaryReads(ts: seq<PegToken>, pos: nat, e: Expr)
    requires PrimaryShape(e) && Stands(ts, pos, Print(e, false))
    ensures ParsePrimary(ts, pos) == Ok(Normal(e, false), pos + |Print(e, false)|)
    decreases e, 1
  {
    match e
    case Literal(text) => StandsOne(ts, pos, PegToken(LiteralToken, text));
    case Reference(name) => StandsOne(ts, pos, PegToken(ReferenceToken, name));
    case Regex(text) => StandsOne(ts, pos, PegToken(RegexToken, text));
    case Call(name, arg) => CallReads(ts, pos, e);
    case Sequence(cs) => GroupReads(ts, pos, e);
  }

  lemma {:induction false} CallReads(ts: seq<PegToken>, pos: nat, e: Expr)
    requires e.Call? && PrimaryShape(e) && Stands(ts, pos, Print(e, false))
    ensures ParsePrimary(ts, pos) == Ok(Normal(e, false), pos + |Print(e, false)|)
    decreases e.arg, 7
  {
    var body := Print(e.arg, true);
    CallStands(ts, pos, PegToken(FunctionCallToken, e.name), body);
    ChoiceReads(ts, pos + 1, e.arg, true);
    CallParsed(ts, pos, e.name, Normal(e.arg, true), pos + 1 + |body|);
  }

  lemma CallStands(ts: seq<PegToken>, pos: nat, open: PegToken, body: seq<PegToken>)
    requires Stands(ts, pos, [open] + body + [Op(')')])
    ensures pos < |ts| && ts[pos] == open && Stands(ts, pos + 1, body) && IsOp(ts, pos + 1 + |body|, ')')
  {
    StandsSplit(ts, pos, [open] + body, [Op(')')]);
    StandsSplit(ts, pos, [open], body);
    StandsOne(ts, pos, open);
    StandsOne(ts, pos + 1 + |body|, Op(')'));
  }

  lemma CallParsed(ts: seq<PegToken>, pos: nat, name: string, arg: Expr, p: nat)
    requires pos < |ts| && ts[pos] == PegToken(FunctionCallToken, name) && IsOp(ts, p, ')')
    requires ParseChoice(ts, pos + 1) == Ok(arg, p)
    ensures ParsePrimary(ts, pos) == Ok(Call(name, arg), p + 1)
  {
  }

  lemma {:induction false} GroupReads(ts: seq<PegToken>, pos: nat, e: Expr)
    requires e.Sequence? && PrimaryShape(e) && Stands(ts, pos, Print(e, false))
    ensures ParsePrimary(ts, pos) == Ok(Normal(e, false), pos + |Print(e, false)|)
    decreases e.children, 8
  {
    var body := PrintAll(e.children);
    assert Print(e, false) == ([Op('(')] + body) + [Op(')')];
    StandsSplit(ts, pos, [Op('(')] + body, [Op(')')]);
    StandsSplit(ts, pos, [Op('(')], body);
    StandsOne(ts, pos, Op('('));
    StandsOne(ts, pos + 1 + |body|, Op(')'));
    BareSequenceReads(ts, pos + 1, e);
    assert |e.children| == 1 ==> !Normal(e.children[0], false).Sequence?;
    assert |e.children| == 1 ==> NormalAll(e.children) == [Normal(e.children[0], false)];
  }

  lemma PrintOne(es: seq<Expr>)
    requires |es| == 1
    ensures PrintAll(es) == Print(es[0], false)
  {
    var printed := Print(es[0], false);
    assert es[1..] == [];
    assert PrintAll(es) == printed + PrintAll([]);
    assert printed + [] == printed;
  }

  /** One element up to a stop is the whole sequence. */
  lemma OneElement(ts: seq<PegToken>, pos: nat, item: Expr, end: nat)
    requires pos < end <= |ts| && !SequenceStops(ts, pos) && SequenceStops(ts, end)
    requires ParsePostfix(ts, pos) == Ok(item, end)
    ensures ParseSequence(ts, pos) == Ok(item, end)
  {
    assert ParseItems(ts, end) == Ok([], end);
    assert [item] + [] == [item];
    assert ParseItems(ts, pos) == Ok([item], end);
  }

  /** A nested choice comes back inside the group its parentheses make. */
  lemma {:induction false} ParenthesizedChoiceReads(ts: seq<PegToken>, pos: nat, e: Expr)
    requires e.Choice? && TopShape(e) && Stands(ts, pos, Print(e, false))
    ensures ParsePrimary(ts, pos) == Ok(Sequence([Normal(e, false)]), pos + |Print(e, false)|)
    ensures pos < |ts| && !SequenceStops(ts, pos)
    decreases e, 6
  {
    var body := PrintChoices(e.children);
    assert Print(e, false) == ([Op('(')] + body) + [Op(')')];
    StandsSplit(ts, pos, [Op('(')] + body, [Op(')')]);
    StandsSplit(ts, pos, [Op('(')], body);
    StandsOne(ts, pos, Op('('));
    StandsOne(ts, pos + 1 + |body|, Op(')'));
    ChoiceReads(ts, pos + 1, e, true);
  }

  lemma {:induction false} PostfixReads(ts: seq<PegToken>, pos: nat, e: Expr)
    requires PostfixShape(e) && Stands(ts, pos, Print(e, false))
    requires !IsPostfixOp(ts, pos + |Print(e, false)|)
    ensures ParsePostfix(ts, pos) == Ok(Normal(e, false), pos + |Print(e, false)|)
    decreases e, 2
  {
    if e.Optional? {
      SuffixReads(ts, pos, e.child, '?');
    } else if e.Repeat? {
      SuffixReads(ts, pos, e.child, '+');
    } else if e.OptionalRepeat? {
      SuffixReads(ts, pos, e.child, '*');
    } else {
      PrimaryReads(ts, pos, e);
      NoSuffix(ts, pos, Normal(e, false), pos + |Print(e, false)|);
    }
  }

  lemma NoSuffix(ts: seq<PegToken>, pos: nat, node: Expr, p: nat)
    requires pos <= |ts| && ParsePrimary(ts, pos) == Ok(node, p) && !IsPostfixOp(ts, p)
    ensures ParsePostfix(ts, pos) == Ok(node, p)
  {
  }

  /** A primary and the operator after it. */
  lemma {:induction false} SuffixReads(ts: seq<PegToken>, pos: nat, c: Expr, op: char)
    requires PrimaryShape(c) && Stands(ts, pos, Print(c, false) + [Op(op)])
    ensures
      var node, end := Normal(c, false), pos + |Print(c, false)| + 1;
      && (op == '?' ==> ParsePostfix(ts, pos) == Ok(Optional(node), end))
      && (op == '+' ==> ParsePostfix(ts, pos) == Ok(Repeat(node), end))
      && (op == '*' ==> ParsePostfix(ts, pos) == Ok(OptionalRepeat(node), end))
    decreases c, 2
  {
    StandsSplit(ts, pos, Print(c, false), [Op(op)]);
    StandsOne(ts, pos + |Print(c, false)|, Op(op));
    PrimaryReads(ts, pos, c);
  }

  /** Whatever follows an element, another element or a stop, is no postfix operator. */
  lemma NoPostfixBeforeItems(ts: seq<PegToken>, pos: nat, es: seq<Expr>)
    requires forall i :: 0 <= i < |es| ==> PostfixShape(es[i])
    requires Stands(ts, pos, PrintAll(es)) && SequenceStops(ts, pos + |PrintAll(es)|)
    ensures !IsPostfixOp(ts, pos)
  {
    if es != [] {
      FirstToken(es[0]);
      StandsSplit(ts, pos, Print(es[0], false), PrintAll(es[1..]));
      FirstStands(ts, pos, Print(es[0], false));
    }
  }

  lemma FirstStands(ts: seq<PegToken>, pos: nat, part: seq<PegToken>)
    requires Stands(ts, pos, part) && part != [] && StartsElement(part[0])
    ensures pos < |ts| && ts[pos] == part[0] && !SequenceStops(ts, pos) && !IsPostfixOp(ts, pos)
  {
    assert ts[pos] == ts[pos..pos + |part|][0];
  }

  /** Elements side by side, up to a stop. */
  lemma {:induction false} ItemsRead(ts: seq<PegToken>, pos: nat, es: seq<Expr>)
    requires forall i :: 0 <= i < |es| ==> PostfixShape(es[i])
    requires Stands(ts, pos, PrintAll(es)) && SequenceStops(ts, pos + |PrintAll(es)|)
    ensures ParseItems(ts, pos) == Ok(NormalAll(es), pos + |PrintAll(es)|)
    decreases es, 3
  {
    if es != [] {
      var p := NextItem(ts, pos, es);
      PostfixReads(ts, pos, es[0]);
      ItemsRead(ts, p, es[1..]);
      OneMoreItem(ts, pos, Normal(es[0], false), p, NormalAll(es[1..]), pos + |PrintAll(es)|);
    }
  }

  lemma NextItem(ts: seq<PegToken>, pos: nat, es: seq<Expr>) returns (p: nat)
    requires es != [] && forall i :: 0 <= i < |es| ==> PostfixShape(es[i])
    requires Stands(ts, pos, PrintAll(es)) && SequenceStops(ts, pos + |PrintAll(es)|)
    ensures p == pos + |Print(es[0], false)| <= |ts| && p + |PrintAll(es[1..])| == pos + |PrintAll(es)|
    ensures Stands(ts, pos, Print(es[0], false)) && !SequenceStops(ts, pos) && !IsPostfixOp(ts, p)
    ensures Stands(ts, p, PrintAll(es[1..]))
  {
    var first, rest := Print(es[0], false), PrintAll(es[1..]);
    p := pos + |first|;
    StandsSplit(ts, pos, first, rest);
    FirstToken(es[0]);
    FirstStands(ts, pos, first);
    NoPostfixBeforeItems(ts, p, es[1..]);
  }

  lemma OneMoreItem(ts: seq<PegToken>, pos: nat, item: Expr, p: nat, rest: seq<Expr>, q: nat)
    requires pos <= p <= |ts| && !SequenceStops(ts, pos)
    requires ParsePostfix(ts, pos) == Ok(item, p) && ParseItems(ts, p) == Ok(rest, q)
    ensures ParseItems(ts, pos) == Ok([item] + rest, q)
  {
  }

  /** One element up to a '/' or an end is one alternative. */
  lemma {:induction false} AlternativeReads(ts: seq<PegToken>, pos: nat, e: Expr)
    requires PostfixShape(e) && Stands(ts, pos, Print(e, false))
    requires SequenceStops(ts, pos + |Print(e, false)|)
    ensures ParseSequence(ts, pos) == Ok(Normal(e, false), pos + |Print(e, false)|)
    decreases e, 3
  {
    var end := pos + |Print(e, false)|;
    FirstToken(e);
    FirstStands(ts, pos, Print(e, false));
    PostfixReads(ts, pos, e);
    OneElement(ts, pos, Normal(e, false), end);
  }

  ghost predicate ChoiceStops(ts: seq<PegToken>, pos: nat) {
    pos >= |ts| || IsOp(ts, pos, ')')
  }

  lemma {:induction false} AlternativesRead(ts: seq<PegToken>, pos: nat, es: seq<Expr>, more: seq<PegToken>)
    requires forall i :: 0 <= i < |es| ==> PostfixShape(es[i])
    requires more == PrintMore(es) && Stands(ts, pos, more) && ChoiceStops(ts, pos + |more|)
    ensures ParseAlternatives(ts, pos) == Ok(NormalAll(es), pos + |more|)
    decreases es, 4
  {
    if es == [] {
      StopIsNoSlash(ts, pos);
    } else {
      var p, rest := NextAlternative(ts, pos, es, more);
      AlternativeReads(ts, pos + 1, es[0]);
      AlternativesRead(ts, p, es[1..], rest);
      OneMore(ts, pos, Normal(es[0], false), p, NormalAll(es[1..]), p + |rest|);
    }
  }

  /** Where the alternative after a '/' ends, and what stands after it. */
  lemma NextAlternative(ts: seq<PegToken>, pos: nat, es: seq<Expr>, more: seq<PegToken>)
    returns (p: nat, rest: seq<PegToken>)
    requires es != [] && more == PrintMore(es) && Stands(ts, pos, more) && ChoiceStops(ts, pos + |more|)
    ensures rest == PrintMore(es[1..]) && p + |rest| == pos + |more|
    ensures IsOp(ts, pos, '/') && Stands(ts, pos + 1, Print(es[0], false)) && p == pos + 1 + |Print(es[0], false)|
    ensures Stands(ts, p, rest) && SequenceStops(ts, p)
  {
    var first := Print(es[0], false);
    rest := PrintMore(es[1..]);
    p := pos + 1 + |first|;
    SplitAfterSlash(ts, pos, first, rest);
    assert p + |rest| == pos + |more|;
    StopsBeforeMore(ts, p, es[1..], rest);
  }

  lemma OneMore(ts: seq<PegToken>, pos: nat, first: Expr, p: nat, rest: seq<Expr>, q: nat)
    requires IsOp(ts, pos, '/') && p <= |ts|
    requires ParseSequence(ts, pos + 1) == Ok(first, p) && ParseAlternatives(ts, p) == Ok(rest, q)
    ensures ParseAlternatives(ts, pos) == Ok([first] + rest, q)
  {
  }

  lemma SplitAfterSlash(ts: seq<PegToken>, pos: nat, first: seq<PegToken>, rest: seq<PegToken>)
    requires Stands(ts, pos, [Op('/')] + first + rest)
    ensures IsOp(ts, pos, '/') && Stands(ts, pos + 1, first) && Stands(ts, pos + 1 + |first|, rest)
  {
    assert [Op('/')] + first + rest == [Op('/')] + (first + rest);
    StandsSplit(ts, pos, [Op('/')], first + rest);
    StandsOne(ts, pos, Op('/'));
    StandsSplit(ts, pos + 1, first, rest);
  }

  lemma StopsBeforeMore(ts: seq<PegToken>, pos: nat, es: seq<Expr>, more: seq<PegToken>)
    requires more == PrintMore(es) && Stands(ts, pos, more) && ChoiceStops(ts, pos + |more|)
    ensures SequenceStops(ts, pos)
    ensures es != [] ==> IsOp(ts, pos, '/')
    ensures es == [] ==> !IsOp(ts, pos, '/')
  {
    if es != [] {
      var rest := Print(es[0], false) + PrintMore(es[1..]);
      assert more == [Op('/')] + rest;
      StandsSplit(ts, pos, [Op('/')], rest);
      StandsOne(ts, pos, Op('/'));
    }
  }

  /** A printed expression, without its own parentheses, up to a ')' or the end. */
  lemma {:induction false} ChoiceReads(ts: seq<PegToken>, pos: nat, e: Expr, top: bool)
    requires TopShape(e) && top && Stands(ts, pos, Print(e, true))
    requires ChoiceStops(ts, pos + |Print(e, true)|)
    ensures ParseChoice(ts, pos) == Ok(Normal(e, true), pos + |Print(e, true)|)
    decreases e, 5
  {
    match e
    case Choice(cs) => BareChoiceReads(ts, pos, e);
    case Sequence(cs) => BareSequenceReads(ts, pos, e);
    case _ =>
      StopIsNoSlash(ts, pos + |Print(e, true)|);
      AlternativeReads(ts, pos, e);
  }

  lemma StopIsNoSlash(ts: seq<PegToken>, pos: nat)
    requires ChoiceStops(ts, pos)
    ensures !IsOp(ts, pos, '/') && SequenceStops(ts, pos)
  {
  }

  lemma {:induction false} BareChoiceReads(ts: seq<PegToken>, pos: nat, e: Expr)
    requires e.Choice? && |e.children| >= 2 && Stands(ts, pos, Print(e, true))
    requires forall i :: 0 <= i < |e.children| ==> PostfixShape(e.children[i])
    requires ChoiceStops(ts, pos + |Print(e, true)|)
    ensures ParseChoice(ts, pos) == Ok(Normal(e, true), pos + |Print(e, true)|)
    decreases e.children, 7
  {
    var cs := e.children;
    var p := pos + |Print(cs[0], false)|;
    FirstAlternativeReads(ts, pos, cs);
    AlternativesRead(ts, p, cs[1..], PrintMore(cs[1..]));
    Assembled(ts, pos, Normal(cs[0], false), p, NormalAll(cs[1..]), p + |PrintMore(cs[1..])|);
  }

  lemma {:induction false} FirstAlternativeReads(ts: seq<PegToken>, pos: nat, cs: seq<Expr>)
    requires |cs| >= 2 && PostfixShape(cs[0])
    requires Stands(ts, pos, PrintChoices(cs)) && ChoiceStops(ts, pos + |PrintChoices(cs)|)
    ensures
      var p := pos + |Print(cs[0], false)|;
      && ParseSequence(ts, pos) == Ok(Normal(cs[0], false), p) && IsOp(ts, p, '/')
      && Stands(ts, p, PrintMore(cs[1..])) && ChoiceStops(ts, p + |PrintMore(cs[1..])|)
    decreases cs, 6
  {
    var first, rest := Print(cs[0], false), PrintMore(cs[1..]);
    StandsSplit(ts, pos, first, rest);
    StopsBeforeMore(ts, pos + |first|, cs[1..], rest);
    AlternativeReads(ts, pos, cs[0]);
  }

  lemma Assembled(ts: seq<PegToken>, pos: nat, first: Expr, p: nat, rest: seq<Expr>, q: nat)
    requires pos <= p <= |ts| && IsOp(ts, p, '/')
    requires ParseSequence(ts, pos) == Ok(first, p) && ParseAlternatives(ts, p) == Ok(rest, q)
    ensures ParseChoice(ts, pos) == Ok(Choice([first] + rest), q)
  {
  }

  lemma {:induction false} BareSequenceReads(ts: seq<PegToken>, pos: nat, e: Expr)
    requires e.Sequence? && PrimaryShape(e) && Stands(ts, pos, Print(e, true))
    requires ChoiceStops(ts, pos + |Print(e, true)|)
    ensures ParseChoice(ts, pos) == Ok(Normal(e, true), pos + |Print(e, true)|)
    decreases e.children, 7
  {
    var cs := e.children;
    if |cs| == 1 && cs[0].Choice? {
      PrintOne(cs);
      ParenthesizedChoiceReads(ts, pos, cs[0]);
      OneElement(ts, pos, Sequence([Normal(cs[0], false)]), pos + |PrintAll(cs)|);
      assert NormalAll(cs) == [Normal(cs[0], false)];
    } else {
      ItemsRead(ts, pos, cs);
      SequenceAssembled(ts, pos, NormalAll(cs), pos + |PrintAll(cs)|);
    }
  }

  lemma SequenceAssembled(ts: seq<PegToken>, pos: nat, items: seq<Expr>, end: nat)
    requires pos <= |ts| && ParseItems(ts, pos) == Ok(items, end) && ChoiceStops(ts, end)
    ensures ParseChoice(ts, pos) == Ok(if |items| == 1 then items[0] else Sequence(items), end)
  {
    assert ParseSequence(ts, pos) == Ok(if |items| == 1 then items[0] else Sequence(items), end);
    StopIsNoSlash(ts, end);
  }

  // ----- the round trip -----

  /** Re-parsing the printed form of any tree the parser can build gives the tree back, up to
      the groups the printed form cannot show. */
  lemma PrintedReadsBack(e: Expr)
    requires TopShape(e)
    ensures Build(Print(e, true)) == Ok(Normal(e, true), |Print(e, true)|)
  {
    var ts := Print(e, true);
    assert ts[0..0 + |ts|] == ts;
    ChoiceReads(ts, 0, e, true);
  }

  /** Every group of the expression shows in its printed form. */
  predicate ShowsGroups(e: Expr, top: bool) {
    match e
    case Call(_, arg) => ShowsGroups(arg, true)
    case Sequence(cs) => !(top && LosesGroup(e)) && forall i :: 0 <= i < |cs| ==> ShowsGroups(cs[i], false)
    case Choice(cs) => forall i :: 0 <= i < |cs| ==> ShowsGroups(cs[i], false)
    case Optional(c) => ShowsGroups(c, false)
    case Repeat(c) => ShowsGroups(c, false)
    case OptionalRepeat(c) => ShowsGroups(c, false)
    case _ => true
  }

  function Size(e: Expr): nat
    decreases e, 1
  {
    match e
    case Call(_, arg) => 1 + Size(arg)
    case Sequence(cs) => 1 + SizeAll(cs)
    case Choice(cs) => 1 + SizeAll(cs)
    case Optional(c) => 1 + Size(c)
    case Repeat(c) => 1 + Size(c)
    case OptionalRepeat(c) => 1 + Size(c)
    case _ => 1
  }

  function SizeAll(es: seq<Expr>): nat
    decreases es, 0
  {
    if es == [] then 0 else Size(es[0]) + SizeAll(es[1..])
  }

  lemma {:induction false} NormalIsNoLarger(e: Expr, top: bool)
    ensures Size(Normal(e, top)) <= Size(e)
    decreases e, 1
  {
    match e
    case Call(_, arg) => NormalIsNoLarger(arg, true);
    case Sequence(cs) =>
      NormalAllIsNoLarger(cs);
      if top && LosesGroup(e) {
        NormalIsNoLarger(cs[0], false);
        assert SizeAll(cs) == Size(cs[0]) + SizeAll(cs[1..]);
      }
    case Choice(cs) => NormalAllIsNoLarger(cs);
    case Optional(c) => NormalIsNoLarger(c, false);
    case Repeat(c) => NormalIsNoLarger(c, false);
    case OptionalRepeat(c) => NormalIsNoLarger(c, false);
    case _ =>
  }

  lemma {:induction false} NormalAllIsNoLarger(es: seq<Expr>)
    ensures SizeAll(NormalAll(es)) <= SizeAll(es)
    decreases es, 0
  {
    if es != [] {
      NormalIsNoLarger(es[0], false);
      NormalAllIsNoLarger(es[1..]);
    }
  }

  /** The round trip is exact for precisely the trees whose every group shows. */
  lemma {:induction false} ExactWhenGroupsShow(e: Expr, top: bool)
    ensures Normal(e, top) == e <==> ShowsGroups(e, top)
  {
    match e
    case Call(_, arg) => ExactWhenGroupsShow(arg, true);
    case Sequence(cs) =>
      if top && LosesGroup(e) {
        NormalIsNoLarger(cs[0], false);
        assert SizeAll(cs) == Size(cs[0]) + SizeAll(cs[1..]);
      } else {
        AllExact(cs);
      }
    case Choice(cs) => AllExact(cs);
    case Optional(c) => ExactWhenGroupsShow(c, false);
    case Repeat(c) => ExactWhenGroupsShow(c, false);
    case OptionalRepeat(c) => ExactWhenGroupsShow(c, false);
    case _ =>
  }

  lemma {:induction false} AllExact(es: seq<Expr>)
    ensures NormalAll(es) == es <==> forall i :: 0 <= i < |es| ==> ShowsGroups(es[i], false)
  {
    forall i | 0 <= i < |es|
      ensures Normal(es[i], false) == es[i] <==> ShowsGroups(es[i], false)
    {
      ExactWhenGroupsShow(es[i], false);
    }
    var n := NormalAll(es);
    assert n == es <==> forall i :: 0 <= i < |es| ==> n[i] == es[i];
  }

  lemma PostfixIsTop(e: Expr)
    requires PostfixShape(e) || PrimaryShape(e)
    ensures TopShape(e)
  {
  }

  lemma PartsAreTop(e: Expr)
    requires TopShape(e) && (e.Sequence? || e.Choice?)
    ensures forall i :: 0 <= i < |e.children| ==> TopShape(e.children[i])
  {
    assert e.Sequence? ==> PrimaryShape(e);
    forall i | 0 <= i < |e.children|
      ensures TopShape(e.children[i])
    {
      if PostfixShape(e.children[i]) {
        PostfixIsTop(e.children[i]);
      }
    }
  }

  /** What the round trip takes away was not printed: printing again gives the same tokens. */
  lemma {:induction false} PrintingIsStable(e: Expr, top: bool)
    requires TopShape(e)
    ensures Print(Normal(e, top), top) == Print(e, top)
    decreases e, 1
  {
    match e
    case Call(_, arg) =>
      assert PrimaryShape(e);
      PrintingIsStable(arg, true);
    case Sequence(cs) =>
      PartsAreTop(e);
      if top && LosesGroup(e) {
        PrintingIsStable(cs[0], false);
        PrintOne(cs);
        assert PrimaryShape(e);
        BarePrintsAlike(Normal(cs[0], false));
      } else {
        ItemsPrintStably(cs);
      }
    case Choice(cs) =>
      PartsAreTop(e);
      ItemsPrintStably(cs);
    case Optional(c) =>
      PostfixIsTop(c);
      PrintingIsStable(c, false);
    case Repeat(c) =>
      PostfixIsTop(c);
      PrintingIsStable(c, false);
    case OptionalRepeat(c) =>
      PostfixIsTop(c);
      PrintingIsStable(c, false);
    case _ =>
  }

  /** Only sequences and choices print differently at the top. */
  lemma BarePrintsAlike(e: Expr)
    requires !e.Sequence? && !e.Choice?
    ensures Print(e, true) == Print(e, false)
  {
  }

  lemma {:induction false} ItemsPrintStably(es: seq<Expr>)
    requires forall i :: 0 <= i < |es| ==> TopShape(es[i])
    ensures PrintAll(NormalAll(es)) == PrintAll(es)
    ensures PrintMore(NormalAll(es)) == PrintMore(es)
    ensures PrintChoices(NormalAll(es)) == PrintChoices(es)
    decreases es, 0
  {
    if es != [] {
      PrintingIsStable(es[0], false);
      ItemsPrintStably(es[1..]);
      assert NormalAll(es)[1..] == NormalAll(es[1..]);
    }
  }
}
