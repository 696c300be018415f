/** How much text a rule's expression holds: the parser keeps every name, literal and class
    (internal/grammar/expression.go). */
module PegWeights {
  import opened PegGrammar
  import opened PegSyntax
  import opened PegPrinter

  /** The text of the tokens that become part of the tree. */
  function TokenWeight(t: PegToken): nat { if t.kind == OperatorToken then 0 else |t.text| }

  function Weight(ts: seq<PegToken>): nat {
    if ts == [] then 0 else Weight(ts[..|ts| - 1]) + TokenWeight(ts[|ts| - 1])
  }

  function Held(e: Expr): nat
    decreases e, 1
  {
    match e
    case Literal(t) => |t|
    case Reference(name) => |name|
    case Regex(t) => |t|
    case Call(name, arg) => |name| + Held(arg)
    case Sequence(cs) => HeldAll(cs)
    case Choice(cs) => HeldAll(cs)
    case Optional(c) => Held(c)
    case Repeat(c) => Held(c)
    case OptionalRepeat(c) => Held(c)
  }

  function HeldAll(es: seq<Expr>): nat
    decreases es, 0
  {
    if es == [] then 0 else Held(es[0]) + HeldAll(es[1..])
  }

  lemma {:induction false} WeightJoins(a: seq<PegToken>, b: seq<PegToken>)
    ensures Weight(a + b) == Weight(a) + Weight(b)
    decreases |b|
  {
    if b == [] {
      assert a + b == a;
    } else {
      WeightJoins(a, b[..|b| - 1]);
      assert (a + b)[..|a + b| - 1] == a + b[..|b| - 1];
    }
  }

  lemma WeightOfOne(t: PegToken)
    ensures Weight([t]) == TokenWeight(t)
  {
    assert [t][..0] == [];
  }

  lemma WeightOfNext(ts: seq<PegToken>, pos: nat, p: nat, q: nat)
    requires pos <= p <= q <= |ts|
    ensures Weight(ts[pos..q]) == Weight(ts[pos..p]) + Weight(ts[p..q])
  {
    assert ts[pos..q] == ts[pos..p] + ts[p..q];
    WeightJoins(ts[pos..p], ts[p..q]);
  }

  lemma WeightAt(ts: seq<PegToken>, pos: nat)
    requires pos < |ts|
    ensures Weight(ts[pos..pos + 1]) == TokenWeight(ts[pos])
  {
    assert ts[pos..pos + 1] == [ts[pos]];
    WeightOfOne(ts[pos]);
  }

  // ----- parsing -----

  /** The tree of a token list holds exactly the tokens' text. */
  lemma {:induction false} ChoiceWeighs(ts: seq<PegToken>, pos: nat)
    requires pos <= |ts| && ParseChoice(ts, pos).Ok?
    ensures Held(ParseChoice(ts, pos).value) == Weight(ts[pos..ParseChoice(ts, pos).pos])
    decreases |ts| - pos, 5
  {
    SequenceWeighs(ts, pos);
    var p := ParseSequence(ts, pos).pos;
    if IsOp(ts, p, '/') {
      AlternativesWeigh(ts, p);
      var rest := ParseAlternatives(ts, p);
      HeldByMore(ParseSequence(ts, pos).value, rest.value);
      WeightOfNext(ts, pos, p, rest.pos);
    }
  }

  lemma HeldByMore(e: Expr, es: seq<Expr>)
    ensures HeldAll([e] + es) == Held(e) + HeldAll(es)
  {
    assert ([e] + es)[1..] == es;
  }

  lemma {:induction false} AlternativesWeigh(ts: seq<PegToken>, pos: nat)
    requires pos <= |ts| && ParseAlternatives(ts, pos).Ok?
    ensures HeldAll(ParseAlternatives(ts, pos).value) == Weight(ts[pos..ParseAlternatives(ts, pos).pos])
    decreases |ts| - pos, 4
  {
    if IsOp(ts, pos, '/') {
      SequenceWeighs(ts, pos + 1);
      var next := ParseSequence(ts, pos + 1);
      AlternativesWeigh(ts, next.pos);
      var rest := ParseAlternatives(ts, next.pos);
      HeldByMore(next.value, rest.value);
      WeightAt(ts, pos);
      WeightOfNext(ts, pos, pos + 1, next.pos);
      WeightOfNext(ts, pos, next.pos, rest.pos);
    }
  }

  lemma {:induction false} SequenceWeighs(ts: seq<PegToken>, pos: nat)
    requires pos <= |ts| && ParseSequence(ts, pos).Ok?
    ensures Held(ParseSequence(ts, pos).value) == Weight(ts[pos..ParseSequence(ts, pos).pos])
    decreases |ts| - pos, 3
  {
    ItemsWeigh(ts, pos);
    var items := ParseItems(ts, pos).value;
    if |items| == 1 {
      assert items == [items[0]] + [];
      HeldByMore(items[0], []);
    }
  }

  lemma {:induction false} ItemsWeigh(ts: seq<PegToken>, pos: nat)
    requires pos <= |ts| && ParseItems(ts, pos).Ok?
    ensures HeldAll(ParseItems(ts, pos).value) == Weight(ts[pos..ParseItems(ts, pos).pos])
    decreases |ts| - pos, 2
  {
    if !SequenceStops(ts, pos) {
      PostfixWeighs(ts, pos);
      var item := ParsePostfix(ts, pos);
      ItemsWeigh(ts, item.pos);
      var rest := ParseItems(ts, item.pos);
      HeldByMore(item.value, rest.value);
      WeightOfNext(ts, pos, item.pos, rest.pos);
    }
  }

  lemma {:induction false} PostfixWeighs(ts: seq<PegToken>, pos: nat)
    requires pos <= |ts| && ParsePostfix(ts, pos).Ok?
    ensures Held(ParsePostfix(ts, pos).value) == Weight(ts[pos..ParsePostfix(ts, pos).pos])
    decreases |ts| - pos, 1
  {
    PrimaryWeighs(ts, pos);
    var p := ParsePrimary(ts, pos).pos;
    if p < |ts| && ts[p].kind == OperatorToken {
      OperatorWeighsNothing(ts, pos, p);
    }
  }

  lemma OperatorWeighsNothing(ts: seq<PegToken>, pos: nat, p: nat)
    requires pos <= p < |ts| && ts[p].kind == OperatorToken
    ensures Weight(ts[pos..p + 1]) == Weight(ts[pos..p])
  {
    WeightAt(ts, p);
    WeightOfNext(ts, pos, p, p + 1);
  }

  lemma {:induction false} PrimaryWeighs(ts: seq<PegToken>, pos: nat)
    requires pos <= |ts| && ParsePrimary(ts, pos).Ok?
    ensures Held(ParsePrimary(ts, pos).value) == Weight(ts[pos..ParsePrimary(ts, pos).pos])
    decreases |ts| - pos, 0
  {
    WeightAt(ts, pos);
    if IsOp(ts, pos, '(') {
      InsideWeighs(ts, pos);
      var inner := ParseChoice(ts, pos + 1).value;
      HeldByMore(inner, []);
      assert [inner] + [] == [inner];
    } else if IsOp(ts, pos, '!') {
      PrimaryWeighs(ts, pos + 1);
      WeightOfNext(ts, pos, pos + 1, ParsePrimary(ts, pos + 1).pos);
    } else if ts[pos].kind == FunctionCallToken {
      InsideWeighs(ts, pos);
    }
  }

  /** A choice between an opening token and ')'. */
  lemma {:induction false} InsideWeighs(ts: seq<PegToken>, pos: nat)
    requires pos < |ts| && ParseChoice(ts, pos + 1).Ok? && IsOp(ts, ParseChoice(ts, pos + 1).pos, ')')
    ensures
      var inner := ParseChoice(ts, pos + 1);
      Weight(ts[pos..inner.pos + 1]) == TokenWeight(ts[pos]) + Held(inner.value)
    decreases |ts| - pos - 1, 6
  {
    ChoiceWeighs(ts, pos + 1);
    var p := ParseChoice(ts, pos + 1).pos;
    WeightAt(ts, pos);
    WeightAt(ts, p);
    WeightOfNext(ts, pos, pos + 1, p);
    WeightOfNext(ts, pos, p, p + 1);
  }

  lemma BuiltWeighs(ts: seq<PegToken>)
    requires Build(ts).Ok?
    ensures Held(Build(ts).value) == Weight(ts)
  {
    ChoiceWeighs(ts, 0);
    assert ts[0..|ts|] == ts;
  }

  // ----- printing -----

  /** Printing keeps the text too. */
  lemma {:induction false} PrintWeighs(e: Expr, top: bool)
    ensures Weight(Print(e, top)) == Held(e)
    decreases e, 1
  {
    match e
    case Literal(t) => WeightOfOne(PegToken(LiteralToken, t));
    case Reference(t) => WeightOfOne(PegToken(ReferenceToken, t));
    case Regex(t) => WeightOfOne(PegToken(RegexToken, t));
    case Call(name, arg) =>
      PrintWeighs(arg, true);
      BetweenWeighs(PegToken(FunctionCallToken, name), Print(arg, true), Op(')'));
    case Sequence(cs) =>
      AllWeigh(cs);
      BetweenWeighs(Op('('), PrintAll(cs), Op(')'));
    case Choice(cs) =>
      AllWeigh(cs);
      BetweenWeighs(Op('('), PrintChoices(cs), Op(')'));
    case Optional(c) => MarkedWeighs(c, Op('?'));
    case Repeat(c) => MarkedWeighs(c, Op('+'));
    case OptionalRepeat(c) => MarkedWeighs(c, Op('*'));
  }

  lemma BetweenWeighs(open: PegToken, body: seq<PegToken>, close: PegToken)
    ensures Weight([open] + body + [close]) == TokenWeight(open) + Weight(body) + TokenWeight(close)
  {
    WeightJoins([open] + body, [close]);
    WeightJoins([open], body);
    WeightOfOne(open);
    WeightOfOne(close);
  }

  lemma {:induction false} MarkedWeighs(c: Expr, op: PegToken)
    requires op.kind == OperatorToken
    ensures Weight(Print(c, false) + [op]) == Held(c)
    decreases c, 2
  {
    PrintWeighs(c, false);
    WeightJoins(Print(c, false), [op]);
    WeightOfOne(op);
  }

  lemma {:induction false} AllWeigh(es: seq<Expr>)
    ensures Weight(PrintAll(es)) == Weight(PrintChoices(es)) == Weight(PrintMore(es)) == HeldAll(es)
    decreases es, 0
  {
    if es != [] {
      var first := Print(es[0], false);
      PrintWeighs(es[0], false);
      AllWeigh(es[1..]);
      WeightJoins(first, PrintAll(es[1..]));
      WeightJoins(first, PrintMore(es[1..]));
      WeightJoins([Op('/')] + first, PrintMore(es[1..]));
      WeightJoins([Op('/')], first);
      WeightOfOne(Op('/'));
    }
  }

  /** The groups that do not show hold no text of their own. */
  lemma {:induction false} NormalWeighs(e: Expr, top: bool)
    ensures Held(Normal(e, top)) == Held(e)
    decreases e, 1
  {
    match e
    case Call(_, arg) => NormalWeighs(arg, true);
    case Sequence(cs) =>
      NormalsWeigh(cs);
      if top && LosesGroup(e) {
        NormalWeighs(cs[0], false);
        assert cs == [cs[0]] + [];
        HeldByMore(cs[0], []);
      }
    case Choice(cs) => NormalsWeigh(cs);
    case Optional(c) => NormalWeighs(c, false);
    case Repeat(c) => NormalWeighs(c, false);
    case OptionalRepeat(c) => NormalWeighs(c, false);
    case _ =>
  }

  lemma {:induction false} NormalsWeigh(es: seq<Expr>)
    ensures HeldAll(NormalAll(es)) == HeldAll(es)
    decreases es, 0
  {
    if es != [] {
      NormalWeighs(es[0], false);
      NormalsWeigh(es[1..]);
      HeldByMore(Normal(es[0], false), NormalAll(es[1..]));
    }
  }
}
