/** A loaded grammar under the judgment: what stands at each of its expressions, macro parameters
    bound to the arguments of their call (internal/grammar/expression.go:13-45,
    internal/matcher/factory.go:87-207). */
module GrammarJudgment {
  import opened Tokens
  import opened SpecialMatchers
  import opened PegGrammar
  import opened PegJudgment

  /** Inside a macro its parameter stands for the argument, in the scope of the call. */
  datatype Scope = TopLevel | Bound(param: string, arg: Expr, outer: Scope)

  datatype Goal = Goal(e: Expr, scope: Scope)

  function Goals(es: seq<Expr>, scope: Scope): (gs: seq<Goal>)
    ensures |gs| == |es| && forall i :: 0 <= i < |es| ==> gs[i] == Goal(es[i], scope)
  {
    seq(|es|, i requires 0 <= i < |es| => Goal(es[i], scope))
  }

  /** The override of a rule. */
  function OverrideOf(table: seq<Override>, name: string): (r: Option<Override>)
    ensures r.Some? ==> r.value in table && r.value.rule == name
    ensures r.None? <==> forall o :: o in table ==> o.rule != name
    decreases |table|
  {
    if table == [] then None
    else
      var last := table[|table| - 1];
      assert table == table[..|table| - 1] + [last];
      if last.rule == name then Some(last) else OverrideOf(table[..|table| - 1], name)
  }

  /** Anonymous: a part of a rule. */
  function Part(shape: Shape<Goal>): Form<Goal> { Form("", None, shape) }

  /** A rule matches the parts of its body in order; a body that is no sequence is one part. */
  function RuleForm(rule: Rule, scope: Scope): Form<Goal> {
    Form(rule.name, Some(rule.name),
      InOrder(match rule.expression
        case Sequence(parts) => Goals(parts, scope)
        case e => [Goal(e, scope)]))
  }

  function NameForm(g: Grammar, table: seq<Override>, name: string, scope: Scope): Form<Goal> {
    if scope.Bound? && scope.param == name then Part(Another(Goal(scope.arg, scope.outer)))
    else match OverrideOf(table, name)
      case Some(o) =>
        if HasRule(g, name) then Form(name, Some(name), Leaf(o.leaf))
        else Form(if o.preset == "" then name else o.preset, None, Leaf(o.leaf))
      case None =>
        if HasRule(g, name) && RuleOf(g, name).parameters == [] then RuleForm(RuleOf(g, name), TopLevel)
        else Part(Meaningless)
  }

  /** A call is the rule with its one parameter bound. */
  function CallForm(g: Grammar, name: string, arg: Expr, scope: Scope): Form<Goal> {
    if HasRule(g, name) && |RuleOf(g, name).parameters| == 1
    then RuleForm(RuleOf(g, name), Bound(RuleOf(g, name).parameters[0], arg, scope))
    else Part(Meaningless)
  }

  function ExprForm(g: Grammar, table: seq<Override>, goal: Goal): Form<Goal> {
    var scope := goal.scope;
    match goal.e
    case Literal(text) => Part(Leaf(KeywordLeaf(text)))
    case Reference(name) => NameForm(g, table, name, scope)
    case Call(name, arg) => CallForm(g, name, arg, scope)
    case Sequence(parts) => Part(InOrder(Goals(parts, scope)))
    case Choice(alternatives) => Part(FirstOf(Goals(alternatives, scope)))
    case Optional(e) => Part(ZeroOrOne(Goal(e, scope)))
    case Repeat(e) => Part(OneOrMore(Goal(e, scope)))
    case OptionalRepeat(e) => Part(ZeroOrMore(Goal(e, scope)))
    case Regex(_) => Part(Meaningless)
  }

  /** The expressions of a grammar as goals. */
  function Expressions(g: Grammar, table: seq<Override>): Goal -> Form<Goal> {
    (goal: Goal) => ExprForm(g, table, goal)
  }

  /** What the grammar says of a rule at a token. */
  ghost predicate RuleJudged(g: Grammar, table: seq<Override>, lexicon: Lexicon, tokens: seq<Token>, rule: string,
                             pos: nat, o: Outcome)
  {
    Judged(Expressions(g, table), lexicon, tokens, Goal(Reference(rule), TopLevel), pos, o)
  }
}
