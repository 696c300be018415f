/** From the matchers back to the grammar: what is derived of a compiled matcher is derived of the
    expression it was made for. */
module Raising {
  import opened Tokens
  import opened ParseTree
  import opened SpecialMatchers
  import opened LeafJudgment
  import opened PegJudgment
  import opened GraphJudgment
  import opened GrammarJudgment
  import opened PegSemantics
  import opened PegProgram
  import opened PegGrammar
  import opened Substitution
  import opened Compilation

  type Raised = seq<Derivation<Goal>>

  /** A finished compilation. */
  ghost predicate Finished(su: Setup, levels: map<string, nat>, table: seq<Override>, e: Engine, im: Image,
                           p: Program) {
    && Acceptable(su, levels) && su.overridden == (set o | o in table :: o.rule)
    && (forall n :: n in im.ids && n !in su.overridden ==> Reached(su, levels, n) && DesugarRule(su, levels, n, []).Ok?)
    && p == ProgramOf(su, levels, OverridesOf(su, table), im.ids.Keys)
    && Represents(e, im, p)
  }

  /** The arguments of a rule's parameters are what its scope binds them to. */
  ghost predicate ScopeStands(su: Setup, levels: map<string, nat>, scope: Scope, params: seq<string>, args: seq<Core>)
    requires Acceptable(su, levels)
    decreases scope, 0
  {
    match scope
    case TopLevel => params == [] && args == []
    case Bound(param, arg, outer) =>
      && params == [param] && |args| == 1
      && exists level, ps, cs :: ArgStands(su, levels, arg, outer, args[0], level, ps, cs)
  }

  ghost predicate ArgStands(su: Setup, levels: map<string, nat>, arg: Expr, outer: Scope, c: Core,
                            level: nat, ps: seq<string>, cs: seq<Core>)
    requires Acceptable(su, levels)
    decreases outer, 1
  {
    && ScopeStands(su, levels, outer, ps, cs) && |ps| == |cs|
    && CallsBelow(su.g, levels, arg, level) && SpelledRight(su, levels, ps, arg)
    && Desugar(su, levels, arg, level, ps, cs) == Ok(c)
  }

  lemma BoundStands(su: Setup, levels: map<string, nat>, param: string, arg: Expr, outer: Scope, c: Core,
                    level: nat, ps: seq<string>, cs: seq<Core>)
    requires Acceptable(su, levels) && ArgStands(su, levels, arg, outer, c, level, ps, cs)
    ensures ScopeStands(su, levels, Bound(param, arg, outer), [param], [c])
  {
    assert [c][0] == c;
  }

  /** The core of a goal. */
  ghost predicate GoalStands(su: Setup, levels: map<string, nat>, goal: Goal, level: nat, ps: seq<string>,
                             cs: seq<Core>, c: Core)
    requires Acceptable(su, levels)
  {
    ArgStands(su, levels, goal.e, goal.scope, c, level, ps, cs)
  }

  lemma {:induction false} DesugaredAt(su: Setup, levels: map<string, nat>, es: seq<Expr>, level: nat,
                                       ps: seq<string>, cs: seq<Core>, parts: seq<Core>)
    requires Acceptable(su, levels) && |ps| == |cs|
    requires forall i :: 0 <= i < |es| ==> CallsBelow(su.g, levels, es[i], level)
    requires DesugarAll(su, levels, es, level, ps, cs) == Ok(parts)
    ensures |parts| == |es| && forall i :: 0 <= i < |es| ==> Desugar(su, levels, es[i], level, ps, cs) == Ok(parts[i])
    decreases |es|
  {
    if es != [] {
      var n := |es| - 1;
      DesugaredAt(su, levels, es[..n], level, ps, cs, parts[..n]);
      assert DesugarAll(su, levels, es[..n], level, ps, cs) == Ok(parts[..n]);
      forall i | 0 <= i < n
        ensures Desugar(su, levels, es[i], level, ps, cs) == Ok(parts[i])
      {
        assert es[..n][i] == es[i];
      }
    }
  }

  lemma {:induction false} OverrideInstalled(su: Setup, table: seq<Override>, name: string)
    ensures OverrideOf(table, name).Some? <==> name in OverridesOf(su, table)
    ensures OverrideOf(table, name).Some? ==>
      OverridesOf(su, table)[name] == OverrideDefinition(su, OverrideOf(table, name).value)
    decreases |table|
  {
    if table != [] && table[|table| - 1].rule != name {
      OverrideInstalled(su, table[..|table| - 1], name);
    }
  }

  // ----- one derivation at a time -----

  /** A goal's derivation, from premises that say what the matcher's said. */
  lemma Built(su: Setup, table: seq<Override>, lexicon: Lexicon, tokens: seq<Token>, goal: Goal,
              d: Derivation<nat>, below: Raised)
    returns (t: Derivation<Goal>)
    requires forall i :: 0 <= i < |below| ==> Checked(Expressions(su.g, table), lexicon, tokens, below[i])
    requires ShapeRule(lexicon, tokens, ExprForm(su.g, table, goal), d.pos, below, d.found)
    requires d.verdict == Called(d.found, ExprForm(su.g, table, goal).rule)
    requires FurthestOf(below) == FurthestOf(d.below)
    ensures Checked(Expressions(su.g, table), lexicon, tokens, t) && t.goal == goal && SameSaid(d, t)
  {
    t := Derivation(goal, d.pos, d.found, d.verdict, below);
    assert Expressions(su.g, table)(goal) == ExprForm(su.g, table, goal);
  }

  ghost predicate Derived(e: Engine, tokens: seq<Token>, d: Derivation<nat>) {
    Checked(Matchers(e), e.lexicon, tokens, d)
  }

  ghost predicate AllRaised(su: Setup, table: seq<Override>, lexicon: Lexicon, tokens: seq<Token>, ds: Trail,
                            ts: Raised) {
    && SameTrail(ds, ts)
    && forall i :: 0 <= i < |ts| ==> Checked(Expressions(su.g, table), lexicon, tokens, ts[i])
  }

  /** A derivation of a matcher, raised to a goal the matcher was made for. */
  lemma {:induction false} Raise(su: Setup, levels: map<string, nat>, table: seq<Override>, e: Engine, im: Image,
                                 p: Program, tokens: seq<Token>, d: Derivation<nat>, goal: Goal,
                                 level: nat, ps: seq<string>, cs: seq<Core>, c: Core)
    returns (t: Derivation<Goal>)
    requires Finished(su, levels, table, e, im, p) && Derived(e, tokens, d)
    requires GoalStands(su, levels, goal, level, ps, cs, c) && Denotes(im, d.goal, c)
    ensures Checked(Expressions(su.g, table), e.lexicon, tokens, t) && t.goal == goal && SameSaid(d, t)
    decreases d, 2, goal.scope, 1
  {
    match goal.e
    case Literal(text) =>
      assert NodeFits(im, p, e.nodes[d.goal], im.cores[d.goal]);
      t := RaiseWord(su, table, e, im, tokens, d, goal, text);
    case Reference(_) => t := RaiseName(su, levels, table, e, im, p, tokens, d, goal, level, ps, cs, c);
    case Call(_, _) => t := RaiseCall(su, levels, table, e, im, p, tokens, d, goal, level, ps, cs, c);
    case Sequence(_) => t := RaiseSequence(su, levels, table, e, im, p, tokens, d, goal, level, ps, cs, c);
    case Choice(_) => t := RaiseChoice(su, levels, table, e, im, p, tokens, d, goal, level, ps, cs, c);
    case Optional(_) => t := RaiseOption(su, levels, table, e, im, p, tokens, d, goal, level, ps, cs, c);
    case Repeat(_) => t := RaiseRepeat(su, levels, table, e, im, p, tokens, d, goal, level, ps, cs, c);
    case OptionalRepeat(_) => t := RaiseStar(su, levels, table, e, im, p, tokens, d, goal, level, ps, cs, c);
    case Regex(_) => assert false;
  }

  /** A call: the macro's rule, its parameter bound to the argument. */
  lemma {:induction false} RaiseCall(su: Setup, levels: map<string, nat>, table: seq<Override>, e: Engine, im: Image,
                                     p: Program, tokens: seq<Token>, d: Derivation<nat>, goal: Goal,
                                     level: nat, ps: seq<string>, cs: seq<Core>, c: Core)
    returns (t: Derivation<Goal>)
    requires Finished(su, levels, table, e, im, p) && Derived(e, tokens, d)
    requires GoalStands(su, levels, goal, level, ps, cs, c) && Denotes(im, d.goal, c) && goal.e.Call?
    ensures Checked(Expressions(su.g, table), e.lexicon, tokens, t) && t.goal == goal && SameSaid(d, t)
    decreases d, 2, goal.scope, 0
  {
    var x, inner := CalledWith(su, levels, table, goal, level, ps, cs, c);
    t := RaiseRule(su, levels, table, e, im, p, tokens, d, goal, goal.e.name, inner, [x]);
  }

  /** What a call's argument stands for, and the scope that binds the parameter to it. */
  lemma {:induction false} CalledWith(su: Setup, levels: map<string, nat>, table: seq<Override>, goal: Goal, level: nat,
                                      ps: seq<string>, cs: seq<Core>, c: Core)
    returns (x: Core, inner: Scope)
    requires Acceptable(su, levels) && GoalStands(su, levels, goal, level, ps, cs, c) && goal.e.Call?
    ensures Reached(su, levels, goal.e.name) && DesugarRule(su, levels, goal.e.name, [x]) == Ok(c)
    ensures ScopeStands(su, levels, inner, RuleOf(su.g, goal.e.name).parameters, [x])
    ensures ExprForm(su.g, table, goal) == RuleForm(RuleOf(su.g, goal.e.name), inner)
  {
    var name := goal.e.name;
    x := Desugar(su, levels, goal.e.arg, level, ps, cs).value;
    assert DesugarRule(su, levels, name, [x]) == Ok(c);
    var param := RuleOf(su.g, name).parameters[0];
    inner := Bound(param, goal.e.arg, goal.scope);
    BoundStands(su, levels, param, goal.e.arg, goal.scope, x, level, ps, cs);
    assert RuleOf(su.g, name).parameters == [param];
  }

  // ----- the matcher of a core, and what is derived of it -----

  lemma ListNode(e: Engine, im: Image, p: Program, tokens: seq<Token>, d: Derivation<nat>, c: Core)
    returns (ids: seq<nat>)
    requires Represents(e, im, p) && Derived(e, tokens, d) && Denotes(im, d.goal, c) && c.Seq?
    ensures DenotesAll(im, ids, c.parts)
    ensures OrderRule(c.meta.name, ids, tokens, d.pos, d.below, d.found) && d.verdict == Called(d.found, c.meta.rule)
  {
    assert NodeFits(im, p, e.nodes[d.goal], c);
    assert Matchers(e)(d.goal) == MatcherForm(e, d.goal);
    ids := e.nodes[d.goal].body.children;
  }

  lemma ChoiceNode(e: Engine, im: Image, p: Program, tokens: seq<Token>, d: Derivation<nat>, c: Core)
    returns (ids: seq<nat>)
    requires Represents(e, im, p) && Derived(e, tokens, d) && Denotes(im, d.goal, c) && c.Alt?
    ensures DenotesAll(im, ids, c.parts)
    ensures ChoiceRule(ids, tokens, d.pos, d.below, d.found) && d.verdict == d.found
  {
    assert NodeFits(im, p, e.nodes[d.goal], c);
    assert Matchers(e)(d.goal) == MatcherForm(e, d.goal);
    ids := e.nodes[d.goal].body.children;
  }

  lemma OptionNode(e: Engine, im: Image, p: Program, tokens: seq<Token>, d: Derivation<nat>, c: Core)
    returns (id: nat)
    requires Represents(e, im, p) && Derived(e, tokens, d) && Denotes(im, d.goal, c) && c.Opt?
    ensures Denotes(im, id, c.inner) && |d.below| == 1 && Derived(e, tokens, d.below[0])
    ensures OptionRule(id, tokens, d.pos, d.below, d.found) && d.verdict == d.found
  {
    assert NodeFits(im, p, e.nodes[d.goal], c);
    assert Matchers(e)(d.goal) == MatcherForm(e, d.goal);
    id := e.nodes[d.goal].body.child;
  }

  lemma RepeatNode(e: Engine, im: Image, p: Program, tokens: seq<Token>, d: Derivation<nat>, c: Core)
    returns (id: nat)
    requires Represents(e, im, p) && Derived(e, tokens, d) && Denotes(im, d.goal, c) && c.Plus?
    ensures Denotes(im, id, c.inner) && RepeatRule(id, tokens, d.pos, d.below, d.found) && d.verdict == d.found
  {
    assert NodeFits(im, p, e.nodes[d.goal], c);
    assert Matchers(e)(d.goal) == MatcherForm(e, d.goal);
    id := e.nodes[d.goal].body.element;
  }

  /** The parts of a sequence or choice stand for the parts of its core. */
  lemma PartsStand(su: Setup, levels: map<string, nat>, goal: Goal, level: nat, ps: seq<string>, cs: seq<Core>,
                   c: Core)
    requires Acceptable(su, levels) && GoalStands(su, levels, goal, level, ps, cs, c)
    requires goal.e.Sequence? || goal.e.Choice?
    ensures if goal.e.Sequence? then c.Seq? && c.meta == ANONYMOUS else c.Alt?
    ensures |goal.e.children| == |c.parts| && forall i :: 0 <= i < |c.parts| ==>
      ArgStands(su, levels, goal.e.children[i], goal.scope, c.parts[i], level, ps, cs)
  {
    DesugaredAt(su, levels, goal.e.children, level, ps, cs, c.parts);
  }

  /** The operand of `?`, `+` or `*` stands for what the core repeats or leaves out. */
  lemma OperandStands(su: Setup, levels: map<string, nat>, goal: Goal, level: nat, ps: seq<string>, cs: seq<Core>,
                      c: Core)
    requires Acceptable(su, levels) && GoalStands(su, levels, goal, level, ps, cs, c)
    ensures goal.e.Optional? ==>
      c.Opt? && GoalStands(su, levels, Goal(goal.e.child, goal.scope), level, ps, cs, c.inner)
    ensures goal.e.Repeat? ==>
      c.Plus? && GoalStands(su, levels, Goal(goal.e.child, goal.scope), level, ps, cs, c.inner)
    ensures goal.e.OptionalRepeat? ==>
      c.Opt? && c.inner.Plus? && GoalStands(su, levels, Goal(goal.e.child, goal.scope), level, ps, cs, c.inner.inner)
  {
  }

  // ----- form by form -----

  lemma {:induction false} RaiseSequence(su: Setup, levels: map<string, nat>, table: seq<Override>, e: Engine,
                                         im: Image, p: Program, tokens: seq<Token>, d: Derivation<nat>, goal: Goal,
                                         level: nat, ps: seq<string>, cs: seq<Core>, c: Core)
    returns (t: Derivation<Goal>)
    requires Finished(su, levels, table, e, im, p) && Derived(e, tokens, d)
    requires GoalStands(su, levels, goal, level, ps, cs, c) && Denotes(im, d.goal, c) && goal.e.Sequence?
    ensures Checked(Expressions(su.g, table), e.lexicon, tokens, t) && t.goal == goal && SameSaid(d, t)
    decreases d, 1
  {
    var es := goal.e.children;
    PartsStand(su, levels, goal, level, ps, cs, c);
    var ids := ListNode(e, im, p, tokens, d, c);
    var ts := RaiseParts(su, levels, table, e, im, p, tokens, d, ids, es, goal.scope, level, ps, cs, c.parts);
    OrderRuleMoves("", ids, Goals(es, goal.scope), tokens, d.pos, d.below, ts, d.found);
    t := Built(su, table, e.lexicon, tokens, goal, d, ts);
  }

  lemma {:induction false} RaiseChoice(su: Setup, levels: map<string, nat>, table: seq<Override>, e: Engine, im: Image,
                                       p: Program, tokens: seq<Token>, d: Derivation<nat>, goal: Goal,
                                       level: nat, ps: seq<string>, cs: seq<Core>, c: Core)
    returns (t: Derivation<Goal>)
    requires Finished(su, levels, table, e, im, p) && Derived(e, tokens, d)
    requires GoalStands(su, levels, goal, level, ps, cs, c) && Denotes(im, d.goal, c) && goal.e.Choice?
    ensures Checked(Expressions(su.g, table), e.lexicon, tokens, t) && t.goal == goal && SameSaid(d, t)
    decreases d, 1
  {
    var es := goal.e.children;
    PartsStand(su, levels, goal, level, ps, cs, c);
    var ids := ChoiceNode(e, im, p, tokens, d, c);
    var ts := RaiseParts(su, levels, table, e, im, p, tokens, d, ids, es, goal.scope, level, ps, cs, c.parts);
    ChoiceRuleMoves(ids, Goals(es, goal.scope), tokens, d.pos, d.below, ts, d.found);
    t := Built(su, table, e.lexicon, tokens, goal, d, ts);
  }

  lemma RaiseWord(su: Setup, table: seq<Override>, e: Engine, im: Image, tokens: seq<Token>, d: Derivation<nat>,
                  goal: Goal, text: string)
    returns (t: Derivation<Goal>)
    requires goal.e == Literal(text) && Derived(e, tokens, d)
    requires d.goal < |e.nodes| && d.goal < |im.cores| && im.cores[d.goal].Lit? && CiEquals(im.cores[d.goal].text, text)
    requires e.nodes[d.goal].meta == ANONYMOUS && e.nodes[d.goal].body == LeafOf(KeywordLeaf(im.cores[d.goal].text))
    ensures Checked(Expressions(su.g, table), e.lexicon, tokens, t) && t.goal == goal && SameSaid(d, t)
  {
    var other := im.cores[d.goal].text;
    assert Matchers(e)(d.goal) == MatcherForm(e, d.goal);
    LeafRuleIff(e.lexicon, KeywordLeaf(other), "", tokens, d.pos, d.found);
    LeafRuleIff(e.lexicon, KeywordLeaf(text), "", tokens, d.pos, d.found);
    SameKeyword(e.lexicon, other, text, tokens, d.pos);
    t := Built(su, table, e.lexicon, tokens, goal, d, []);
  }

  /** A name: a bound parameter, an overridden rule or a plain one. */
  lemma {:induction false} RaiseName(su: Setup, levels: map<string, nat>, table: seq<Override>, e: Engine, im: Image,
                                     p: Program, tokens: seq<Token>, d: Derivation<nat>, goal: Goal,
                                     level: nat, ps: seq<string>, cs: seq<Core>, c: Core)
    returns (t: Derivation<Goal>)
    requires Finished(su, levels, table, e, im, p) && Derived(e, tokens, d)
    requires GoalStands(su, levels, goal, level, ps, cs, c) && Denotes(im, d.goal, c) && goal.e.Reference?
    ensures Checked(Expressions(su.g, table), e.lexicon, tokens, t) && t.goal == goal && SameSaid(d, t)
    decreases d, 2, goal.scope, 0
  {
    var name := goal.e.name;
    assert ScopeStands(su, levels, goal.scope, ps, cs);
    if goal.scope.Bound? && goal.scope.param == name {
      var Bound(_, arg, outer) := goal.scope;
      assert cs[0] == c;
      var level', ps', cs' :| ArgStands(su, levels, arg, outer, cs[0], level', ps', cs');
      var inner := Raise(su, levels, table, e, im, p, tokens, d, Goal(arg, outer), level', ps', cs', c);
      t := RaiseBound(su, table, e.lexicon, tokens, d, goal, inner);
    } else {
      assert name !in ps;
      t := RaiseRegistered(su, levels, table, e, im, p, tokens, d, goal);
    }
  }

  /** A name the scope does not bind: an overridden rule or a plain one. */
  lemma {:induction false} RaiseRegistered(su: Setup, levels: map<string, nat>, table: seq<Override>, e: Engine,
                                           im: Image, p: Program, tokens: seq<Token>, d: Derivation<nat>, goal: Goal)
    returns (t: Derivation<Goal>)
    requires Finished(su, levels, table, e, im, p) && Derived(e, tokens, d) && goal.e.Reference?
    requires !(goal.scope.Bound? && goal.scope.param == goal.e.name)
    requires goal.e.name in im.ids && d.goal == im.ids[goal.e.name]
    ensures Checked(Expressions(su.g, table), e.lexicon, tokens, t) && t.goal == goal && SameSaid(d, t)
    decreases d, 2, goal.scope, 0, 0
  {
    var name := goal.e.name;
    OverrideInstalled(su, table, name);
    assert RuleFits(im, p, name);
    if name in su.overridden {
      assert NodeFits(im, p, e.nodes[d.goal], im.cores[d.goal]);
      t := RaiseLeaf(su, table, e, tokens, d, goal, OverrideOf(table, name).value);
    } else {
      PlainForm(su, levels, table, goal);
      t := RaiseRule(su, levels, table, e, im, p, tokens, d, goal, name, TopLevel, []);
    }
  }

  lemma PlainForm(su: Setup, levels: map<string, nat>, table: seq<Override>, goal: Goal)
    requires goal.e.Reference? && !(goal.scope.Bound? && goal.scope.param == goal.e.name)
    requires OverrideOf(table, goal.e.name).None? && Acceptable(su, levels)
    requires Reached(su, levels, goal.e.name) && DesugarRule(su, levels, goal.e.name, []).Ok?
    ensures RuleOf(su.g, goal.e.name).parameters == []
    ensures ExprForm(su.g, table, goal) == RuleForm(RuleOf(su.g, goal.e.name), TopLevel)
  {
  }

  lemma RaiseBound(su: Setup, table: seq<Override>, lexicon: Lexicon, tokens: seq<Token>, d: Derivation<nat>,
                   goal: Goal, inner: Derivation<Goal>)
    returns (t: Derivation<Goal>)
    requires goal.e.Reference? && goal.scope.Bound? && goal.scope.param == goal.e.name
    requires Checked(Expressions(su.g, table), lexicon, tokens, inner) && SameSaid(d, inner)
    requires inner.goal == Goal(goal.scope.arg, goal.scope.outer)
    ensures Checked(Expressions(su.g, table), lexicon, tokens, t) && t.goal == goal && SameSaid(d, t)
  {
    t := Derivation(goal, inner.pos, inner.verdict, inner.verdict, [inner]);
    assert Expressions(su.g, table)(goal) == ExprForm(su.g, table, goal);
    OneFurthest(inner);
    assert inner.verdict.Yes? ==> inner.verdict.end == inner.found.end;
  }

  lemma RaiseLeaf(su: Setup, table: seq<Override>, e: Engine, tokens: seq<Token>, d: Derivation<nat>, goal: Goal,
                  o: Override)
    returns (t: Derivation<Goal>)
    requires Derived(e, tokens, d) && d.goal < |e.nodes| && goal.e == Reference(o.rule)
    requires !(goal.scope.Bound? && goal.scope.param == o.rule) && OverrideOf(table, o.rule) == Some(o)
    requires e.nodes[d.goal].meta == OverrideDefinition(su, o).meta && e.nodes[d.goal].body == LeafOf(o.leaf)
    ensures Checked(Expressions(su.g, table), e.lexicon, tokens, t) && t.goal == goal && SameSaid(d, t)
  {
    assert Matchers(e)(d.goal) == MatcherForm(e, d.goal);
    t := Built(su, table, e.lexicon, tokens, goal, d, []);
  }

  /** A rule's list, whatever its parameter is bound to. */
  lemma {:induction false} RaiseRule(su: Setup, levels: map<string, nat>, table: seq<Override>, e: Engine, im: Image,
                                     p: Program, tokens: seq<Token>, d: Derivation<nat>, goal: Goal, name: string,
                                     scope: Scope, args: seq<Core>)
    returns (t: Derivation<Goal>)
    requires Finished(su, levels, table, e, im, p) && Derived(e, tokens, d)
    requires Reached(su, levels, name) && DesugarRule(su, levels, name, args).Ok?
    requires d.goal < |im.cores| && im.cores[d.goal] == DesugarRule(su, levels, name, args).value
    requires ScopeStands(su, levels, scope, RuleOf(su.g, name).parameters, args)
    requires ExprForm(su.g, table, goal) == RuleForm(RuleOf(su.g, name), scope)
    ensures Checked(Expressions(su.g, table), e.lexicon, tokens, t) && t.goal == goal && SameSaid(d, t)
    decreases d, 1
  {
    var c := im.cores[d.goal];
    RuleCore(su, levels, name, args, c);
    var es := RuleParts(su, levels, name, scope, args, c.parts);
    var ids := ListNode(e, im, p, tokens, d, c);
    var ts := RaiseParts(su, levels, table, e, im, p, tokens, d, ids, es, scope, levels[Lower(name)],
      RuleOf(su.g, name).parameters, args, c.parts);
    OrderRuleMoves(c.meta.name, ids, Goals(es, scope), tokens, d.pos, d.below, ts, d.found);
    t := Built(su, table, e.lexicon, tokens, goal, d, ts);
  }

  /** The core of a rule is a list under the rule's name. */
  lemma {:induction false} RuleCore(su: Setup, levels: map<string, nat>, name: string, args: seq<Core>, c: Core)
    requires Acceptable(su, levels) && Reached(su, levels, name) && DesugarRule(su, levels, name, args) == Ok(c)
    ensures c.Seq? && c.meta.name == RuleOf(su.g, name).name && c.meta.rule == Some(RuleOf(su.g, name).name)
  {
  }

  /** The parts of a rule's body, and what each stands for. */
  lemma RuleParts(su: Setup, levels: map<string, nat>, name: string, scope: Scope, args: seq<Core>, parts: seq<Core>)
    returns (es: seq<Expr>)
    requires Acceptable(su, levels) && Reached(su, levels, name) && DesugarRule(su, levels, name, args).Ok?
    requires DesugarRule(su, levels, name, args).value.parts == parts
    requires ScopeStands(su, levels, scope, RuleOf(su.g, name).parameters, args)
    ensures |es| == |parts| && RuleForm(RuleOf(su.g, name), scope).shape == InOrder(Goals(es, scope))
    ensures forall i :: 0 <= i < |es| ==>
      ArgStands(su, levels, es[i], scope, parts[i], levels[Lower(name)], RuleOf(su.g, name).parameters, args)
  {
    var rule, level := RuleOf(su.g, name), levels[Lower(name)];
    assert SpelledRight(su, levels, rule.parameters, rule.expression);
    assert CallsBelow(su.g, levels, rule.expression, level);
    if rule.expression.Sequence? {
      es := rule.expression.children;
      DesugaredAt(su, levels, es, level, rule.parameters, args, parts);
    } else {
      es := [rule.expression];
      assert Goals([rule.expression], scope) == [Goal(rule.expression, scope)];
    }
  }

  /** The parts tried below a list or a choice. */
  lemma {:induction false} RaiseParts(su: Setup, levels: map<string, nat>, table: seq<Override>, e: Engine, im: Image,
                                      p: Program, tokens: seq<Token>, d: Derivation<nat>, ids: seq<nat>, es: seq<Expr>,
                                      scope: Scope, level: nat, ps: seq<string>, cs: seq<Core>, parts: seq<Core>)
    returns (ts: Raised)
    requires Finished(su, levels, table, e, im, p) && Derived(e, tokens, d)
    requires TriedInOrder(ids, d.below, d.pos) || TriedInTurn(ids, d.below, d.pos)
    requires |es| == |ids| == |parts| && DenotesAll(im, ids, parts)
    requires forall i :: 0 <= i < |es| ==> ArgStands(su, levels, es[i], scope, parts[i], level, ps, cs)
    ensures AllRaised(su, table, e.lexicon, tokens, d.below, ts) && GoalsAre(ts, Goals(es, scope))
    ensures FurthestOf(ts) == FurthestOf(d.below)
    decreases d, 0
  {
    PartsBelow(e, tokens, d, ids);
    ts := [];
    for i := 0 to |d.below|
      invariant |ts| == i && GoalsAre(ts, Goals(es, scope))
      invariant RaisedSoFar(su, table, e.lexicon, tokens, d.below, ts)
    {
      assert Denotes(im, ids[i], parts[i]) && ArgStands(su, levels, es[i], scope, parts[i], level, ps, cs);
      var one := Raise(su, levels, table, e, im, p, tokens, d.below[i], Goal(es[i], scope), level, ps, cs, parts[i]);
      OneMoreRaised(su, table, e.lexicon, tokens, d.below, ts, one, Goals(es, scope));
      ts := ts + [one];
    }
    SameFurthest(d.below, ts);
  }

  lemma OneMoreRaised(su: Setup, table: seq<Override>, lexicon: Lexicon, tokens: seq<Token>, ds: Trail, ts: Raised,
                      one: Derivation<Goal>, goals: seq<Goal>)
    requires RaisedSoFar(su, table, lexicon, tokens, ds, ts) && GoalsAre(ts, goals)
    requires |ts| < |ds| && |ts| < |goals| && SameSaid(ds[|ts|], one) && one.goal == goals[|ts|]
    requires Checked(Expressions(su.g, table), lexicon, tokens, one)
    ensures RaisedSoFar(su, table, lexicon, tokens, ds, ts + [one]) && GoalsAre(ts + [one], goals)
  {
  }

  ghost predicate RaisedSoFar(su: Setup, table: seq<Override>, lexicon: Lexicon, tokens: seq<Token>, ds: Trail,
                              ts: Raised) {
    |ts| <= |ds| && forall k :: 0 <= k < |ts| ==>
      SameSaid(ds[k], ts[k]) && Checked(Expressions(su.g, table), lexicon, tokens, ts[k])
  }

  lemma PartsBelow(e: Engine, tokens: seq<Token>, d: Derivation<nat>, ids: seq<nat>)
    requires Derived(e, tokens, d) && (TriedInOrder(ids, d.below, d.pos) || TriedInTurn(ids, d.below, d.pos))
    ensures |d.below| <= |ids|
    ensures forall i :: 0 <= i < |d.below| ==> d.below[i].goal == ids[i] && Derived(e, tokens, d.below[i])
  {
    if TriedInOrder(ids, d.below, d.pos) {
      OrderGoals(ids, d.below, d.pos);
    } else {
      TurnGoals(ids, d.below, d.pos);
    }
  }

  lemma {:induction false} RaiseOption(su: Setup, levels: map<string, nat>, table: seq<Override>, e: Engine, im: Image,
                                       p: Program, tokens: seq<Token>, d: Derivation<nat>, goal: Goal,
                                       level: nat, ps: seq<string>, cs: seq<Core>, c: Core)
    returns (t: Derivation<Goal>)
    requires Finished(su, levels, table, e, im, p) && Derived(e, tokens, d)
    requires GoalStands(su, levels, goal, level, ps, cs, c) && Denotes(im, d.goal, c) && goal.e.Optional?
    ensures Checked(Expressions(su.g, table), e.lexicon, tokens, t) && t.goal == goal && SameSaid(d, t)
    decreases d, 0
  {
    OperandStands(su, levels, goal, level, ps, cs, c);
    var inner := Goal(goal.e.child, goal.scope);
    var id := OptionNode(e, im, p, tokens, d, c);
    var one := Raise(su, levels, table, e, im, p, tokens, d.below[0], inner, level, ps, cs, c.inner);
    SameFurthest(d.below, [one]);
    t := Built(su, table, e.lexicon, tokens, goal, d, [one]);
  }

  /** The rounds of a repeat. */
  lemma {:induction false} RaiseRounds(su: Setup, levels: map<string, nat>, table: seq<Override>, e: Engine, im: Image,
                                       p: Program, tokens: seq<Token>, d: Derivation<nat>, id: nat, inner: Goal,
                                       level: nat, ps: seq<string>, cs: seq<Core>, c: Core)
    returns (ts: Raised)
    requires Finished(su, levels, table, e, im, p) && Derived(e, tokens, d)
    requires TriedAgain(id, d.below, d.pos) && Denotes(im, id, c) && GoalStands(su, levels, inner, level, ps, cs, c)
    ensures AllRaised(su, table, e.lexicon, tokens, d.below, ts) && forall i :: 0 <= i < |ts| ==> ts[i].goal == inner
    ensures FurthestOf(ts) == FurthestOf(d.below)
    decreases d, 0
  {
    RoundsBelow(e, tokens, d, id);
    ts := [];
    for i := 0 to |d.below|
      invariant |ts| == i && AllOf(ts, inner) && RaisedSoFar(su, table, e.lexicon, tokens, d.below, ts)
    {
      var one := Raise(su, levels, table, e, im, p, tokens, d.below[i], inner, level, ps, cs, c);
      OneMoreRound(su, table, e.lexicon, tokens, d.below, ts, one, inner);
      ts := ts + [one];
    }
    SameFurthest(d.below, ts);
  }

  predicate AllOf(ts: Raised, goal: Goal) { forall i :: 0 <= i < |ts| ==> ts[i].goal == goal }

  lemma {:induction false} RoundsBelow(e: Engine, tokens: seq<Token>, d: Derivation<nat>, id: nat)
    requires Derived(e, tokens, d) && TriedAgain(id, d.below, d.pos)
    ensures forall i :: 0 <= i < |d.below| ==> d.below[i].goal == id && Derived(e, tokens, d.below[i])
  {
    AgainGoals(id, d.below, d.pos);
  }

  lemma {:induction false} OneMoreRound(su: Setup, table: seq<Override>, lexicon: Lexicon, tokens: seq<Token>,
                                        ds: Trail, ts: Raised, one: Derivation<Goal>, goal: Goal)
    requires RaisedSoFar(su, table, lexicon, tokens, ds, ts) && AllOf(ts, goal)
    requires |ts| < |ds| && SameSaid(ds[|ts|], one) && one.goal == goal
    requires Checked(Expressions(su.g, table), lexicon, tokens, one)
    ensures RaisedSoFar(su, table, lexicon, tokens, ds, ts + [one]) && AllOf(ts + [one], goal)
  {
  }

  lemma {:induction false} RaiseRepeat(su: Setup, levels: map<string, nat>, table: seq<Override>, e: Engine, im: Image,
                                       p: Program, tokens: seq<Token>, d: Derivation<nat>, goal: Goal,
                                       level: nat, ps: seq<string>, cs: seq<Core>, c: Core)
    returns (t: Derivation<Goal>)
    requires Finished(su, levels, table, e, im, p) && Derived(e, tokens, d)
    requires GoalStands(su, levels, goal, level, ps, cs, c) && Denotes(im, d.goal, c) && goal.e.Repeat?
    ensures Checked(Expressions(su.g, table), e.lexicon, tokens, t) && t.goal == goal && SameSaid(d, t)
    decreases d, 1
  {
    OperandStands(su, levels, goal, level, ps, cs, c);
    var inner := Goal(goal.e.child, goal.scope);
    var id := RepeatNode(e, im, p, tokens, d, c);
    var ts := RaiseRounds(su, levels, table, e, im, p, tokens, d, id, inner, level, ps, cs, c.inner);
    RepeatRuleMoves(id, inner, tokens, d.pos, d.below, ts, d.found);
    t := Built(su, table, e.lexicon, tokens, goal, d, ts);
  }

  /** `*` is compiled as an optional over a repeat: the repeat's rounds are its own. */
  lemma {:induction false} RaiseStar(su: Setup, levels: map<string, nat>, table: seq<Override>, e: Engine, im: Image,
                                     p: Program, tokens: seq<Token>, d: Derivation<nat>, goal: Goal,
                                     level: nat, ps: seq<string>, cs: seq<Core>, c: Core)
    returns (t: Derivation<Goal>)
    requires Finished(su, levels, table, e, im, p) && Derived(e, tokens, d)
    requires GoalStands(su, levels, goal, level, ps, cs, c) && Denotes(im, d.goal, c) && goal.e.OptionalRepeat?
    ensures Checked(Expressions(su.g, table), e.lexicon, tokens, t) && t.goal == goal && SameSaid(d, t)
    decreases d, 0
  {
    OperandStands(su, levels, goal, level, ps, cs, c);
    var r, id := StarNodes(e, im, p, tokens, d, c);
    var inner := Goal(goal.e.child, goal.scope);
    var ts := RaiseRounds(su, levels, table, e, im, p, tokens, r, id, inner, level, ps, cs, c.inner.inner);
    RepeatRuleMoves(id, inner, tokens, r.pos, r.below, ts, r.found);
    t := StarBuilt(su, table, e.lexicon, tokens, goal, d, r, ts);
  }

  lemma StarBuilt(su: Setup, table: seq<Override>, lexicon: Lexicon, tokens: seq<Token>, goal: Goal,
                  d: Derivation<nat>, r: Derivation<nat>, ts: Raised)
    returns (t: Derivation<Goal>)
    requires goal.e.OptionalRepeat? && d.below == [r] && r.pos == d.pos && d.verdict == d.found && r.verdict == r.found
    requires OptionRule(r.goal, tokens, d.pos, d.below, d.found)
    requires RepeatRule(Goal(goal.e.child, goal.scope), tokens, r.pos, ts, r.found)
    requires FurthestOf(ts) == FurthestOf(r.below)
    requires forall i :: 0 <= i < |ts| ==> Checked(Expressions(su.g, table), lexicon, tokens, ts[i])
    ensures Checked(Expressions(su.g, table), lexicon, tokens, t) && t.goal == goal && SameSaid(d, t)
  {
    StarOf(Goal(goal.e.child, goal.scope), tokens, d, r, ts);
    t := Derivation(goal, d.pos, d.found, d.verdict, ts);
    assert Expressions(su.g, table)(goal) == ExprForm(su.g, table, goal);
  }

  /** The optional and the repeat under it. */
  lemma StarNodes(e: Engine, im: Image, p: Program, tokens: seq<Token>, d: Derivation<nat>, c: Core)
    returns (r: Derivation<nat>, id: nat)
    requires Represents(e, im, p) && Derived(e, tokens, d) && Denotes(im, d.goal, c) && c.Opt? && c.inner.Plus?
    ensures d.below == [r] && r.pos == d.pos && Derived(e, tokens, r)
    ensures OptionRule(r.goal, tokens, d.pos, d.below, d.found) && d.verdict == d.found
    ensures RepeatRule(id, tokens, r.pos, r.below, r.found) && r.verdict == r.found && Denotes(im, id, c.inner.inner)
  {
    var repeat := OptionNode(e, im, p, tokens, d, c);
    r := d.below[0];
    id := RepeatNode(e, im, p, tokens, r, c.inner);
  }

  /** Zero or more is at most one row of one or more. */
  lemma StarOf(inner: Goal, tokens: seq<Token>, d: Derivation<nat>, r: Derivation<nat>, ts: Raised)
    requires d.below == [r] && r.pos == d.pos && r.verdict == r.found && FurthestOf(ts) == FurthestOf(r.below)
    requires OptionRule(r.goal, tokens, d.pos, d.below, d.found) && RepeatRule(inner, tokens, r.pos, ts, r.found)
    ensures StarRule(inner, tokens, d.pos, ts, d.found)
    ensures Max(if d.found.Yes? then Max(d.pos, d.found.end) else d.pos, FurthestOf(ts)) == Furthest(d)
  {
    OneFurthest(r);
    AtItsPlace(inner, ts, r.pos);
  }

  lemma AtItsPlace(goal: Goal, ts: Raised, pos: nat)
    requires TriedAgain(goal, ts, pos)
    ensures |ts| == 1 ==> ts[0].pos == pos
  {
  }

  /** What a finished engine does with a rule is what the grammar says of it: derived in one way,
      whatever evidence of termination the engine is run with. */
  ghost predicate MatchesAsJudged(g: Grammar, table: seq<Override>, e: Engine, ids: map<string, nat>) {
    forall w, rule, tokens, pos :: rule in ids && WellRanked(e, w) && ids[rule] in w.live ==>
      RuleJudged(g, table, e.lexicon, tokens, rule, pos, Run(e, w, tokens, ids[rule], pos))
  }

  lemma FinishedIsJudged(su: Setup, levels: map<string, nat>, table: seq<Override>, e: Engine, im: Image, p: Program)
    requires Finished(su, levels, table, e, im, p)
    ensures MatchesAsJudged(su.g, table, e, im.ids)
  {
    forall w, rule, tokens, pos | rule in im.ids && WellRanked(e, w) && im.ids[rule] in w.live
      ensures RuleJudged(su.g, table, e.lexicon, tokens, rule, pos, Run(e, w, tokens, im.ids[rule], pos))
    {
      RuleIsJudged(su, levels, table, e, im, p, w, tokens, rule, pos);
    }
  }

  /** A registered rule, at the top level. */
  lemma RaiseTop(su: Setup, levels: map<string, nat>, table: seq<Override>, e: Engine, im: Image, p: Program,
                 tokens: seq<Token>, d: Derivation<nat>, rule: string)
    returns (t: Derivation<Goal>)
    requires Finished(su, levels, table, e, im, p) && Derived(e, tokens, d)
    requires rule in im.ids && d.goal == im.ids[rule]
    ensures Checked(Expressions(su.g, table), e.lexicon, tokens, t) && t.goal == Goal(Reference(rule), TopLevel)
    ensures SameSaid(d, t)
  {
    t := RaiseRegistered(su, levels, table, e, im, p, tokens, d, Goal(Reference(rule), TopLevel));
  }

  lemma RuleIsJudged(su: Setup, levels: map<string, nat>, table: seq<Override>, e: Engine, im: Image, p: Program,
                     w: Witness, tokens: seq<Token>, rule: string, pos: nat)
    requires Finished(su, levels, table, e, im, p)
    requires rule in im.ids && WellRanked(e, w) && im.ids[rule] in w.live
    ensures RuleJudged(su.g, table, e.lexicon, tokens, rule, pos, Run(e, w, tokens, im.ids[rule], pos))
  {
    assert RuleFits(im, p, rule);
    var d := RunIsDerived(e, w, tokens, im.ids[rule], pos);
    var t := RaiseTop(su, levels, table, e, im, p, tokens, d, rule);
    assert Tells(t, Run(e, w, tokens, im.ids[rule], pos));
  }
}
