/** What a grammar means to the compiler: every rule with its macros substituted
    (internal/matcher/factory.go). */
module Substitution {
  import opened Tokens
  import opened SpecialMatchers
  import opened PegSemantics
  import opened PegProgram
  import opened PegGrammar

  datatype Result<+T> = Ok(value: T) | Err(msg: string)

  // ----- the grammar's meaning: macro substitution -----

  function IndexOf(params: seq<string>, name: string): (r: Option<nat>)
    ensures r.Some? ==> r.value < |params| && params[r.value] == name
    ensures r.None? ==> name !in params
  {
    if params == [] then None
    else if params[0] == name then Some(0)
    else match IndexOf(params[1..], name)
      case None => None
      case Some(i) => Some(i + 1)
  }

  /** What the compiler is given beside the grammar. */
  datatype Setup = Setup(g: Grammar, overridden: set<string>, memoized: set<string>)

  /** The rules a compilation reaches are the keys of `levels`.  Macro calls among them never come
      back to the same macro: a call's callee has a smaller level. */
  ghost predicate CallsBelow(g: Grammar, levels: map<string, nat>, e: Expr, level: nat) {
    match e
    case Call(name, arg) =>
      (HasRule(g, name) ==> Lower(name) in levels && levels[Lower(name)] < level) && CallsBelow(g, levels, arg, level)
    case Sequence(cs) => forall i :: 0 <= i < |cs| ==> CallsBelow(g, levels, cs[i], level)
    case Choice(cs) => forall i :: 0 <= i < |cs| ==> CallsBelow(g, levels, cs[i], level)
    case Optional(c) => CallsBelow(g, levels, c, level)
    case Repeat(c) => CallsBelow(g, levels, c, level)
    case OptionalRepeat(c) => CallsBelow(g, levels, c, level)
    case _ => true
  }

  ghost predicate Stratified(g: Grammar, levels: map<string, nat>) {
    forall k :: k in g.rules && k in levels ==> CallsBelow(g, levels, g.rules[k].expression, levels[k])
  }

  /** Rule references use the spelling of the rule's definition, and stay among the rules reached. */
  ghost predicate SpelledRight(su: Setup, levels: map<string, nat>, params: seq<string>, e: Expr) {
    match e
    case Reference(name) =>
      || name in params || name in su.overridden
      || (HasRule(su.g, name) ==> Lower(name) in levels && RuleOf(su.g, name).name == name)
    case Call(_, arg) => SpelledRight(su, levels, params, arg)
    case Sequence(cs) => forall i :: 0 <= i < |cs| ==> SpelledRight(su, levels, params, cs[i])
    case Choice(cs) => forall i :: 0 <= i < |cs| ==> SpelledRight(su, levels, params, cs[i])
    case Optional(c) => SpelledRight(su, levels, params, c)
    case Repeat(c) => SpelledRight(su, levels, params, c)
    case OptionalRepeat(c) => SpelledRight(su, levels, params, c)
    case _ => true
  }

  /** A rule the compilation reaches. */
  ghost predicate Reached(su: Setup, levels: map<string, nat>, name: string) {
    HasRule(su.g, name) && Lower(name) in levels
  }

  ghost predicate Acceptable(su: Setup, levels: map<string, nat>) {
    ValidGrammar(su.g) && Stratified(su.g, levels) &&
    forall k :: k in su.g.rules && k in levels ==>
      SpelledRight(su, levels, su.g.rules[k].parameters, su.g.rules[k].expression)
  }

  /** Expression e of a rule with the given parameters, each replaced by its argument; `*` is an
      optional one-or-more.  An error when a name cannot be resolved or a character class is used. */
  ghost function Desugar(su: Setup, levels: map<string, nat>, e: Expr, level: nat,
                         params: seq<string>, args: seq<Core>): (r: Result<Core>)
    requires Acceptable(su, levels) && CallsBelow(su.g, levels, e, level) && |params| == |args|
    decreases level, 0, e, 0
  {
    match e
    case Literal(text) => Ok(Lit(text))
    case Reference(name) =>
      (match IndexOf(params, name)
       case Some(i) => Ok(args[i])
       case None =>
         if name in su.overridden || (HasRule(su.g, name) && RuleOf(su.g, name).parameters == []) then Ok(Ref(name))
         else Err("unresolved rule"))
    case Call(name, arg) =>
      (match Desugar(su, levels, arg, level, params, args)
       case Err(m) => Err(m)
       case Ok(c) => if HasRule(su.g, name) then DesugarRule(su, levels, name, [c]) else Err("missing rule"))
    case Sequence(cs) =>
      (match DesugarAll(su, levels, cs, level, params, args)
       case Err(m) => Err(m)
       case Ok(parts) => Ok(Seq(ANONYMOUS, parts)))
    case Choice(cs) =>
      (match DesugarAll(su, levels, cs, level, params, args)
       case Err(m) => Err(m)
       case Ok(parts) => Ok(Alt(parts)))
    case Optional(c) =>
      (match Desugar(su, levels, c, level, params, args) case Err(m) => Err(m) case Ok(x) => Ok(Opt(x)))
    case Repeat(c) =>
      (match Desugar(su, levels, c, level, params, args) case Err(m) => Err(m) case Ok(x) => Ok(Plus(x)))
    case OptionalRepeat(c) =>
      (match Desugar(su, levels, c, level, params, args) case Err(m) => Err(m) case Ok(x) => Ok(Opt(Plus(x))))
    case Regex(_) => Err("character class")
  }

  ghost function DesugarAll(su: Setup, levels: map<string, nat>, es: seq<Expr>, level: nat,
                            params: seq<string>, args: seq<Core>): (r: Result<seq<Core>>)
    requires Acceptable(su, levels) && |params| == |args|
    requires forall i :: 0 <= i < |es| ==> CallsBelow(su.g, levels, es[i], level)
    ensures r.Ok? ==> |r.value| == |es|
    decreases level, 0, es, 1
  {
    if es == [] then Ok([])
    else
      match DesugarAll(su, levels, es[..|es| - 1], level, params, args)
      case Err(m) => Err(m)
      case Ok(parts) =>
        match Desugar(su, levels, es[|es| - 1], level, params, args)
        case Err(m) => Err(m)
        case Ok(c) => Ok(parts + [c])
  }

  /** A rule's body as one list node; a sequence body gives the list its parts. */
  ghost function DesugarRule(su: Setup, levels: map<string, nat>, name: string, args: seq<Core>): (r: Result<Core>)
    requires Acceptable(su, levels) && Reached(su, levels, name)
    decreases levels[Lower(name)], 1
  {
    var rule := RuleOf(su.g, name);
    var meta := Meta(rule.name, Some(rule.name), name in su.memoized);
    if |rule.parameters| > 1 || |args| != |rule.parameters| then Err("parameter count mismatch")
    else if rule.expression.Sequence? then
      match DesugarAll(su, levels, rule.expression.children, levels[Lower(name)], rule.parameters, args)
      case Err(m) => Err(m)
      case Ok(parts) => Ok(Seq(meta, parts))
    else
      match Desugar(su, levels, rule.expression, levels[Lower(name)], rule.parameters, args)
      case Err(m) => Err(m)
      case Ok(c) => Ok(Seq(meta, [c]))
  }

  lemma {:induction false} PrefixFails(su: Setup, levels: map<string, nat>, es: seq<Expr>, k: nat, level: nat,
                                       params: seq<string>, args: seq<Core>)
    requires Acceptable(su, levels) && |params| == |args| && k <= |es|
    requires forall i :: 0 <= i < |es| ==> CallsBelow(su.g, levels, es[i], level)
    requires DesugarAll(su, levels, es[..k], level, params, args).Err?
    ensures DesugarAll(su, levels, es, level, params, args).Err?
    decreases |es|
  {
    if k == |es| {
      assert es[..k] == es;
    } else {
      assert es[..|es| - 1][..k] == es[..k];
      PrefixFails(su, levels, es[..|es| - 1], k, level, params, args);
    }
  }

  /** The children up to the next one, and what its failure means. */
  lemma OneMorePart(su: Setup, levels: map<string, nat>, es: seq<Expr>, i: nat, level: nat,
                    params: seq<string>, args: seq<Core>, parts: seq<Core>)
    requires Acceptable(su, levels) && |params| == |args| && i < |es|
    requires forall k :: 0 <= k < |es| ==> CallsBelow(su.g, levels, es[k], level)
    requires DesugarAll(su, levels, es[..i], level, params, args) == Ok(parts)
    ensures
      match Desugar(su, levels, es[i], level, params, args)
      case Ok(c) => DesugarAll(su, levels, es[..i + 1], level, params, args) == Ok(parts + [c])
      case Err(_) => DesugarAll(su, levels, es, level, params, args).Err?
  {
    assert es[..i + 1][..i] == es[..i];
    if Desugar(su, levels, es[i], level, params, args).Err? {
      PrefixFails(su, levels, es, i + 1, level, params, args);
    }
  }

  /** The core a rule list is entered with before its children exist. */
  ghost function Promised(su: Setup, levels: map<string, nat>, name: string, args: seq<Core>): Core
    requires Acceptable(su, levels) && Reached(su, levels, name)
  {
    var meaning := DesugarRule(su, levels, name, args);
    if meaning.Ok? then meaning.value else Lit("")
  }

  // ----- which rules have a meaning -----

  /** Every name in the expression is a parameter, an override or a rule without parameters, every
      call is of a rule with one, and there is no character class. */
  predicate WellNamed(su: Setup, params: seq<string>, e: Expr) {
    match e
    case Literal(_) => true
    case Reference(name) =>
      name in params || name in su.overridden || (HasRule(su.g, name) && RuleOf(su.g, name).parameters == [])
    case Call(name, arg) =>
      HasRule(su.g, name) && |RuleOf(su.g, name).parameters| == 1 && WellNamed(su, params, arg)
    case Sequence(cs) => forall i :: 0 <= i < |cs| ==> WellNamed(su, params, cs[i])
    case Choice(cs) => forall i :: 0 <= i < |cs| ==> WellNamed(su, params, cs[i])
    case Optional(c) => WellNamed(su, params, c)
    case Repeat(c) => WellNamed(su, params, c)
    case OptionalRepeat(c) => WellNamed(su, params, c)
    case Regex(_) => false
  }

  /** So is the body of every rule the compilation reaches. */
  ghost predicate AllWellNamed(su: Setup, levels: map<string, nat>) {
    forall k :: k in su.g.rules && k in levels ==> WellNamed(su, su.g.rules[k].parameters, su.g.rules[k].expression)
  }

  lemma {:induction false} WellNamedMeans(su: Setup, levels: map<string, nat>, e: Expr, level: nat,
                                          params: seq<string>, args: seq<Core>)
    requires Acceptable(su, levels) && CallsBelow(su.g, levels, e, level) && |params| == |args|
    requires AllWellNamed(su, levels) && WellNamed(su, params, e)
    ensures Desugar(su, levels, e, level, params, args).Ok?
    decreases level, 0, e, 0
  {
    match e
    case Call(name, arg) =>
      WellNamedMeans(su, levels, arg, level, params, args);
      WellNamedRuleMeans(su, levels, name, [Desugar(su, levels, arg, level, params, args).value]);
    case Sequence(cs) => AllWellNamedMean(su, levels, cs, level, params, args);
    case Choice(cs) => AllWellNamedMean(su, levels, cs, level, params, args);
    case Optional(c) => WellNamedMeans(su, levels, c, level, params, args);
    case Repeat(c) => WellNamedMeans(su, levels, c, level, params, args);
    case OptionalRepeat(c) => WellNamedMeans(su, levels, c, level, params, args);
    case _ =>
  }

  lemma {:induction false} AllWellNamedMean(su: Setup, levels: map<string, nat>, es: seq<Expr>, level: nat,
                                            params: seq<string>, args: seq<Core>)
    requires Acceptable(su, levels) && |params| == |args| && AllWellNamed(su, levels)
    requires forall i :: 0 <= i < |es| ==> CallsBelow(su.g, levels, es[i], level) && WellNamed(su, params, es[i])
    ensures DesugarAll(su, levels, es, level, params, args).Ok?
    decreases level, 0, es, 1
  {
    if es != [] {
      AllWellNamedMean(su, levels, es[..|es| - 1], level, params, args);
      WellNamedMeans(su, levels, es[|es| - 1], level, params, args);
    }
  }

  /** A reached rule has a meaning for its number of arguments, if all reached rules are well named. */
  lemma {:induction false} WellNamedRuleMeans(su: Setup, levels: map<string, nat>, name: string, args: seq<Core>)
    requires Acceptable(su, levels) && Reached(su, levels, name) && AllWellNamed(su, levels)
    requires |args| == |RuleOf(su.g, name).parameters| <= 1
    ensures DesugarRule(su, levels, name, args).Ok?
    decreases levels[Lower(name)], 1
  {
    var rule := RuleOf(su.g, name);
    assert CallsBelow(su.g, levels, rule.expression, levels[Lower(name)]);
    if rule.expression.Sequence? {
      AllWellNamedMean(su, levels, rule.expression.children, levels[Lower(name)], rule.parameters, args);
    } else {
      WellNamedMeans(su, levels, rule.expression, levels[Lower(name)], rule.parameters, args);
    }
  }

  // ----- overrides and the whole program -----

  /** The definition an override gives its rule. */
  ghost function OverrideDefinition(su: Setup, o: Override): Definition {
    Builtin(Meta(if HasRule(su.g, o.rule) || o.preset == "" then o.rule else o.preset,
                 if HasRule(su.g, o.rule) then Some(o.rule) else None,
                 o.rule in su.memoized),
            o.leaf)
  }

  /** The definitions the override table installs. */
  ghost function OverridesOf(su: Setup, table: seq<Override>): (p: Program)
    ensures forall r :: r in p <==> exists o :: o in table && o.rule == r
    ensures forall r :: r in p ==> p[r].Builtin?
  {
    if table == [] then map[]
    else
      var last := table[|table| - 1];
      assert forall o :: o in table <==> o in table[..|table| - 1] || o == last;
      OverridesOf(su, table[..|table| - 1])[last.rule := OverrideDefinition(su, last)]
  }

  /** What the grammar means: overridden rules are leaves, every other named rule is its body
      with macros substituted. */
  ghost function ProgramOf(su: Setup, levels: map<string, nat>, builtins: Program, names: set<string>): Program
    requires Acceptable(su, levels)
    requires forall r :: r in names && r !in builtins ==> Reached(su, levels, r)
  {
    map r | r in names :: if r in builtins then builtins[r] else Defined(Promised(su, levels, r, []))
  }
}
