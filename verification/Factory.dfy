/** The grammar compiler: rules become matchers, each plain rule once, macros once per call
    (internal/matcher/factory.go). */
module Factory {
  import opened Tokens
  import opened ParseTree
  import opened SpecialMatchers
  import opened PegSemantics
  import opened PegProgram
  import opened PegGrammar
  import opened Substitution
  import opened Compilation
  import opened Raising

  // ----- the arena of matchers under construction -----

  /** A snapshot of the compiler's state: `cores` gives the expression each matcher is for,
      `open` the rule lists whose children are still being built. */
  datatype Arena = Arena(
    nodes: seq<Matcher>,
    matchers: map<string, nat>,
    keywords: map<string, nat>,
    cores: seq<Core>,
    builtins: Program,
    open: set<nat>)

  ghost function ImageOf(a: Arena): Image { Image(a.cores, a.matchers) }

  ghost predicate RuleEntered(su: Setup, levels: map<string, nat>, a: Arena, r: string)
    requires Acceptable(su, levels) && r in a.matchers
  {
    a.matchers[r] < |a.cores| &&
    if r in a.builtins then a.cores[a.matchers[r]] == Ref(r)
    else
      Reached(su, levels, r) && RuleOf(su.g, r).name == r && RuleOf(su.g, r).parameters == []
      && var meaning := DesugarRule(su, levels, r, []);
      && (meaning.Ok? ==> a.cores[a.matchers[r]] == meaning.value)
      && (a.matchers[r] !in a.open ==> meaning.Ok?)
  }

  ghost predicate KeywordEntered(a: Arena, k: string)
    requires k in a.keywords
  {
    a.keywords[k] < |a.cores| && a.cores[a.keywords[k]].Lit? && Lower(a.cores[a.keywords[k]].text) == k
  }

  ghost predicate NodeEntered(a: Arena, i: nat)
    requires i < |a.nodes| == |a.cores|
  {
    a.nodes[i].id == i && (i !in a.open ==> NodeFits(ImageOf(a), a.builtins, a.nodes[i], a.cores[i]))
  }

  /** A rule that takes a parameter: compiled afresh for every call. */
  predicate IsMacro(g: Grammar, r: string) { HasRule(g, r) && RuleOf(g, r).parameters != [] }

  /** Matcher i is the one registered for the rule it carries, and for the name it is memoized
      under, unless that is a macro. */
  ghost predicate NodeOnce(su: Setup, nodes: seq<Matcher>, ids: map<string, nat>, i: nat)
    requires i < |nodes|
  {
    && (nodes[i].meta.rule.Some? && !IsMacro(su.g, nodes[i].meta.rule.value) ==> IdOf(ids, nodes[i].meta.rule.value, i))
    && (nodes[i].meta.memoized ==> exists r :: r in su.memoized && (IdOf(ids, r, i) || IsMacro(su.g, r)))
  }

  predicate IdOf(ids: map<string, nat>, r: string, i: nat) { r in ids && ids[r] == i }

  /** The invariant of compilation: packrat identities are positions, every finished matcher is
      built as its expression asks, and every registered rule stands for its own meaning even
      while its list is still empty. */
  ghost predicate ArenaOk(su: Setup, levels: map<string, nat>, a: Arena) {
    && Acceptable(su, levels)
    && |a.nodes| == |a.cores|
    && (forall i :: i in a.open ==> i < |a.nodes|)
    && (forall i :: 0 <= i < |a.nodes| ==> NodeEntered(a, i))
    && (forall i :: 0 <= i < |a.nodes| && i !in a.open ==> NodeOnce(su, a.nodes, a.matchers, i))
    && (forall r :: r in a.matchers ==> RuleEntered(su, levels, a, r))
    && (forall r :: r in a.builtins ==> r in a.matchers && r in su.overridden && a.builtins[r].Builtin?)
    && (forall k :: k in a.keywords ==> KeywordEntered(a, k))
  }

  ghost predicate Grown(a: Arena, b: Arena) {
    a.nodes <= b.nodes && a.cores <= b.cores && a.builtins == b.builtins && a.open == b.open
    && (forall r :: r in a.matchers ==> r in b.matchers && b.matchers[r] == a.matchers[r])
    && (forall r :: r in b.matchers ==> r in a.matchers || b.matchers[r] >= |a.nodes|)
  }

  ghost predicate Extended(a: Image, b: Image) {
    a.cores <= b.cores && forall r :: r in a.ids ==> r in b.ids && b.ids[r] == a.ids[r]
  }

  lemma DenotesGrows(a: Image, b: Image, id: nat, part: Core)
    requires Extended(a, b) && Denotes(a, id, part)
    ensures Denotes(b, id, part)
  {
  }

  lemma FitsGrows(a: Image, b: Image, p: Program, q: Program, m: Matcher, c: Core)
    requires Extended(a, b) && NodeFits(a, p, m, c)
    requires forall r :: r in p ==> r in q && q[r] == p[r]
    ensures NodeFits(b, q, m, c)
  {
    match c
    case Seq(_, parts) =>
      forall i | 0 <= i < |parts| ensures Denotes(b, m.body.children[i], parts[i]) {
        DenotesGrows(a, b, m.body.children[i], parts[i]);
      }
    case Alt(parts) =>
      forall i | 0 <= i < |parts| ensures Denotes(b, m.body.children[i], parts[i]) {
        DenotesGrows(a, b, m.body.children[i], parts[i]);
      }
    case _ =>
  }

  lemma OnceGrows(su: Setup, a: Arena, b: Arena, i: nat)
    requires i < |a.nodes| <= |b.nodes| && b.nodes[i] == a.nodes[i] && NodeOnce(su, a.nodes, a.matchers, i)
    requires forall r :: r in a.matchers ==> r in b.matchers && b.matchers[r] == a.matchers[r]
    ensures NodeOnce(su, b.nodes, b.matchers, i)
  {
    if a.nodes[i].meta.memoized {
      var r :| r in su.memoized && (IdOf(a.matchers, r, i) || IsMacro(su.g, r));
      assert IdOf(b.matchers, r, i) || IsMacro(su.g, r);
    }
  }

  /** Matchers entered before stay entered. */
  lemma NodesStay(a: Arena, b: Arena)
    requires |a.nodes| == |a.cores| && |b.nodes| == |b.cores| && a.nodes <= b.nodes && a.open <= b.open
    requires Extended(ImageOf(a), ImageOf(b)) && forall i :: 0 <= i < |a.nodes| ==> NodeEntered(a, i)
    requires forall r :: r in a.builtins ==> r in b.builtins && b.builtins[r] == a.builtins[r]
    ensures forall i :: 0 <= i < |a.nodes| ==> NodeEntered(b, i)
  {
    forall i | 0 <= i < |a.nodes|
      ensures NodeEntered(b, i)
    {
      assert NodeEntered(a, i);
      if i !in a.open {
        FitsGrows(ImageOf(a), ImageOf(b), a.builtins, b.builtins, a.nodes[i], a.cores[i]);
      }
    }
  }

  /** Rules and keywords entered before stay entered. */
  lemma EntriesStay(su: Setup, levels: map<string, nat>, a: Arena, b: Arena)
    requires ArenaOk(su, levels, a) && a.cores <= b.cores && a.open <= b.open && a.keywords == b.keywords
    requires forall r :: r in a.matchers ==> r in b.matchers && b.matchers[r] == a.matchers[r]
    requires forall r :: r in a.matchers ==> (r in a.builtins <==> r in b.builtins)
    ensures forall r :: r in a.matchers ==> RuleEntered(su, levels, b, r)
    ensures forall k :: k in b.keywords ==> KeywordEntered(b, k)
  {
    forall r | r in a.matchers ensures RuleEntered(su, levels, b, r) {
      assert RuleEntered(su, levels, a, r);
    }
    forall k | k in b.keywords ensures KeywordEntered(b, k) {
      assert KeywordEntered(a, k);
    }
  }

  /** Matchers finished before stay the only ones of their rules. */
  lemma AllOnceGrow(su: Setup, a: Arena, b: Arena)
    requires a.nodes <= b.nodes && a.open <= b.open
    requires forall i :: 0 <= i < |a.nodes| && i !in a.open ==> NodeOnce(su, a.nodes, a.matchers, i)
    requires forall r :: r in a.matchers ==> r in b.matchers && b.matchers[r] == a.matchers[r]
    ensures forall i :: 0 <= i < |a.nodes| && i !in b.open ==> NodeOnce(su, b.nodes, b.matchers, i)
  {
    forall i | 0 <= i < |a.nodes| && i !in b.open
      ensures NodeOnce(su, b.nodes, b.matchers, i)
    {
      OnceGrows(su, a, b, i);
    }
  }

  ghost function WithNode(a: Arena, m: Matcher, c: Core): Arena {
    a.(nodes := a.nodes + [m], cores := a.cores + [c])
  }

  lemma AllocNodes(su: Setup, levels: map<string, nat>, a: Arena, m: Matcher, c: Core)
    requires ArenaOk(su, levels, a) && m.id == |a.nodes| && NodeFits(ImageOf(a), a.builtins, m, c)
    ensures var b := WithNode(a, m, c);
      && |b.nodes| == |b.cores| && (forall i :: 0 <= i < |b.nodes| ==> NodeEntered(b, i))
  {
    var b := WithNode(a, m, c);
    NodesStay(a, b);
    FitsGrows(ImageOf(a), ImageOf(b), a.builtins, b.builtins, m, c);
  }

  lemma AllocRest(su: Setup, levels: map<string, nat>, a: Arena, m: Matcher, c: Core)
    requires ArenaOk(su, levels, a) && m.meta == ANONYMOUS
    ensures var b := WithNode(a, m, c);
      && (forall i :: 0 <= i < |b.nodes| && i !in b.open ==> NodeOnce(su, b.nodes, b.matchers, i))
      && (forall r :: r in b.matchers ==> RuleEntered(su, levels, b, r))
      && (forall k :: k in b.keywords ==> KeywordEntered(b, k))
  {
    var b := WithNode(a, m, c);
    AllOnceGrow(su, a, b);
    EntriesStay(su, levels, a, b);
  }

  /** Allocating a finished matcher keeps the invariant. */
  lemma AllocKeeps(su: Setup, levels: map<string, nat>, a: Arena, m: Matcher, c: Core)
    requires ArenaOk(su, levels, a) && m.id == |a.nodes| && NodeFits(ImageOf(a), a.builtins, m, c)
    requires m.meta == ANONYMOUS
    ensures ArenaOk(su, levels, WithNode(a, m, c)) && Grown(a, WithNode(a, m, c))
  {
    AllocNodes(su, levels, a, m, c);
    AllocRest(su, levels, a, m, c);
  }

  ghost function WithOverride(a: Arena, rule: string, m: Matcher, d: Definition): Arena {
    WithNode(a, m, Ref(rule)).(matchers := a.matchers[rule := m.id], builtins := a.builtins[rule := d])
  }

  lemma OverrideOnce(su: Setup, b: Arena, rule: string, m: Matcher)
    requires m.id < |b.nodes| && b.nodes[m.id] == m && IdOf(b.matchers, rule, m.id)
    requires m.meta.rule == None || m.meta.rule == Some(rule)
    requires m.meta.memoized ==> rule in su.memoized
    ensures NodeOnce(su, b.nodes, b.matchers, m.id)
  {
  }

  /** An override the compiler can install: its leaf's display data, under a free name. */
  ghost predicate Installable(su: Setup, a: Arena, rule: string, m: Matcher, d: Definition) {
    && a.open == {} && rule !in a.matchers && rule in su.overridden
    && d.Builtin? && m == Matcher(|a.nodes|, d.meta, LeafOf(d.leaf))
    && (d.meta.rule == None || d.meta.rule == Some(rule))
    && d.meta.memoized == (rule in su.memoized)
  }

  lemma OverrideNodes(su: Setup, levels: map<string, nat>, a: Arena, rule: string, m: Matcher, d: Definition)
    requires ArenaOk(su, levels, a) && Installable(su, a, rule, m, d)
    ensures var b := WithOverride(a, rule, m, d);
      && |b.nodes| == |b.cores| && (forall i :: 0 <= i < |b.nodes| ==> NodeEntered(b, i))
  {
    NodesStay(a, WithOverride(a, rule, m, d));
  }

  lemma OverrideRest(su: Setup, levels: map<string, nat>, a: Arena, rule: string, m: Matcher, d: Definition)
    requires ArenaOk(su, levels, a) && Installable(su, a, rule, m, d)
    ensures var b := WithOverride(a, rule, m, d);
      && (forall i :: 0 <= i < |b.nodes| && i !in b.open ==> NodeOnce(su, b.nodes, b.matchers, i))
      && (forall r :: r in b.builtins ==> r in b.matchers && r in su.overridden && b.builtins[r].Builtin?)
  {
    var b := WithOverride(a, rule, m, d);
    AllOnceGrow(su, a, b);
    OverrideOnce(su, b, rule, m);
  }

  lemma OverrideRules(su: Setup, levels: map<string, nat>, a: Arena, rule: string, m: Matcher, d: Definition)
    requires ArenaOk(su, levels, a) && Installable(su, a, rule, m, d)
    ensures var b := WithOverride(a, rule, m, d);
      && (forall r :: r in b.matchers ==> RuleEntered(su, levels, b, r))
      && (forall k :: k in b.keywords ==> KeywordEntered(b, k))
  {
    EntriesStay(su, levels, a, WithOverride(a, rule, m, d));
  }

  /** Installing an override keeps the invariant. */
  lemma OverrideKeeps(su: Setup, levels: map<string, nat>, a: Arena, rule: string, m: Matcher, d: Definition)
    requires ArenaOk(su, levels, a) && Installable(su, a, rule, m, d)
    ensures ArenaOk(su, levels, WithOverride(a, rule, m, d))
  {
    OverrideNodes(su, levels, a, rule, m, d);
    OverrideRest(su, levels, a, rule, m, d);
    OverrideRules(su, levels, a, rule, m, d);
  }

  ghost function WithRoot(a: Arena, m: Matcher, c: Core, register: Option<string>): Arena {
    WithNode(a, m, c).(
      matchers := if register.Some? then a.matchers[register.value := m.id] else a.matchers,
      open := a.open + {m.id})
  }

  /** What a rule may be registered under before its body exists. */
  ghost predicate Registrable(su: Setup, levels: map<string, nat>, a: Arena, name: string, args: seq<Core>,
                              register: Option<string>) {
    Reached(su, levels, name)
    && (register == None
        || (register == Some(name) && args == [] && name !in a.matchers
            && RuleOf(su.g, name).name == name && RuleOf(su.g, name).parameters == []))
  }

  lemma RootNodes(su: Setup, levels: map<string, nat>, a: Arena, m: Matcher, c: Core, register: Option<string>)
    requires ArenaOk(su, levels, a) && m.id == |a.nodes|
    requires register == None || register.value !in a.matchers
    ensures var b := WithRoot(a, m, c, register);
      && Extended(ImageOf(a), ImageOf(b)) && (forall i :: 0 <= i < |b.nodes| ==> NodeEntered(b, i))
  {
    NodesStay(a, WithRoot(a, m, c, register));
  }

  lemma RootRest(su: Setup, levels: map<string, nat>, a: Arena, m: Matcher, c: Core, register: Option<string>)
    requires ArenaOk(su, levels, a) && m.id == |a.nodes|
    requires register == None || register.value !in a.matchers
    ensures var b := WithRoot(a, m, c, register);
      && |b.nodes| == |b.cores| && (forall i :: i in b.open ==> i < |b.nodes|)
      && (forall i :: 0 <= i < |b.nodes| && i !in b.open ==> NodeOnce(su, b.nodes, b.matchers, i))
      && (forall r :: r in b.builtins ==> r in b.matchers && r in su.overridden && b.builtins[r].Builtin?)
  {
    AllOnceGrow(su, a, WithRoot(a, m, c, register));
  }

  lemma RootRules(su: Setup, levels: map<string, nat>, a: Arena, m: Matcher, name: string, args: seq<Core>,
                  register: Option<string>)
    requires ArenaOk(su, levels, a) && m.id == |a.nodes| && Registrable(su, levels, a, name, args, register)
    ensures var b := WithRoot(a, m, Promised(su, levels, name, args), register);
      && (forall r :: r in b.matchers ==> RuleEntered(su, levels, b, r))
      && (forall k :: k in b.keywords ==> KeywordEntered(b, k))
  {
    var b := WithRoot(a, m, Promised(su, levels, name, args), register);
    EntriesStay(su, levels, a, b);
    if register.Some? {
      RegisteredRule(su, levels, b, name, m.id);
    }
  }

  /** A plain rule registered to an open list that stands for its meaning. */
  lemma RegisteredRule(su: Setup, levels: map<string, nat>, b: Arena, name: string, root: nat)
    requires Acceptable(su, levels) && Reached(su, levels, name) && name !in b.builtins
    requires RuleOf(su.g, name).name == name && RuleOf(su.g, name).parameters == []
    requires IdOf(b.matchers, name, root) && root < |b.cores| && root in b.open
    requires b.cores[root] == Promised(su, levels, name, [])
    ensures RuleEntered(su, levels, b, name)
  {
  }

  /** Registering a rule before its body exists keeps the invariant: the list is open. */
  lemma RootKeeps(su: Setup, levels: map<string, nat>, a: Arena, m: Matcher, name: string, args: seq<Core>,
                  register: Option<string>)
    requires ArenaOk(su, levels, a) && m.id == |a.nodes| && Registrable(su, levels, a, name, args, register)
    ensures var b := WithRoot(a, m, Promised(su, levels, name, args), register);
      && ArenaOk(su, levels, b) && Extended(ImageOf(a), ImageOf(b))
  {
    var c := Promised(su, levels, name, args);
    RootNodes(su, levels, a, m, c, register);
    RootRest(su, levels, a, m, c, register);
    RootRules(su, levels, a, m, name, args, register);
  }

  ghost function WithBody(a: Arena, root: nat, m: Matcher): Arena
    requires root < |a.nodes|
  {
    a.(nodes := a.nodes[root := m], open := a.open - {root})
  }

  /** Filling in an open list with children that denote its promised parts keeps the invariant. */
  lemma BodyKeeps(su: Setup, levels: map<string, nat>, a: Arena, root: nat, m: Matcher, name: string, args: seq<Core>)
    requires ArenaOk(su, levels, a) && root in a.open && m.id == root
    requires Reached(su, levels, name) && DesugarRule(su, levels, name, args).Ok?
    requires a.cores[root] == DesugarRule(su, levels, name, args).value
    requires NodeFits(ImageOf(a), a.builtins, m, a.cores[root])
    requires forall r :: r in a.matchers && a.matchers[r] == root ==> r == name && args == []
    requires NodeOnce(su, a.nodes[root := m], a.matchers, root)
    ensures ArenaOk(su, levels, WithBody(a, root, m))
  {
    var b := WithBody(a, root, m);
    forall i | 0 <= i < |b.nodes| && i !in b.open ensures NodeOnce(su, b.nodes, b.matchers, i) {
      if i != root {
        OnceGrows(su, a, b, i);
      }
    }
    forall i | 0 <= i < |b.nodes| ensures NodeEntered(b, i) {
      assert NodeEntered(a, i);
    }
    forall r | r in b.matchers ensures RuleEntered(su, levels, b, r) {
      assert RuleEntered(su, levels, a, r);
    }
    forall k | k in b.keywords ensures KeywordEntered(b, k) {
      assert KeywordEntered(a, k);
    }
  }

  predicate PlainRule(su: Setup, r: Rule) { r.parameters == [] && r.name !in su.overridden }

  /** Every plain rule that is not overridden has a meaning of its own. */
  ghost predicate AllRulesMean(su: Setup, levels: map<string, nat>)
    requires Acceptable(su, levels)
  {
    forall k :: k in su.g.rules && k in levels && PlainRule(su, su.g.rules[k]) ==>
      DesugarRule(su, levels, su.g.rules[k].name, []).Ok?
  }

  lemma AllPlainRulesMean(su: Setup, levels: map<string, nat>)
    requires Acceptable(su, levels) && AllWellNamed(su, levels)
    ensures AllRulesMean(su, levels)
  {
    forall k | k in su.g.rules && k in levels && PlainRule(su, su.g.rules[k])
      ensures DesugarRule(su, levels, su.g.rules[k].name, []).Ok?
    {
      WellNamedRuleMeans(su, levels, su.g.rules[k].name, []);
    }
  }

  /** Indexing one more keyword keeps the invariant. */
  lemma Reindexed(su: Setup, levels: map<string, nat>, a: Arena, b: Arena)
    requires ArenaOk(su, levels, a) && b == a.(keywords := b.keywords)
    requires forall k :: k in b.keywords ==> KeywordEntered(b, k)
    ensures ArenaOk(su, levels, b)
  {
    forall i | 0 <= i < |b.nodes| ensures NodeEntered(b, i) {
      assert NodeEntered(a, i);
    }
    forall r | r in b.matchers ensures RuleEntered(su, levels, b, r) {
      assert RuleEntered(su, levels, a, r);
    }
  }

  /** A registered name that is no override is a plain rule with its own spelling. */
  lemma PlainRuleKnown(su: Setup, levels: map<string, nat>, a: Arena, r: string)
    requires ArenaOk(su, levels, a) && r in a.matchers
    ensures a.matchers[r] < |a.cores|
    ensures r in su.overridden || (HasRule(su.g, r) && RuleOf(su.g, r).parameters == [])
  {
    assert RuleEntered(su, levels, a, r);
  }

  /** The arena just after rule `name` got its empty list at `root`. */
  ghost function Entered(su: Setup, levels: map<string, nat>, a: Arena, root: nat, name: string,
                         isFunctionCall: bool, args: seq<Core>): Arena
    requires Acceptable(su, levels) && Reached(su, levels, name)
  {
    WithRoot(a, Matcher(root, ANONYMOUS, ListOf([])), Promised(su, levels, name, args),
             if isFunctionCall then None else Some(RuleOf(su.g, name).name))
  }

  /** What holds of rule `name` while the body of its list `root` is being built. */
  ghost predicate Building(su: Setup, levels: map<string, nat>, a: Arena, root: nat, name: string,
                           isFunctionCall: bool, params: seq<nat>, args: seq<Core>) {
    && ArenaOk(su, levels, a) && root in a.open && Reached(su, levels, name)
    && DenotesAll(ImageOf(a), params, args)
    && |params| == |RuleOf(su.g, name).parameters| <= 1 && (isFunctionCall <==> params != [])
    && (!isFunctionCall ==> RuleOf(su.g, name).name == name && name in a.matchers && a.matchers[name] == root)
    && (forall r :: r in a.matchers && a.matchers[r] == root ==> r == name && !isFunctionCall)
    && a.cores[root] == Promised(su, levels, name, args)
  }

  lemma BuildingStarts(su: Setup, levels: map<string, nat>, a: Arena, root: nat, name: string,
                       isFunctionCall: bool, params: seq<nat>, args: seq<Core>)
    requires ArenaOk(su, levels, a) && Reached(su, levels, name) && root == |a.nodes|
    requires DenotesAll(ImageOf(a), params, args)
    requires |params| == |RuleOf(su.g, name).parameters| <= 1 && (isFunctionCall <==> params != [])
    requires !isFunctionCall ==> RuleOf(su.g, name).name == name && name !in a.matchers
    ensures Building(su, levels, Entered(su, levels, a, root, name, isFunctionCall, args), root, name, isFunctionCall,
      params, args)
  {
    var b := Entered(su, levels, a, root, name, isFunctionCall, args);
    var m := Matcher(root, ANONYMOUS, ListOf([]));
    RootKeeps(su, levels, a, m, name, args, if isFunctionCall then None else Some(name));
    forall i | 0 <= i < |params| ensures Denotes(ImageOf(b), params[i], args[i]) {
      DenotesGrows(ImageOf(a), ImageOf(b), params[i], args[i]);
    }
    forall r | r in a.matchers ensures a.matchers[r] < root {
      assert RuleEntered(su, levels, a, r);
    }
  }

  /** Matcher `body` stands for the rule's expression; a sequence's is finished. */
  ghost predicate BodyDenoted(su: Setup, levels: map<string, nat>, a: Arena, name: string, args: seq<Core>, body: nat)
    requires Acceptable(su, levels) && Reached(su, levels, name) && |args| == |RuleOf(su.g, name).parameters|
  {
    var rule := RuleOf(su.g, name);
    var meaning := Desugar(su, levels, rule.expression, levels[Lower(name)], rule.parameters, args);
    meaning.Ok? && Denotes(ImageOf(a), body, meaning.value) && (rule.expression.Sequence? ==> body !in a.open)
  }

  /** A sequence body is a list of its own. */
  lemma BodyIsList(su: Setup, levels: map<string, nat>, a: Arena, root: nat, name: string,
                   params: seq<nat>, args: seq<Core>, body: nat)
    requires Building(su, levels, a, root, name, params != [], params, args) && Acceptable(su, levels)
    requires BodyDenoted(su, levels, a, name, args, body)
    ensures body < |a.nodes|
    ensures RuleOf(su.g, name).expression.Sequence? ==> a.nodes[body].body.ListOf?
  {
    assert NodeEntered(a, body);
  }

  /** Filling the root with its body's children. */
  lemma FilledKeeps(su: Setup, levels: map<string, nat>, a: Arena, root: nat, name: string,
                    params: seq<nat>, args: seq<Core>, body: nat, m: Matcher)
    requires Building(su, levels, a, root, name, params != [], params, args) && Acceptable(su, levels)
    requires BodyDenoted(su, levels, a, name, args, body)
    requires body < |a.nodes|
    requires var rule := RuleOf(su.g, name);
      (rule.expression.Sequence? ==> a.nodes[body].body.ListOf?)
      && m == Matcher(root, Meta(rule.name, Some(rule.name), name in su.memoized),
           ListOf(if rule.expression.Sequence? then a.nodes[body].body.children else [body]))
    ensures DesugarRule(su, levels, name, args).Ok? && a.cores[root] == DesugarRule(su, levels, name, args).value
    ensures ArenaOk(su, levels, WithBody(a, root, m))
  {
    assert NodeEntered(a, body);
    RootOnce(su, levels, a, root, name, params, args, m);
    BodyKeeps(su, levels, a, root, m, name, args);
  }

  /** The root is the registered matcher of its plain rule, or a macro's. */
  lemma RootOnce(su: Setup, levels: map<string, nat>, a: Arena, root: nat, name: string,
                 params: seq<nat>, args: seq<Core>, m: Matcher)
    requires Building(su, levels, a, root, name, params != [], params, args)
    requires m.meta == Meta(RuleOf(su.g, name).name, Some(RuleOf(su.g, name).name), name in su.memoized)
    ensures NodeOnce(su, a.nodes[root := m], a.matchers, root)
  {
    var rule := RuleOf(su.g, name);
    assert Lower(name) in su.g.rules && Lower(rule.name) == Lower(name);
    assert IdOf(a.matchers, name, root) || IsMacro(su.g, name);
  }

  lemma DenotesAllGrows(a: Arena, b: Arena, ids: seq<nat>, parts: seq<Core>)
    requires Grown(a, b) && DenotesAll(ImageOf(a), ids, parts)
    ensures DenotesAll(ImageOf(b), ids, parts)
  {
    forall i | 0 <= i < |ids| ensures Denotes(ImageOf(b), ids[i], parts[i]) {
      DenotesGrows(ImageOf(a), ImageOf(b), ids[i], parts[i]);
    }
  }

  lemma OneMoreDenoted(im: Image, ids: seq<nat>, parts: seq<Core>, id: nat, part: Core)
    requires DenotesAll(im, ids, parts) && Denotes(im, id, part)
    ensures DenotesAll(im, ids + [id], parts + [part])
  {
  }

  /** The children compiled so far, since arena `start`. */
  ghost predicate MadeSoFar(su: Setup, levels: map<string, nat>, start: Arena, a: Arena, es: seq<Expr>, level: nat,
                            parameters: seq<string>, args: seq<Core>, ids: seq<nat>, parts: seq<Core>)
    requires Acceptable(su, levels) && |parameters| == |args|
    requires forall i :: 0 <= i < |es| ==> CallsBelow(su.g, levels, es[i], level)
  {
    && Grown(start, a)
    && DesugarAll(su, levels, es, level, parameters, args) == Ok(parts)
    && DenotesAll(ImageOf(a), ids, parts)
  }

  /** A list of children and one more, after the arena grew to hold it. */
  lemma ListGrows(start: Arena, a: Arena, b: Arena, ids: seq<nat>, parts: seq<Core>, id: nat, part: Core)
    requires Grown(start, a) && Grown(a, b) && DenotesAll(ImageOf(a), ids, parts) && Denotes(ImageOf(b), id, part)
    ensures Grown(start, b) && DenotesAll(ImageOf(b), ids + [id], parts + [part])
  {
    GrownTwice(start, a, b);
    DenotesAllGrows(a, b, ids, parts);
    OneMoreDenoted(ImageOf(b), ids, parts, id, part);
  }

  lemma BuildingGrows(su: Setup, levels: map<string, nat>, a: Arena, b: Arena, root: nat, name: string,
                      isFunctionCall: bool, params: seq<nat>, args: seq<Core>)
    requires Building(su, levels, a, root, name, isFunctionCall, params, args)
    requires ArenaOk(su, levels, b) && Grown(a, b)
    ensures Building(su, levels, b, root, name, isFunctionCall, params, args)
  {
    DenotesAllGrows(a, b, params, args);
  }

  lemma GrownTwice(a: Arena, b: Arena, c: Arena)
    requires Grown(a, b) && Grown(b, c)
    ensures Grown(a, c)
  {
  }

  /** From before a rule was entered to after its list was filled in, the arena only grew. */
  lemma RuleGrown(su: Setup, levels: map<string, nat>, a: Arena, b: Arena, root: nat, name: string,
                  isFunctionCall: bool, args: seq<Core>, m: Matcher)
    requires ArenaOk(su, levels, a) && Reached(su, levels, name) && root == |a.nodes|
    requires !isFunctionCall ==> RuleOf(su.g, name).name == name && name !in a.matchers
    requires Grown(Entered(su, levels, a, root, name, isFunctionCall, args), b)
    ensures root < |b.nodes| && Grown(a, WithBody(b, root, m))
  {
    var c := WithBody(b, root, m);
    assert a.nodes <= b.nodes;
    assert forall i :: 0 <= i < |a.nodes| ==> c.nodes[i] == b.nodes[i] == a.nodes[i];
    assert c.open == a.open by {
      assert root !in a.open;
    }
  }

  class Compiler {
    const su: Setup
    ghost const levels: map<string, nat>
    var nodes: seq<Matcher>
    var matchers: map<string, nat>
    var keywords: map<string, nat>
    var nextID: nat
    ghost var cores: seq<Core>
    ghost var builtins: Program
    ghost var open: set<nat>

    constructor (su: Setup, ghost levels: map<string, nat>)
      ensures this.su == su && this.levels == levels && nextID == 0
      ensures Snapshot() == Arena([], map[], map[], [], map[], {})
    {
      this.su, this.levels := su, levels;
      nodes, matchers, keywords, nextID := [], map[], map[], 0;
      cores, builtins, open := [], map[], {};
    }

    ghost function Snapshot(): Arena
      reads this
    {
      Arena(nodes, matchers, keywords, cores, builtins, open)
    }

    ghost predicate Valid()
      reads this
    {
      ArenaOk(su, levels, Snapshot()) && nextID == |nodes|
    }

    /** All overrides are installed. */
    ghost predicate Complete()
      reads this
    {
      Valid() && forall r :: r in su.overridden ==> r in builtins
    }

    /** Rules not compiled yet. */
    ghost function Waiting(): set<string>
      reads this
    {
      set k | k in su.g.rules && su.g.rules[k].name !in matchers
    }

    /** alloc and the constructors around it (factory.go:37-72): the next packrat identity. */
    method Alloc(body: Body, ghost core: Core) returns (id: nat)
      requires Valid() && NodeFits(ImageOf(Snapshot()), builtins, Matcher(nextID, ANONYMOUS, body), core)
      modifies this
      ensures Valid() && id == old(nextID)
      ensures Snapshot() == WithNode(old(Snapshot()), Matcher(id, ANONYMOUS, body), core)
      ensures Grown(old(Snapshot()), Snapshot())
    {
      id := nextID;
      AllocKeeps(su, levels, Snapshot(), Matcher(id, ANONYMOUS, body), core);
      nodes := nodes + [Matcher(id, ANONYMOUS, body)];
      nextID := nextID + 1;
      cores := cores + [core];
    }

    /** keyword (factory.go:74-83): one matcher per spelling up to case. */
    method KeywordMatcher(text: string) returns (id: nat)
      requires Valid()
      modifies this
      ensures Valid() && Grown(old(Snapshot()), Snapshot()) && matchers == old(matchers)
      ensures Denotes(ImageOf(Snapshot()), id, Lit(text))
    {
      var key := Lower(text);
      if key in keywords {
        assert KeywordEntered(Snapshot(), key);
        return keywords[key];
      }
      id := Alloc(LeafOf(KeywordLeaf(text)), Lit(text));
      ghost var before := Snapshot();
      keywords := keywords[key := id];
      Reindexed(su, levels, before, Snapshot());
    }

    /** addRuleOverride (factory.go:87-98). */
    method AddRuleOverride(o: Override)
      requires Valid() && open == {} && o.rule !in matchers && o.rule in su.overridden
      modifies this
      ensures Valid() && open == {}
      ensures builtins == old(builtins)[o.rule := OverrideDefinition(su, o)]
      ensures matchers == old(matchers)[o.rule := old(nextID)] && keywords == old(keywords)
    {
      var name := o.preset;
      var rule := None;
      if HasRule(su.g, o.rule) {
        rule := Some(o.rule);
        name := o.rule;
      } else if name == "" {
        name := o.rule;
      }
      var meta := Meta(name, rule, o.rule in su.memoized);
      var m := Matcher(nextID, meta, LeafOf(o.leaf));
      OverrideKeeps(su, levels, Snapshot(), o.rule, m, OverrideDefinition(su, o));
      nodes := nodes + [m];
      nextID := nextID + 1;
      matchers := matchers[o.rule := m.id];
      cores := cores + [Ref(o.rule)];
      builtins := builtins[o.rule := OverrideDefinition(su, o)];
    }

    /** installOverrides (factory.go:229-267) over any table without repeated rules. */
    method InstallOverrides(table: seq<Override>)
      requires Valid() && open == {} && matchers == map[] && builtins == map[]
      requires DistinctRules(table) && su.overridden == set o | o in table :: o.rule
      modifies this
      ensures Complete() && open == {} && builtins == OverridesOf(su, table)
    {
      for i := 0 to |table|
        invariant Valid() && open == {}
        invariant matchers.Keys == builtins.Keys && builtins == OverridesOf(su, table[..i])
      {
        OverridesGrow(su, table, i);
        AddRuleOverride(table[i]);
      }
      AllInstalled(su, table);
    }

    /** createMatcher (factory.go:104-145).  A plain rule is registered before its body is built,
        so a recursive reference finds it; a macro is built afresh for every call. */
    method CreateMatcher(ruleName: string, params: seq<nat>, ghost args: seq<Core>, ghost bound: nat)
      returns (r: Result<nat>)
      requires Complete()
      requires DenotesAll(ImageOf(Snapshot()), params, args)
      requires params == [] ==>
        || ruleName in su.overridden
        || (HasRule(su.g, ruleName) ==> Lower(ruleName) in levels && RuleOf(su.g, ruleName).name == ruleName)
      requires params != [] && HasRule(su.g, ruleName) ==> Lower(ruleName) in levels && levels[Lower(ruleName)] < bound
      modifies this
      ensures r.Ok? ==> Complete() && Grown(old(Snapshot()), Snapshot())
      ensures r.Ok? && params == [] ==>
        Denotes(ImageOf(Snapshot()), r.value, Ref(ruleName))
        && (ruleName in su.overridden || (HasRule(su.g, ruleName) && RuleOf(su.g, ruleName).parameters == []))
      ensures r.Ok? && params != [] ==>
        Reached(su, levels, ruleName)
        && var meaning := DesugarRule(su, levels, ruleName, args);
        && meaning.Ok? && Denotes(ImageOf(Snapshot()), r.value, meaning.value)
      ensures r.Err? && params == [] && AllRulesMean(su, levels) ==>
        ruleName !in su.overridden && (!HasRule(su.g, ruleName) || RuleOf(su.g, ruleName).parameters != [])
      ensures r.Err? && params != [] && AllRulesMean(su, levels) && HasRule(su.g, ruleName) ==>
        DesugarRule(su, levels, ruleName, args).Err?
      decreases Waiting(), bound, 0, Regex(""), 1
    {
      var isFunctionCall := |params| > 0;
      if !isFunctionCall {
        if ruleName in matchers {
          PlainRuleKnown(su, levels, Snapshot(), ruleName);
          return Ok(matchers[ruleName]);
        }
      }
      if !HasRule(su.g, ruleName) {
        return Err("rule is missing");
      }
      r := CompileRule(ruleName, params, args, bound);
    }

    /** A rule with no matcher yet, or one more call of a macro (factory.go:117-144). */
    method CompileRule(ruleName: string, params: seq<nat>, ghost args: seq<Core>, ghost bound: nat)
      returns (r: Result<nat>)
      requires Complete() && Reached(su, levels, ruleName)
      requires DenotesAll(ImageOf(Snapshot()), params, args)
      requires params == [] ==> RuleOf(su.g, ruleName).name == ruleName && ruleName !in matchers
      requires params != [] ==> levels[Lower(ruleName)] < bound
      modifies this
      ensures r.Ok? ==> Complete() && Grown(old(Snapshot()), Snapshot())
      ensures r.Ok? && params == [] ==>
        Denotes(ImageOf(Snapshot()), r.value, Ref(ruleName)) && RuleOf(su.g, ruleName).parameters == []
      ensures r.Ok? && params != [] ==>
        var meaning := DesugarRule(su, levels, ruleName, args);
        && meaning.Ok? && Denotes(ImageOf(Snapshot()), r.value, meaning.value)
      ensures r.Err? && params == [] && AllRulesMean(su, levels) ==> RuleOf(su.g, ruleName).parameters != []
      ensures r.Err? && params != [] && AllRulesMean(su, levels) ==> DesugarRule(su, levels, ruleName, args).Err?
      decreases Waiting(), bound, 0, Regex(""), 0
    {
      var isFunctionCall := |params| > 0;
      var root := EnterRoot(ruleName, isFunctionCall, args);
      var rule := RuleOf(su.g, ruleName);
      if |rule.parameters| > 1 {
        return Err("only functions with a single parameter are supported");
      }
      if |params| != |rule.parameters| {
        return Err("parameter count mismatch");
      }
      BuildingStarts(su, levels, old(Snapshot()), root, ruleName, isFunctionCall, params, args);
      assert if isFunctionCall then Waiting() == old(Waiting()) else Waiting() < old(Waiting()) by {
        assert isFunctionCall || Lower(ruleName) in old(Waiting()) - Waiting();
      }
      ghost var built;
      r, built := BuildBody(ruleName, root, params, args);
      if r.Ok? {
        RuleGrown(su, levels, old(Snapshot()), built, root, ruleName, isFunctionCall, args, nodes[root]);
      }
    }

    /** The root list of a rule, registered before its body is known (factory.go:115-120). */
    method EnterRoot(ruleName: string, isFunctionCall: bool, ghost args: seq<Core>) returns (root: nat)
      requires Complete() && Reached(su, levels, ruleName)
      requires !isFunctionCall ==> RuleOf(su.g, ruleName).name == ruleName
      modifies this
      ensures root == old(nextID) && nextID == root + 1
      ensures Snapshot() == Entered(su, levels, old(Snapshot()), root, ruleName, isFunctionCall, args)
    {
      root := nextID;
      nodes := nodes + [Matcher(root, ANONYMOUS, ListOf([]))];
      nextID := nextID + 1;
      if !isFunctionCall {
        matchers := matchers[RuleOf(su.g, ruleName).name := root];
      }
      cores := cores + [Promised(su, levels, ruleName, args)];
      open := open + {root};
    }

    /** The rest of createMatcher: the body expression, the root's children, its rule name and
        its memoization (factory.go:128-144). */
    method BuildBody(ruleName: string, root: nat, params: seq<nat>, ghost args: seq<Core>)
      returns (r: Result<nat>, ghost built: Arena)
      requires Complete() && Building(su, levels, Snapshot(), root, ruleName, params != [], params, args)
      modifies this
      ensures r.Ok? ==> r.value == root && Complete()
      ensures r.Ok? ==>
        Grown(old(Snapshot()), built) && root < |built.nodes| == |nodes|
          && Snapshot() == WithBody(built, root, nodes[root])
      ensures r.Ok? ==>
        var meaning := DesugarRule(su, levels, ruleName, args);
        && meaning.Ok? && cores[root] == meaning.value
      ensures r.Err? && AllRulesMean(su, levels) ==> DesugarRule(su, levels, ruleName, args).Err?
      decreases Waiting(), levels[Lower(ruleName)], 2, Regex(""), 0
    {
      var rule := RuleOf(su.g, ruleName);
      var body := CreateExpression(rule.expression, rule.parameters, params, args, levels[Lower(ruleName)]);
      if body.Err? {
        return Err(body.msg), Snapshot();
      }
      BuildingGrows(su, levels, old(Snapshot()), Snapshot(), root, ruleName, params != [], params, args);
      built := Snapshot();
      FillRoot(ruleName, root, params, args, body.value);
      return Ok(root), built;
    }

    /** The root's children, its rule name and its memoization (factory.go:132-144). */
    method FillRoot(ruleName: string, root: nat, params: seq<nat>, ghost args: seq<Core>, body: nat)
      requires nextID == |nodes| && Building(su, levels, Snapshot(), root, ruleName, params != [], params, args)
      requires BodyDenoted(su, levels, Snapshot(), ruleName, args, body)
      modifies this
      ensures Valid() && root < |nodes| == |old(nodes)|
      ensures Snapshot() == WithBody(old(Snapshot()), root, nodes[root])
      ensures
        var meaning := DesugarRule(su, levels, ruleName, args);
        && meaning.Ok? && cores[root] == meaning.value
    {
      ghost var built := Snapshot();
      var rule := RuleOf(su.g, ruleName);
      BodyIsList(su, levels, built, root, ruleName, params, args, body);
      var children := if rule.expression.Sequence? then nodes[body].body.children else [body];
      var meta := Meta(rule.name, Some(rule.name), ruleName in su.memoized);
      var m := Matcher(root, meta, ListOf(children));
      FilledKeeps(su, levels, built, root, ruleName, params, args, body, m);
      nodes := nodes[root := m];
      open := open - {root};
    }

    /** createExpression (factory.go:149-207). */
    method CreateExpression(e: Expr, parameters: seq<string>, params: seq<nat>, ghost args: seq<Core>, ghost level: nat)
      returns (r: Result<nat>)
      requires Complete() && CallsBelow(su.g, levels, e, level) && SpelledRight(su, levels, parameters, e)
      requires |parameters| == |params| && DenotesAll(ImageOf(Snapshot()), params, args)
      modifies this
      ensures r.Ok? ==> Complete() && Grown(old(Snapshot()), Snapshot())
      ensures r.Ok? ==>
        var meaning := Desugar(su, levels, e, level, parameters, args);
        && meaning.Ok? && Denotes(ImageOf(Snapshot()), r.value, meaning.value)
      ensures r.Ok? && e.Sequence? ==> old(nextID) <= r.value
      ensures r.Err? && AllRulesMean(su, levels) ==> Desugar(su, levels, e, level, parameters, args).Err?
      decreases Waiting(), level, 1, e, 3
    {
      match e
      case Literal(text) =>
        var id := KeywordMatcher(text);
        return Ok(id);
      case Reference(name) =>
        match IndexOf(parameters, name) {
          case Some(i) =>
            return Ok(params[i]);
          case None =>
            r := CreateMatcher(name, [], [], level);
        }
      case Call(_, _) =>
        r := CreateCall(e, parameters, params, args, level);
      case Sequence(children) =>
        r := CreateChildren(e, children, parameters, params, args, level);
      case Choice(children) =>
        r := CreateChildren(e, children, parameters, params, args, level);
      case Optional(c) =>
        r := CreatePostfix(e, c, parameters, params, args, level);
      case Repeat(c) =>
        r := CreatePostfix(e, c, parameters, params, args, level);
      case OptionalRepeat(c) =>
        r := CreatePostfix(e, c, parameters, params, args, level);
      case Regex(_) =>
        return Err("REGEX operator not supported in PEG grammar");
    }

    /** A macro call: its argument's matcher, then the macro's own. */
    method CreateCall(e: Expr, parameters: seq<string>, params: seq<nat>, ghost args: seq<Core>, ghost level: nat)
      returns (r: Result<nat>)
      requires Complete() && CallsBelow(su.g, levels, e, level) && SpelledRight(su, levels, parameters, e) && e.Call?
      requires |parameters| == |params| && DenotesAll(ImageOf(Snapshot()), params, args)
      modifies this
      ensures r.Ok? ==> Complete() && Grown(old(Snapshot()), Snapshot())
      ensures r.Ok? ==>
        var meaning := Desugar(su, levels, e, level, parameters, args);
        && meaning.Ok? && Denotes(ImageOf(Snapshot()), r.value, meaning.value)
      ensures r.Err? && AllRulesMean(su, levels) ==> Desugar(su, levels, e, level, parameters, args).Err?
      decreases Waiting(), level, 1, e, 2
    {
      var param := CreateExpression(e.arg, parameters, params, args, level);
      if param.Err? {
        return param;
      }
      ghost var meaning := Desugar(su, levels, e.arg, level, parameters, args);
      ghost var before := Snapshot();
      r := CreateMatcher(e.name, [param.value], [meaning.value], level);
      if r.Ok? {
        GrownTwice(old(Snapshot()), before, Snapshot());
      }
    }

    /** A sequence or an ordered choice: its children in order, then the matcher over them. */
    method CreateChildren(e: Expr, children: seq<Expr>, parameters: seq<string>, params: seq<nat>,
                          ghost args: seq<Core>, ghost level: nat)
      returns (r: Result<nat>)
      requires Complete() && CallsBelow(su.g, levels, e, level) && SpelledRight(su, levels, parameters, e)
      requires e == Sequence(children) || e == Choice(children)
      requires |parameters| == |params| && DenotesAll(ImageOf(Snapshot()), params, args)
      modifies this
      ensures r.Ok? ==> Complete() && Grown(old(Snapshot()), Snapshot())
      ensures r.Ok? ==>
        var meaning := Desugar(su, levels, e, level, parameters, args);
        && meaning.Ok? && Denotes(ImageOf(Snapshot()), r.value, meaning.value)
      ensures r.Ok? ==> old(nextID) <= r.value
      ensures r.Err? && AllRulesMean(su, levels) ==> Desugar(su, levels, e, level, parameters, args).Err?
      decreases Waiting(), level, 1, e, 2
    {
      var ids, err;
      ghost var parts;
      ids, parts, err := CreateAll(e, children, parameters, params, args, level);
      if err.Some? {
        return Err(err.value);
      }
      ghost var before := Snapshot();
      var id;
      if e.Sequence? {
        id := Alloc(ListOf(ids), Seq(ANONYMOUS, parts));
      } else {
        id := Alloc(ChoiceOf(ids), Alt(parts));
      }
      GrownTwice(old(Snapshot()), before, Snapshot());
      return Ok(id);
    }

    /** The children of a sequence or choice (factory.go:168-176). */
    method CreateAll(ghost e: Expr, children: seq<Expr>, parameters: seq<string>, params: seq<nat>,
                     ghost args: seq<Core>, ghost level: nat)
      returns (ids: seq<nat>, ghost parts: seq<Core>, err: Option<string>)
      requires Complete() && CallsBelow(su.g, levels, e, level) && SpelledRight(su, levels, parameters, e)
      requires e == Sequence(children) || e == Choice(children)
      requires |parameters| == |params| && DenotesAll(ImageOf(Snapshot()), params, args)
      modifies this
      ensures err.None? ==> Complete() && Grown(old(Snapshot()), Snapshot())
      ensures err.None? ==>
        DesugarAll(su, levels, children, level, parameters, args) == Ok(parts)
        && DenotesAll(ImageOf(Snapshot()), ids, parts)
      ensures err.Some? && AllRulesMean(su, levels) ==> DesugarAll(su, levels, children, level, parameters, args).Err?
      decreases Waiting(), level, 1, e, 1
    {
      ids, parts := [], [];
      ghost var start := Snapshot();
      assert forall i :: 0 <= i < |children| ==> CallsBelow(su.g, levels, children[i], level);
      for i := 0 to |children|
        invariant Complete() && Waiting() <= old(Waiting())
        invariant MadeSoFar(su, levels, start, Snapshot(), children[..i], level, parameters, args, ids, parts)
      {
        ids, parts, err := CreateNext(e, children, i, parameters, params, args, level, ids, parts, start);
        if err.Some? {
          return;
        }
      }
      assert children[..|children|] == children;
      err := None;
    }

    /** One child more; `start` is the arena before the first. */
    method CreateNext(ghost e: Expr, children: seq<Expr>, i: nat, parameters: seq<string>, params: seq<nat>,
                      ghost args: seq<Core>, ghost level: nat, ids: seq<nat>, ghost parts: seq<Core>,
                      ghost start: Arena)
      returns (ids': seq<nat>, ghost parts': seq<Core>, err: Option<string>)
      requires Complete() && CallsBelow(su.g, levels, e, level) && SpelledRight(su, levels, parameters, e)
      requires (e == Sequence(children) || e == Choice(children)) && i < |children|
      requires |parameters| == |params| && DenotesAll(ImageOf(start), params, args)
      requires MadeSoFar(su, levels, start, Snapshot(), children[..i], level, parameters, args, ids, parts)
      modifies this
      ensures err.None? ==>
        Complete() && MadeSoFar(su, levels, start, Snapshot(), children[..i + 1], level, parameters, args, ids', parts')
      ensures err.Some? && AllRulesMean(su, levels) ==> DesugarAll(su, levels, children, level, parameters, args).Err?
      decreases Waiting(), level, 1, e, 0
    {
      OneMorePart(su, levels, children, i, level, parameters, args, parts);
      DenotesAllGrows(start, Snapshot(), params, args);
      var child := CreateExpression(children[i], parameters, params, args, level);
      if child.Err? {
        return ids, parts, Some(child.msg);
      }
      ghost var part := Desugar(su, levels, children[i], level, parameters, args).value;
      ListGrows(start, old(Snapshot()), Snapshot(), ids, parts, child.value, part);
      return ids + [child.value], parts + [part], None;
    }

    /** `?`, `+`, and `*` as an optional over a repeat. */
    method CreatePostfix(e: Expr, c: Expr, parameters: seq<string>, params: seq<nat>,
                         ghost args: seq<Core>, ghost level: nat)
      returns (r: Result<nat>)
      requires Complete() && CallsBelow(su.g, levels, e, level) && SpelledRight(su, levels, parameters, e)
      requires e == Optional(c) || e == Repeat(c) || e == OptionalRepeat(c)
      requires |parameters| == |params| && DenotesAll(ImageOf(Snapshot()), params, args)
      modifies this
      ensures r.Ok? ==> Complete() && Grown(old(Snapshot()), Snapshot())
      ensures r.Ok? ==>
        var meaning := Desugar(su, levels, e, level, parameters, args);
        && meaning.Ok? && Denotes(ImageOf(Snapshot()), r.value, meaning.value)
      ensures r.Err? && AllRulesMean(su, levels) ==> Desugar(su, levels, e, level, parameters, args).Err?
      decreases Waiting(), level, 1, e, 0
    {
      var child := CreateExpression(c, parameters, params, args, level);
      if child.Err? {
        return child;
      }
      ghost var core := Desugar(su, levels, c, level, parameters, args).value;
      ghost var before := Snapshot();
      var id := child.value;
      ghost var middle := before;
      if !e.Optional? {
        id := Alloc(RepeatOf(id), Plus(core));
        middle := Snapshot();
        core := Plus(core);
      }
      if !e.Repeat? {
        id := Alloc(OptionalOf(id), Opt(core));
      }
      GrownTwice(before, middle, Snapshot());
      GrownTwice(old(Snapshot()), before, Snapshot());
      return Ok(id);
    }
  }

  // ----- the whole compilation -----

  ghost predicate DistinctRules(table: seq<Override>) {
    forall i, j :: 0 <= i < j < |table| ==> table[i].rule != table[j].rule
  }

  lemma OverridesGrow(su: Setup, table: seq<Override>, i: nat)
    requires DistinctRules(table) && i < |table|
    ensures table[i].rule !in OverridesOf(su, table[..i])
    ensures OverridesOf(su, table[..i + 1])
      == OverridesOf(su, table[..i])[table[i].rule := OverrideDefinition(su, table[i])]
  {
    assert table[..i + 1][..i] == table[..i];
  }

  lemma AllInstalled(su: Setup, table: seq<Override>)
    requires su.overridden == set o | o in table :: o.rule
    ensures table[..|table|] == table && forall r :: r in su.overridden ==> r in OverridesOf(su, table)
  {
    assert table[..|table|] == table;
  }

  /** Every matcher of a plain or overridden rule is the one registered for it. */
  ghost predicate OncePerRule(su: Setup, e: Engine, ids: map<string, nat>) {
    forall i :: 0 <= i < |e.nodes| ==> NodeOnce(su, e.nodes, ids, i)
  }

  /** A rule that is no macro has at most one matcher. */
  lemma OneMatcherPerRule(su: Setup, e: Engine, ids: map<string, nat>, r: string, i: nat, j: nat)
    requires OncePerRule(su, e, ids) && !IsMacro(su.g, r) && i < |e.nodes| && j < |e.nodes|
    requires e.nodes[i].meta.rule == Some(r) && e.nodes[j].meta.rule == Some(r)
    ensures i == j
  {
    assert NodeOnce(su, e.nodes, ids, i) && NodeOnce(su, e.nodes, ids, j);
  }

  /** A finished arena represents the grammar's meaning. */
  lemma FinishedRepresents(su: Setup, levels: map<string, nat>, a: Arena, e: Engine)
    requires ArenaOk(su, levels, a) && a.open == {} && e.nodes == a.nodes
    ensures forall r :: r in a.matchers && r !in a.builtins ==>
      Reached(su, levels, r) && DesugarRule(su, levels, r, []).Ok?
    ensures Represents(e, ImageOf(a), ProgramOf(su, levels, a.builtins, a.matchers.Keys))
    ensures OncePerRule(su, e, a.matchers)
  {
    forall r | r in a.matchers
      ensures RuleEntered(su, levels, a, r)
    {
    }
    var im := ImageOf(a);
    var p := ProgramOf(su, levels, a.builtins, a.matchers.Keys);
    forall i | 0 <= i < |a.nodes|
      ensures e.nodes[i].id == i && NodeFits(im, p, e.nodes[i], im.cores[i])
    {
      assert NodeEntered(a, i);
      FitsGrows(im, im, a.builtins, p, e.nodes[i], im.cores[i]);
    }
    forall r | r in im.ids
      ensures RuleFits(im, p, r)
    {
      assert RuleEntered(su, levels, a, r);
    }
  }

  /** New (engine.go:50-71): overrides first, then everything reachable from the root rule.
      On success the engine represents the grammar's meaning; it fails only when some rule has
      no meaning or the root is missing. */
  method New(g: Grammar, ghost levels: map<string, nat>, lexicon: Lexicon, table: seq<Override>,
             memoized: set<string>, rootRule: string)
    returns (r: Result<(Engine, map<string, nat>)>, ghost im: Image, ghost p: Program)
    requires DistinctRules(table)
    requires var su := Setup(g, set o | o in table :: o.rule, memoized);
      Acceptable(su, levels) && SpelledRight(su, levels, [], Reference(rootRule))
    ensures r.Ok? ==>
      var su := Setup(g, set o | o in table :: o.rule, memoized);
      && r.value.0.lexicon == lexicon && r.value.1 == im.ids && rootRule in im.ids
      && (forall n :: n in im.ids && n !in su.overridden ==>
        Reached(su, levels, n) && DesugarRule(su, levels, n, []).Ok?)
      && p == ProgramOf(su, levels, OverridesOf(su, table), im.ids.Keys)
      && Represents(r.value.0, im, p) && OncePerRule(su, r.value.0, im.ids)
    ensures r.Ok? ==> MatchesAsJudged(g, table, r.value.0, r.value.1)
    ensures r.Err? ==>
      var su := Setup(g, set o | o in table :: o.rule, memoized);
      !AllRulesMean(su, levels)
      || (rootRule !in su.overridden && (!HasRule(g, rootRule) || RuleOf(g, rootRule).parameters != []))
    ensures
      var su := Setup(g, set o | o in table :: o.rule, memoized);
      AllWellNamed(su, levels) && WellNamed(su, [], Reference(rootRule)) ==> r.Ok?
  {
    var su := Setup(g, set o | o in table :: o.rule, memoized);
    var f := new Compiler(su, levels);
    im, p := Image([], map[]), map[];
    assert ArenaOk(su, levels, f.Snapshot());
    f.InstallOverrides(table);
    var root := f.CreateMatcher(rootRule, [], [], 0);
    if root.Err? {
      if AllWellNamed(su, levels) {
        AllPlainRulesMean(su, levels);
      }
      return Err(root.msg), im, p;
    }
    var e := Engine(f.nodes, lexicon);
    im := ImageOf(f.Snapshot());
    FinishedRepresents(su, levels, f.Snapshot(), e);
    p := ProgramOf(su, levels, f.builtins, f.matchers.Keys);
    FinishedIsJudged(su, levels, table, e, im, p);
    r := Ok((e, f.matchers));
  }

  /** The compiled engine, run from any compiled rule on any tokens, does exactly what the
      grammar says that rule does. */
  lemma EngineMeansGrammar(e: Engine, im: Image, p: Program, rw: RuleWitness, tokens: seq<Token>, rule: string,
                           pos: nat)
    requires Represents(e, im, p) && ProgramRanked(p, rw) && rule in im.ids
    ensures WellRanked(e, WitnessOf(im, p, rw)) && im.ids[rule] in WitnessOf(im, p, rw).live
    ensures Run(e, WitnessOf(im, p, rw), tokens, im.ids[rule], pos)
         == Eval(p, rw, e.lexicon, tokens, Ref(rule), pos)
  {
    CompiledIsRanked(e, im, p, rw);
    assert RuleFits(im, p, rule);
    DenotedMeans(e, im, p, rw, tokens, im.ids[rule], Ref(rule), pos);
  }
}
