/** A compiled grammar at work: matching by rule name, and what the packrat cache saves
    (internal/matcher/engine.go). */
module Engines {
  import opened Tokens
  import opened PegJudgment
  import opened GrammarJudgment
  import opened PegGrammar
  import opened PegSemantics
  import opened PegProgram
  import opened Substitution
  import opened Compilation
  import opened Raising
  import opened Packrat
  import opened Matching
  import F = Factory

  /** No rule of the packrat list takes a parameter. */
  predicate MemoizesPlainRules(su: Setup) {
    forall r :: r in su.memoized ==> !F.IsMacro(su.g, r)
  }

  /** The matchers registered for some of the names. */
  ghost function Registered(ids: map<string, nat>, names: set<string>): set<nat> {
    set r | r in names && r in ids :: ids[r]
  }

  lemma {:induction false} RegisteredSize(ids: map<string, nat>, names: set<string>)
    ensures |Registered(ids, names)| <= |names|
  {
    if names != {} {
      var r :| r in names;
      RegisteredSize(ids, names - {r});
      var fewer := Registered(ids, names - {r});
      assert Registered(ids, names) == if r in ids then fewer + {ids[r]} else fewer;
    }
  }

  /** There is at most one memoized matcher for each rule of the packrat list. */
  lemma MemoizedMatchers(su: Setup, e: Engine, ids: map<string, nat>)
    requires F.OncePerRule(su, e, ids) && MemoizesPlainRules(su)
    ensures |Memoized(e)| <= |su.memoized|
  {
    forall i | i in Memoized(e)
      ensures i in Registered(ids, su.memoized)
    {
      assert F.NodeOnce(su, e.nodes, ids, i);
    }
    SubsetSize(Memoized(e), Registered(ids, su.memoized));
    RegisteredSize(ids, su.memoized);
  }

  /** The key is of a matcher registered for rule r, or one that carries its name. */
  ghost predicate RunOf(e: Engine, ids: map<string, nat>, k: Key, r: string) {
    F.IdOf(ids, r, k.matcherID) || (k.matcherID < |e.nodes| && e.nodes[k.matcherID].meta.rule == Some(r))
  }

  /** Two runs of one rule at one token. */
  ghost predicate SameRuleAndToken(e: Engine, ids: map<string, nat>, a: Key, b: Key, r: string) {
    RunOf(e, ids, a, r) && RunOf(e, ids, b, r) && a.tokenIndex == b.tokenIndex
  }

  /** The body of a rule that is no macro runs at most once at a token. */
  ghost predicate OncePerToken(su: Setup, e: Engine, ids: map<string, nat>, runs: seq<Key>) {
    forall i, j, r :: 0 <= i < j < |runs| && !F.IsMacro(su.g, r) ==> !SameRuleAndToken(e, ids, runs[i], runs[j], r)
  }

  /** Distinct runs are runs of distinct rules, or at distinct tokens. */
  lemma RunsPerRule(su: Setup, e: Engine, ids: map<string, nat>, runs: seq<Key>)
    requires F.OncePerRule(su, e, ids) && Distinct(runs)
    ensures OncePerToken(su, e, ids, runs)
  {
    forall i, j, r | 0 <= i < j < |runs| && !F.IsMacro(su.g, r)
      ensures !SameRuleAndToken(e, ids, runs[i], runs[j], r)
    {
      RegisteredRun(su, e, ids, runs[i], r);
      RegisteredRun(su, e, ids, runs[j], r);
    }
  }

  lemma RegisteredRun(su: Setup, e: Engine, ids: map<string, nat>, k: Key, r: string)
    requires F.OncePerRule(su, e, ids) && !F.IsMacro(su.g, r)
    ensures RunOf(e, ids, k, r) <==> F.IdOf(ids, r, k.matcherID)
  {
    if k.matcherID < |e.nodes| {
      assert F.NodeOnce(su, e.nodes, ids, k.matcherID);
    }
  }

  /** The rule at a token, under the judgment of the grammar. */
  ghost predicate RuleFollows(g: Grammar, table: seq<Override>, lexicon: Lexicon, tokens: seq<Token>, rule: string,
                              pos: nat, v: Verdict)
  {
    Follows(Expressions(g, table), lexicon, tokens, Goal(Reference(rule), TopLevel), pos, v)
  }

  /** Of a grammar without left recursion or nullable repeats every compiled rule can be run, and its
      evaluation is what is judged of it. */
  lemma RankedGrammarRuns(su: Setup, levels: map<string, nat>, table: seq<Override>, e: Engine, im: Image, p: Program,
                          rw: RuleWitness, tokens: seq<Token>, rule: string, pos: nat)
    requires Finished(su, levels, table, e, im, p) && ProgramRanked(p, rw) && rule in im.ids
    ensures WellRanked(e, WitnessOf(im, p, rw)) && im.ids[rule] in WitnessOf(im, p, rw).live
    ensures rule in p
    ensures RuleJudged(su.g, table, e.lexicon, tokens, rule, pos, Eval(p, rw, e.lexicon, tokens, Ref(rule), pos))
  {
    F.EngineMeansGrammar(e, im, p, rw, tokens, rule, pos);
    RuleIsJudged(su, levels, table, e, im, p, WitnessOf(im, p, rw), tokens, rule, pos);
  }

  /** Match, MatchTopLevel and MatchExpression (engine.go:107-127) of an engine that New made: the
      grammar's own verdict on the rule, each memoized rule's body run at most once per token
      position. */
  method MatchRule(ghost su: Setup, ghost table: seq<Override>, e: Engine, ids: map<string, nat>, ghost w: Witness,
                   rule: string, tokens: seq<Token>, pos: nat)
    returns (v: Verdict, ghost bodyRuns: seq<Key>)
    requires MatchesAsJudged(su.g, table, e, ids) && F.OncePerRule(su, e, ids)
    requires rule in ids ==> WellRanked(e, w) && ids[rule] in w.live
    ensures rule in ids ==> RuleFollows(su.g, table, e.lexicon, tokens, rule, pos, v)
    ensures rule !in ids ==> v.MatchError? && bodyRuns == []
    ensures Distinct(bodyRuns) && OncePerToken(su, e, ids, bodyRuns)
    ensures pos <= |tokens| && MemoizesPlainRules(su) ==> |bodyRuns| <= |su.memoized| * (|tokens| + 1)
  {
    if rule !in ids {
      return MatchError("engine has no such rule"), [];
    }
    v, bodyRuns := RunMatch(e, w, ids[rule], tokens, pos);
    assert RuleJudged(su.g, table, e.lexicon, tokens, rule, pos, Run(e, w, tokens, ids[rule], pos));
    RunsPerRule(su, e, ids, bodyRuns);
    if MemoizesPlainRules(su) {
      MemoizedMatchers(su, e, ids);
      MoreRules(|Memoized(e)|, |su.memoized|, |tokens| + 1);
    }
  }

  lemma MoreRules(a: nat, b: nat, n: nat)
    requires a <= b
    ensures a * n <= b * n
  {
  }
}
