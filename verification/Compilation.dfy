/** When a matcher graph is the compiled form of a PEG program, and why it then means the same. */
module Compilation {
  import opened Tokens
  import opened ParseTree
  import opened SpecialMatchers
  import opened PegSemantics
  import opened PegProgram

  /** The expression each matcher was built from, and the matcher of each compiled rule. */
  datatype Image = Image(cores: seq<Core>, ids: map<string, nat>)

  /** Matcher `id` stands for expression `part`: a rule reference is the rule's own matcher, and
      keyword matchers are shared between spellings that differ only in case. */
  ghost predicate Denotes(im: Image, id: nat, part: Core) {
    id < |im.cores| &&
    match part
    case Ref(r) => r in im.ids && im.ids[r] == id
    case Lit(text) => im.cores[id].Lit? && CiEquals(im.cores[id].text, text)
    case _ => im.cores[id] == part
  }

  ghost predicate DenotesAll(im: Image, ids: seq<nat>, parts: seq<Core>) {
    |ids| == |parts| && forall i :: 0 <= i < |ids| ==> Denotes(im, ids[i], parts[i])
  }

  /** Matcher m is built as expression c asks. */
  ghost predicate NodeFits(im: Image, p: Program, m: Matcher, c: Core) {
    match c
    case Lit(text) => m.meta == ANONYMOUS && m.body == LeafOf(KeywordLeaf(text))
    case Ref(r) => r in p && p[r].Builtin? && m.meta == p[r].meta && m.body == LeafOf(p[r].leaf)
    case Seq(meta, parts) => m.meta == meta && m.body.ListOf? && DenotesAll(im, m.body.children, parts)
    case Alt(parts) => m.meta == ANONYMOUS && m.body.ChoiceOf? && DenotesAll(im, m.body.children, parts)
    case Opt(inner) => m.meta == ANONYMOUS && m.body.OptionalOf? && Denotes(im, m.body.child, inner)
    case Plus(inner) => m.meta == ANONYMOUS && m.body.RepeatOf? && Denotes(im, m.body.element, inner)
  }

  ghost predicate RuleFits(im: Image, p: Program, r: string)
    requires r in im.ids
  {
    r in p && im.ids[r] < |im.cores| &&
    im.cores[im.ids[r]] == if p[r].Builtin? then Ref(r) else p[r].body
  }

  ghost predicate Represents(e: Engine, im: Image, p: Program) {
    |im.cores| == |e.nodes|
    && (forall i :: 0 <= i < |e.nodes| ==> e.nodes[i].id == i)
    && (forall i {:trigger NodeFits(im, p, e.nodes[i], im.cores[i])} :: 0 <= i < |e.nodes| ==>
         NodeFits(im, p, e.nodes[i], im.cores[i]))
    && (forall r :: r in im.ids ==> RuleFits(im, p, r))
    && (forall r :: r in p ==> r in im.ids)
  }

  /** The graph's termination evidence, read off the program's: in use are the matchers whose
      expressions are well-formed. */
  ghost function WitnessOf(im: Image, p: Program, rw: RuleWitness): Witness {
    Witness(seq(|im.cores|, i requires 0 <= i < |im.cores| => CoreRank(rw, im.cores[i])),
            seq(|im.cores|, i requires 0 <= i < |im.cores| => CoreNullable(rw, im.cores[i])),
            set i | 0 <= i < |im.cores| && CoreOk(p, rw, im.cores[i]))
  }

  lemma DenotedOk(e: Engine, im: Image, p: Program, rw: RuleWitness, id: nat, part: Core)
    requires Represents(e, im, p) && ProgramRanked(p, rw)
    requires CoreOk(p, rw, part) && Denotes(im, id, part)
    ensures CoreOk(p, rw, im.cores[id])
    ensures CoreRank(rw, im.cores[id]) <= CoreRank(rw, part)
    ensures CoreNullable(rw, im.cores[id]) ==> CoreNullable(rw, part)
  {
    if part.Ref? {
      assert RuleOk(p, rw, part.rule);
      assert RuleFits(im, p, part.rule);
    }
  }

  lemma NodeIsRanked(e: Engine, im: Image, p: Program, rw: RuleWitness, i: nat)
    requires Represents(e, im, p) && ProgramRanked(p, rw)
    requires i in WitnessOf(im, p, rw).live
    ensures NodeRanked(e.nodes[i].body, i, WitnessOf(im, p, rw))
  {
    var w := WitnessOf(im, p, rw);
    var c := im.cores[i];
    assert NodeFits(im, p, e.nodes[i], c);
    match c
    case Lit(_) =>
    case Ref(_) =>
    case Opt(inner) => DenotedOk(e, im, p, rw, e.nodes[i].body.child, inner);
    case Plus(inner) => DenotedOk(e, im, p, rw, e.nodes[i].body.element, inner);
    case Alt(parts) =>
      var cs := e.nodes[i].body.children;
      forall j | 0 <= j < |cs|
        ensures cs[j] in w.live && w.rank[cs[j]] < w.rank[i] && (w.nullable[cs[j]] ==> w.nullable[i])
      {
        DenotedOk(e, im, p, rw, cs[j], parts[j]);
        WidestRankBounds(rw, parts, j);
      }
    case Seq(_, parts) =>
      ListIsRanked(e, im, p, rw, i);
  }

  lemma ListIsRanked(e: Engine, im: Image, p: Program, rw: RuleWitness, i: nat)
    requires Represents(e, im, p) && ProgramRanked(p, rw)
    requires i in WitnessOf(im, p, rw).live && im.cores[i].Seq?
    ensures NodeRanked(e.nodes[i].body, i, WitnessOf(im, p, rw))
  {
    var w := WitnessOf(im, p, rw);
    assert NodeFits(im, p, e.nodes[i], im.cores[i]);
    var parts := im.cores[i].parts;
    var cs := e.nodes[i].body.children;
    forall j | 0 <= j < |cs|
      ensures cs[j] in w.live && (w.nullable[cs[j]] ==> CoreNullable(rw, parts[j]))
      ensures w.rank[cs[j]] <= CoreRank(rw, parts[j])
    {
      assert CoreOk(p, rw, parts[j]);
      DenotedOk(e, im, p, rw, cs[j], parts[j]);
    }
    forall j | 0 <= j < |cs| && LeftNullable(cs, j, w)
      ensures w.rank[cs[j]] < w.rank[i]
    {
      LeftRankBounds(rw, parts, j);
    }
    AllNullableIff(rw, parts);
  }

  /** The image of a terminating program terminates: its graph has no left recursion and no
      nullable repeat body either. */
  lemma CompiledIsRanked(e: Engine, im: Image, p: Program, rw: RuleWitness)
    requires Represents(e, im, p) && ProgramRanked(p, rw)
    ensures WellRanked(e, WitnessOf(im, p, rw))
  {
    forall i | i in WitnessOf(im, p, rw).live
      ensures NodeRanked(e.nodes[i].body, i, WitnessOf(im, p, rw))
    {
      NodeIsRanked(e, im, p, rw, i);
    }
  }

  ghost predicate Setting(e: Engine, im: Image, p: Program, rw: RuleWitness) {
    Represents(e, im, p) && ProgramRanked(p, rw) && WellRanked(e, WitnessOf(im, p, rw))
  }

  /** Every matcher does exactly what the expression it was built from means: same success,
      same consumption, same tree, same furthest token, same abort. */
  lemma {:induction false} MatcherMeansExpression(e: Engine, im: Image, p: Program, rw: RuleWitness,
                                                  tokens: seq<Token>, id: nat, pos: nat)
    requires Setting(e, im, p, rw) && id in WitnessOf(im, p, rw).live
    ensures Run(e, WitnessOf(im, p, rw), tokens, id, pos) == Eval(p, rw, e.lexicon, tokens, im.cores[id], pos)
    decreases Left(tokens, pos), CoreRank(rw, im.cores[id]), 1, 0
  {
    var w := WitnessOf(im, p, rw);
    var c := im.cores[id];
    assert NodeFits(im, p, e.nodes[id], c);
    assert NodeRanked(e.nodes[id].body, id, w);
    match c
    case Lit(_) =>
    case Ref(r) =>
    case Seq(_, _) => ListMeansParts(e, im, p, rw, tokens, id, 0, pos, pos);
    case Alt(_) => ChoiceMeansAlternatives(e, im, p, rw, tokens, id, 0, pos);
    case Opt(inner) => DenotedMeans(e, im, p, rw, tokens, e.nodes[id].body.child, inner, pos);
    case Plus(_) => RepeatMeansPlus(e, im, p, rw, tokens, id, pos);
  }

  lemma {:induction false} DenotedMeans(e: Engine, im: Image, p: Program, rw: RuleWitness, tokens: seq<Token>, id: nat,
                                        part: Core, pos: nat)
    requires Setting(e, im, p, rw)
    requires CoreOk(p, rw, part) && Denotes(im, id, part)
    ensures id in WitnessOf(im, p, rw).live
    ensures Run(e, WitnessOf(im, p, rw), tokens, id, pos) == Eval(p, rw, e.lexicon, tokens, part, pos)
    decreases Left(tokens, pos), CoreRank(rw, im.cores[id]), 2, 0
  {
    DenotedOk(e, im, p, rw, id, part);
    MatcherMeansExpression(e, im, p, rw, tokens, id, pos);
    match part
    case Ref(r) => assert RuleFits(im, p, r);
    case Lit(text) => SameKeyword(e.lexicon, im.cores[id].text, text, tokens, pos);
    case _ =>
  }

  lemma SameKeyword(lexicon: Lexicon, a: string, b: string, tokens: seq<Token>, pos: nat)
    requires CiEquals(a, b)
    ensures LeafMatch(lexicon, KeywordLeaf(a), "", tokens, pos) == LeafMatch(lexicon, KeywordLeaf(b), "", tokens, pos)
  {
  }

  /** List `id`, at child k, started at `start` and now at `pos`: both its readings are defined. */
  ghost predicate AtPart(e: Engine, im: Image, p: Program, rw: RuleWitness, tokens: seq<Token>, id: nat, k: nat,
                         start: nat, pos: nat)
  {
    && Setting(e, im, p, rw) && id in WitnessOf(im, p, rw).live && im.cores[id].Seq?
    && e.nodes[id].body.ListOf? && DenotesAll(im, e.nodes[id].body.children, im.cores[id].parts)
    && k <= |im.cores[id].parts| && InRange(tokens, start, pos)
    && (pos == start ==> LeftNullable(e.nodes[id].body.children, k, WitnessOf(im, p, rw)))
    && (pos == start ==> PartsNullable(rw, im.cores[id].parts, k))
  }

  /** What the list's children do from child k on, and what the parts mean from part k on. */
  ghost predicate Readings(e: Engine, im: Image, p: Program, rw: RuleWitness, tokens: seq<Token>, id: nat, k: nat,
                           start: nat, pos: nat, run: SeqOutcome, meant: SeqOutcome)
    requires AtPart(e, im, p, rw, tokens, id, k, start, pos)
  {
    && run == RunChildren(e, WitnessOf(im, p, rw), tokens, id, k, start, pos)
    && meant == EvalParts(p, rw, e.lexicon, tokens, im.cores[id], k, start, pos)
  }

  lemma {:induction false} ListMeansParts(e: Engine, im: Image, p: Program, rw: RuleWitness, tokens: seq<Token>,
                                          id: nat, k: nat, start: nat, pos: nat)
    requires AtPart(e, im, p, rw, tokens, id, k, start, pos)
    ensures RunChildren(e, WitnessOf(im, p, rw), tokens, id, k, start, pos)
         == EvalParts(p, rw, e.lexicon, tokens, im.cores[id], k, start, pos)
    decreases Left(tokens, start), CoreRank(rw, im.cores[id]), 1, 0, 0
  {
    ReadingsAgree(e, im, p, rw, tokens, id, k, start, pos,
      RunChildren(e, WitnessOf(im, p, rw), tokens, id, k, start, pos),
      EvalParts(p, rw, e.lexicon, tokens, im.cores[id], k, start, pos));
  }

  lemma {:induction false} ReadingsAgree(e: Engine, im: Image, p: Program, rw: RuleWitness, tokens: seq<Token>,
                                         id: nat, k: nat, start: nat, pos: nat, run: SeqOutcome, meant: SeqOutcome)
    requires AtPart(e, im, p, rw, tokens, id, k, start, pos)
    requires Readings(e, im, p, rw, tokens, id, k, start, pos, run, meant)
    ensures run == meant
    decreases Left(tokens, start), CoreRank(rw, im.cores[id]), 0, |im.cores[id].parts| - k, 1
  {
    if k < |im.cores[id].parts| {
      var o, run', meant' := PartAgrees(e, im, p, rw, tokens, id, k, start, pos, run, meant);
      if o.Matched? {
        ReadingsAgree(e, im, p, rw, tokens, id, k + 1, start, o.pos, run', meant');
      }
    }
  }

  /** Child k does what part k means, and the list is then at child k + 1. */
  lemma {:induction false} PartAgrees(e: Engine, im: Image, p: Program, rw: RuleWitness, tokens: seq<Token>,
                                      id: nat, k: nat, start: nat, pos: nat, run: SeqOutcome, meant: SeqOutcome)
    returns (o: Outcome, run': SeqOutcome, meant': SeqOutcome)
    requires AtPart(e, im, p, rw, tokens, id, k, start, pos) && k < |im.cores[id].parts|
    requires Readings(e, im, p, rw, tokens, id, k, start, pos, run, meant)
    ensures o.Matched? ==>
      && AtPart(e, im, p, rw, tokens, id, k + 1, start, o.pos)
      && Readings(e, im, p, rw, tokens, id, k + 1, start, o.pos, run', meant')
      && run == Prepend([o.result], o.reach, run') && meant == Prepend([o.result], o.reach, meant')
    ensures !o.Matched? ==> run == meant
    decreases Left(tokens, start), CoreRank(rw, im.cores[id]), 0, |im.cores[id].parts| - k, 0
  {
    var w := WitnessOf(im, p, rw);
    var c, child := im.cores[id], e.nodes[id].body.children[k];
    assert NodeRanked(e.nodes[id].body, id, w);
    assert CoreOk(p, rw, c);
    DenotedOk(e, im, p, rw, child, c.parts[k]);
    DenotedMeans(e, im, p, rw, tokens, child, c.parts[k], pos);
    o, run', meant' := Run(e, w, tokens, child, pos), run, meant;
    ChildrenStep(e, w, tokens, id, k, start, pos, o);
    PartsStep(p, rw, e.lexicon, tokens, c, k, start, pos, o);
    if o.Matched? {
      run' := RunChildren(e, w, tokens, id, k + 1, start, o.pos);
      meant' := EvalParts(p, rw, e.lexicon, tokens, c, k + 1, start, o.pos);
    }
  }

  lemma {:induction false} ChoiceMeansAlternatives(e: Engine, im: Image, p: Program, rw: RuleWitness,
                                                   tokens: seq<Token>, id: nat, k: nat, pos: nat)
    requires Setting(e, im, p, rw) && id in WitnessOf(im, p, rw).live && im.cores[id].Alt?
    requires e.nodes[id].body.ChoiceOf? && DenotesAll(im, e.nodes[id].body.children, im.cores[id].parts)
    requires k <= |im.cores[id].parts|
    ensures Choose(e, WitnessOf(im, p, rw), tokens, id, k, pos)
         == EvalAlternatives(p, rw, e.lexicon, tokens, im.cores[id], k, pos)
    decreases Left(tokens, pos), CoreRank(rw, im.cores[id]), 0, |im.cores[id].parts| - k
  {
    var cs := e.nodes[id].body.children;
    if k < |cs| {
      var w := WitnessOf(im, p, rw);
      var c := im.cores[id];
      assert NodeRanked(e.nodes[id].body, id, w);
      assert w.rank[cs[k]] < w.rank[id];
      assert CoreOk(p, rw, c.parts[k]);
      DenotedMeans(e, im, p, rw, tokens, cs[k], c.parts[k], pos);
      match Run(e, w, tokens, cs[k], pos)
      case Failed(_) => ChoiceMeansAlternatives(e, im, p, rw, tokens, id, k + 1, pos);
      case _ =>
    }
  }

  lemma {:induction false} RepeatMeansPlus(e: Engine, im: Image, p: Program, rw: RuleWitness, tokens: seq<Token>,
                                           id: nat, pos: nat)
    requires Setting(e, im, p, rw) && id in WitnessOf(im, p, rw).live && im.cores[id].Plus?
    requires e.nodes[id].body.RepeatOf? && Denotes(im, e.nodes[id].body.element, im.cores[id].inner)
    ensures RunRepeat(e, WitnessOf(im, p, rw), tokens, id, pos)
         == EvalPlus(p, rw, e.lexicon, tokens, im.cores[id], pos)
    decreases Left(tokens, pos), CoreRank(rw, im.cores[id]), 0, 0
  {
    var w := WitnessOf(im, p, rw);
    assert NodeRanked(e.nodes[id].body, id, w);
    assert CoreOk(p, rw, im.cores[id]);
    var element := e.nodes[id].body.element;
    DenotedMeans(e, im, p, rw, tokens, element, im.cores[id].inner, pos);
    match Run(e, w, tokens, element, pos)
    case Matched(_, pos', _) => RepeatMeansPlus(e, im, p, rw, tokens, id, pos');
    case _ =>
  }
}
