/** What a parsing expression grammar says of a token list, as a judgment: a derivation is a tree in
    which every verdict follows from the verdicts below it, and each rule of inference is checked by
    itself.  Nothing here runs. */
module PegJudgment {
  import opened Tokens
  import opened ParseTree
  import opened SpecialMatchers
  import opened LeafJudgment

  /** What stands at a goal.  `name` and `rule` are what its tree is called before and after. */
  datatype Form<+G> = Form(name: string, rule: Option<string>, shape: Shape<G>)

  datatype Shape<+G> =
    | Leaf(leaf: Leaf)
    | InOrder(parts: seq<G>)
    | FirstOf(alternatives: seq<G>)
    | ZeroOrOne(inner: G)
    | OneOrMore(inner: G)
    | ZeroOrMore(inner: G)
    | Another(goal: G)
    | Meaningless

  /** A verdict on a goal at a token: `found` by its shape, `verdict` with its rule's name. */
  datatype Derivation<G> = Derivation(goal: G, pos: nat, found: Verdict, verdict: Verdict, below: seq<Derivation<G>>)

  // ----- the premises: what was tried, and where -----

  predicate Tried<G(==)>(d: Derivation<G>, goal: G, pos: nat) { d.goal == goal && d.pos == pos }

  /** Parts in order, each from where the one before ended, until one does not match. */
  predicate TriedInOrder<G(==)>(parts: seq<G>, ds: seq<Derivation<G>>, pos: nat)
    decreases |parts|
  {
    if parts == [] then ds == []
    else
      && ds != [] && Tried(ds[0], parts[0], pos)
      && if ds[0].verdict.Yes? then TriedInOrder(parts[1..], ds[1..], ds[0].verdict.end) else |ds| == 1
  }

  /** Alternatives at one place, until one does not say no. */
  predicate TriedInTurn<G(==)>(alternatives: seq<G>, ds: seq<Derivation<G>>, pos: nat)
    decreases |alternatives|
  {
    if alternatives == [] then ds == []
    else
      && ds != [] && Tried(ds[0], alternatives[0], pos)
      && if ds[0].verdict.No? then TriedInTurn(alternatives[1..], ds[1..], pos) else |ds| == 1
  }

  /** One goal again and again, each time from where it ended, until it does not match. */
  predicate TriedAgain<G(==)>(goal: G, ds: seq<Derivation<G>>, pos: nat)
    decreases |ds|
  {
    && ds != [] && Tried(ds[0], goal, pos)
    && if ds[0].verdict.Yes? then TriedAgain(goal, ds[1..], ds[0].verdict.end) else |ds| == 1
  }

  // ----- trees -----

  function Trees<G>(ds: seq<Derivation<G>>): (r: seq<ParseResult>)
    requires forall i :: 0 <= i < |ds| ==> ds[i].verdict.Yes?
    ensures |r| == |ds| && forall i :: 0 <= i < |ds| ==> r[i] == ds[i].verdict.tree
  {
    seq(|ds|, i requires 0 <= i < |ds| => ds[i].verdict.tree)
  }

  /** The place of a node over some trees: from its first token to the furthest end of a tree. */
  ghost predicate Covers(b: Base, name: string, tokens: seq<Token>, pos: nat, trees: seq<ParseResult>) {
    && b.name == name
    && b.offset == (if pos < |tokens| then Some(tokens[pos].span.start) else None)
    && (b.length.Some? <==> b.offset.Some? && exists i :: 0 <= i < |trees| && trees[i].base.offset.Some?)
    && (b.length.Some? ==>
         && b.length.value >= 0
         && (forall i :: 0 <= i < |trees| && trees[i].base.offset.Some? ==> EndOf(trees[i].base) <= EndOf(b))
         && (b.length.value == 0
             || exists i :: 0 <= i < |trees| && trees[i].base.offset.Some? && EndOf(trees[i].base) == EndOf(b)))
  }

  /** A tree under a rule's name. */
  function Called(v: Verdict, rule: Option<string>): Verdict {
    if v.Yes? && rule.Some? then Yes(v.end, v.tree.(base := v.tree.base.(name := rule.value))) else v
  }

  // ----- the rules -----

  /** All parts matched, one after another; else the verdict of the part that did not. */
  ghost predicate OrderRule<G>(name: string, parts: seq<G>, tokens: seq<Token>, pos: nat, ds: seq<Derivation<G>>,
                               v: Verdict)
  {
    && TriedInOrder(parts, ds, pos)
    && if ds != [] && !ds[|ds| - 1].verdict.Yes? then v == ds[|ds| - 1].verdict
       else
         && (forall i :: 0 <= i < |ds| ==> ds[i].verdict.Yes?)
         && v.Yes? && v.end == (if ds == [] then pos else ds[|ds| - 1].verdict.end)
         && v.tree.ListResult? && v.tree.children == Trees(ds) && Covers(v.tree.base, name, tokens, pos, Trees(ds))
  }

  /** The first alternative that matches; no when none does. */
  ghost predicate ChoiceRule<G>(alternatives: seq<G>, tokens: seq<Token>, pos: nat, ds: seq<Derivation<G>>,
                                v: Verdict) {
    && TriedInTurn(alternatives, ds, pos)
    && if ds == [] then v == No
       else match ds[|ds| - 1].verdict
         case Yes(end, t) =>
           && v.Yes? && v.end == end && v.tree.ChoiceResult? && v.tree.index == |ds| - 1 && v.tree.chosen == t
           && Covers(v.tree.base, t.base.name, tokens, pos, [t])
         case other => v == other
  }

  /** The inner goal's match, or a match of nothing where it has none. */
  ghost predicate OptionRule<G>(inner: G, tokens: seq<Token>, pos: nat, ds: seq<Derivation<G>>, v: Verdict) {
    && |ds| == 1 && Tried(ds[0], inner, pos)
    && match ds[0].verdict
       case Yes(end, t) =>
         && v.Yes? && v.end == end && v.tree.OptionalResult? && v.tree.inner == Some(t)
         && Covers(v.tree.base, t.base.name, tokens, pos, [t])
       case No => v == Yes(pos, OptionalResult(Base("", None, None), None))
       case other => v == other
  }

  /** A row of matches up to the first place without one. */
  ghost predicate RowTree<G>(tokens: seq<Token>, pos: nat, ds: seq<Derivation<G>>, t: ParseResult) {
    && |ds| >= 2 && (forall i :: 0 <= i < |ds| - 1 ==> ds[i].verdict.Yes?)
    && t.RepeatResult? && t.children == Trees(ds[..|ds| - 1]) && Covers(t.base, "", tokens, pos, t.children)
  }

  /** One match at least, and all that follow it. */
  ghost predicate RepeatRule<G>(inner: G, tokens: seq<Token>, pos: nat, ds: seq<Derivation<G>>, v: Verdict) {
    && TriedAgain(inner, ds, pos)
    && var last := ds[|ds| - 1];
       match last.verdict
       case No =>
         if |ds| == 1 then v == No else v.Yes? && v.end == last.pos && RowTree(tokens, pos, ds, v.tree)
       case Abort(_) => v == last.verdict
       case Yes(_, _) => false
  }

  /** As many matches as there are, none included. */
  ghost predicate StarRule<G>(inner: G, tokens: seq<Token>, pos: nat, ds: seq<Derivation<G>>, v: Verdict) {
    && TriedAgain(inner, ds, pos)
    && var last := ds[|ds| - 1];
       match last.verdict
       case No =>
         && v.Yes? && v.end == last.pos && v.tree.OptionalResult?
         && if |ds| == 1 then v.tree == OptionalResult(Base("", None, None), None)
            else
              && v.tree.inner.Some? && RowTree(tokens, pos, ds, v.tree.inner.value)
              && Covers(v.tree.base, "", tokens, pos, [v.tree.inner.value])
       case Abort(_) => v == last.verdict
       case Yes(_, _) => false
  }

  ghost predicate ShapeRule<G>(lexicon: Lexicon, tokens: seq<Token>, f: Form<G>, pos: nat, ds: seq<Derivation<G>>,
                               v: Verdict)
  {
    match f.shape
    case Leaf(leaf) => ds == [] && LeafRule(lexicon, leaf, f.name, tokens, pos, v)
    case InOrder(parts) => OrderRule(f.name, parts, tokens, pos, ds, v)
    case FirstOf(alternatives) => ChoiceRule(alternatives, tokens, pos, ds, v)
    case ZeroOrOne(inner) => OptionRule(inner, tokens, pos, ds, v)
    case OneOrMore(inner) => RepeatRule(inner, tokens, pos, ds, v)
    case ZeroOrMore(inner) => StarRule(inner, tokens, pos, ds, v)
    case Another(goal) => |ds| == 1 && Tried(ds[0], goal, pos) && v == ds[0].verdict
    case Meaningless => false
  }

  /** Every verdict of the derivation follows from those below it. */
  ghost predicate Checked<G(!new)>(forms: G -> Form<G>, lexicon: Lexicon, tokens: seq<Token>, d: Derivation<G>) {
    && (forall i :: 0 <= i < |d.below| ==> Checked(forms, lexicon, tokens, d.below[i]))
    && ShapeRule(lexicon, tokens, forms(d.goal), d.pos, d.below, d.found)
    && d.verdict == Called(d.found, forms(d.goal).rule)
  }

  // ----- the furthest token -----

  /** The furthest token anything in the derivation came to. */
  function Furthest<G>(d: Derivation<G>): nat
    decreases d, 0
  {
    Max(if d.found.Yes? then Max(d.pos, d.found.end) else d.pos, FurthestOf(d.below))
  }

  function FurthestOf<G>(ds: seq<Derivation<G>>): nat
    decreases ds, 1
  {
    if ds == [] then 0 else Max(Furthest(ds[0]), FurthestOf(ds[1..]))
  }

  lemma OneFurthest<G>(d: Derivation<G>)
    ensures FurthestOf([d]) == Furthest(d) >= d.pos
    ensures d.found.Yes? ==> Furthest(d) >= d.found.end
  {
    assert [d][1..] == [];
    assert FurthestOf<G>([]) == 0;
  }

  // ----- a goal has one derivation -----

  lemma CoversOnce(a: Base, b: Base, name: string, tokens: seq<Token>, pos: nat, trees: seq<ParseResult>)
    requires Covers(a, name, tokens, pos, trees) && Covers(b, name, tokens, pos, trees)
    ensures a == b
  {
  }

  /** Two derivations of one goal at one token are the same. */
  lemma {:induction false} OneDerivation<G(!new)>(forms: G -> Form<G>, lexicon: Lexicon, tokens: seq<Token>,
                                                  c: Derivation<G>, d: Derivation<G>)
    requires Checked(forms, lexicon, tokens, c) && Checked(forms, lexicon, tokens, d)
    requires c.goal == d.goal && c.pos == d.pos
    ensures c == d
    decreases c, 2
  {
    var f := forms(c.goal);
    SameBelow(forms, lexicon, tokens, c, d);
    if f.shape.Leaf? {
      LeafRuleIff(lexicon, f.shape.leaf, f.name, tokens, c.pos, c.found);
      LeafRuleIff(lexicon, f.shape.leaf, f.name, tokens, c.pos, d.found);
    } else {
      SameVerdict(lexicon, tokens, f, c, d);
    }
  }

  /** The premises are the same. */
  lemma {:induction false} SameBelow<G(!new)>(forms: G -> Form<G>, lexicon: Lexicon, tokens: seq<Token>,
                                              c: Derivation<G>, d: Derivation<G>)
    requires Checked(forms, lexicon, tokens, c) && Checked(forms, lexicon, tokens, d)
    requires c.goal == d.goal && c.pos == d.pos
    ensures c.below == d.below
    decreases c, 1
  {
    match forms(c.goal).shape
    case Leaf(_) =>
    case InOrder(parts) => SameInOrder(forms, lexicon, tokens, parts, c.below, d.below, c.pos);
    case FirstOf(alternatives) => SameInTurn(forms, lexicon, tokens, alternatives, c.below, d.below, c.pos);
    case ZeroOrOne(_) => OneDerivation(forms, lexicon, tokens, c.below[0], d.below[0]);
    case OneOrMore(inner) => SameAgain(forms, lexicon, tokens, inner, c.below, d.below, c.pos);
    case ZeroOrMore(inner) => SameAgain(forms, lexicon, tokens, inner, c.below, d.below, c.pos);
    case Another(_) => OneDerivation(forms, lexicon, tokens, c.below[0], d.below[0]);
    case Meaningless =>
  }

  /** The premises decide the verdict, tree and place included. */
  lemma SameVerdict<G(!new)>(lexicon: Lexicon, tokens: seq<Token>, f: Form<G>, c: Derivation<G>, d: Derivation<G>)
    requires !f.shape.Leaf? && c.below == d.below && c.pos == d.pos
    requires ShapeRule(lexicon, tokens, f, c.pos, c.below, c.found)
    requires ShapeRule(lexicon, tokens, f, d.pos, d.below, d.found)
    ensures c.found == d.found
  {
    if c.found.Yes? && d.found.Yes? {
      var s, t := c.found.tree, d.found.tree;
      match f.shape
      case InOrder(_) => CoversOnce(s.base, t.base, f.name, tokens, c.pos, Trees(c.below));
      case FirstOf(_) => CoversOnce(s.base, t.base, s.chosen.base.name, tokens, c.pos, [s.chosen]);
      case ZeroOrOne(_) =>
        if s.inner.Some? {
          CoversOnce(s.base, t.base, s.inner.value.base.name, tokens, c.pos, [s.inner.value]);
        }
      case OneOrMore(_) => CoversOnce(s.base, t.base, "", tokens, c.pos, s.children);
      case ZeroOrMore(_) =>
        if s.inner.Some? {
          CoversOnce(s.inner.value.base, t.inner.value.base, "", tokens, c.pos, s.inner.value.children);
          CoversOnce(s.base, t.base, "", tokens, c.pos, [s.inner.value]);
        }
      case Another(_) =>
      case Meaningless =>
    }
  }

  lemma {:induction false} SameInOrder<G(!new)>(forms: G -> Form<G>, lexicon: Lexicon, tokens: seq<Token>,
                                                parts: seq<G>, cs: seq<Derivation<G>>, ds: seq<Derivation<G>>, pos: nat)
    requires forall i :: 0 <= i < |cs| ==> Checked(forms, lexicon, tokens, cs[i])
    requires forall i :: 0 <= i < |ds| ==> Checked(forms, lexicon, tokens, ds[i])
    requires TriedInOrder(parts, cs, pos) && TriedInOrder(parts, ds, pos)
    ensures cs == ds
    decreases cs, 1
  {
    if parts != [] {
      OneDerivation(forms, lexicon, tokens, cs[0], ds[0]);
      if cs[0].verdict.Yes? {
        SameInOrder(forms, lexicon, tokens, parts[1..], cs[1..], ds[1..], cs[0].verdict.end);
      }
      assert cs == [cs[0]] + cs[1..] && ds == [ds[0]] + ds[1..];
    }
  }

  lemma {:induction false} SameInTurn<G(!new)>(forms: G -> Form<G>, lexicon: Lexicon, tokens: seq<Token>, parts: seq<G>,
                                               cs: seq<Derivation<G>>, ds: seq<Derivation<G>>, pos: nat)
    requires forall i :: 0 <= i < |cs| ==> Checked(forms, lexicon, tokens, cs[i])
    requires forall i :: 0 <= i < |ds| ==> Checked(forms, lexicon, tokens, ds[i])
    requires TriedInTurn(parts, cs, pos) && TriedInTurn(parts, ds, pos)
    ensures cs == ds
    decreases cs, 1
  {
    if parts != [] {
      OneDerivation(forms, lexicon, tokens, cs[0], ds[0]);
      if cs[0].verdict.No? {
        SameInTurn(forms, lexicon, tokens, parts[1..], cs[1..], ds[1..], pos);
      }
      assert cs == [cs[0]] + cs[1..] && ds == [ds[0]] + ds[1..];
    }
  }

  lemma {:induction false} SameAgain<G(!new)>(forms: G -> Form<G>, lexicon: Lexicon, tokens: seq<Token>, goal: G,
                                              cs: seq<Derivation<G>>, ds: seq<Derivation<G>>, pos: nat)
    requires forall i :: 0 <= i < |cs| ==> Checked(forms, lexicon, tokens, cs[i])
    requires forall i :: 0 <= i < |ds| ==> Checked(forms, lexicon, tokens, ds[i])
    requires TriedAgain(goal, cs, pos) && TriedAgain(goal, ds, pos)
    ensures cs == ds
    decreases cs, 1
  {
    OneDerivation(forms, lexicon, tokens, cs[0], ds[0]);
    if cs[0].verdict.Yes? {
      SameAgain(forms, lexicon, tokens, goal, cs[1..], ds[1..], cs[0].verdict.end);
    }
    assert cs == [cs[0]] + cs[1..] && ds == [ds[0]] + ds[1..];
  }

  // ----- what is judged -----

  /** The outcome of matching a goal at a token is what a derivation says: verdict, tree, end and
      furthest token. */
  ghost predicate Judged<G(!new)>(forms: G -> Form<G>, lexicon: Lexicon, tokens: seq<Token>, goal: G, pos: nat,
                                  o: Outcome) {
    exists d :: Checked(forms, lexicon, tokens, d) && Tried(d, goal, pos) && Tells(d, o)
  }

  predicate Tells<G>(d: Derivation<G>, o: Outcome) {
    match o
    case Matched(r, p, q) => d.verdict == Yes(p, r) && q == Furthest(d)
    case Failed(q) => d.verdict == No && q == Furthest(d)
    case Aborted(msg) => d.verdict == Abort(msg)
  }

  /** A goal at a token is judged in one way. */
  lemma JudgedOnce<G(!new)>(forms: G -> Form<G>, lexicon: Lexicon, tokens: seq<Token>, goal: G, pos: nat, o: Outcome,
                            o': Outcome)
    requires Judged(forms, lexicon, tokens, goal, pos, o) && Judged(forms, lexicon, tokens, goal, pos, o')
    ensures o == o'
  {
    var c :| Checked(forms, lexicon, tokens, c) && Tried(c, goal, pos) && Tells(c, o);
    var d :| Checked(forms, lexicon, tokens, d) && Tried(d, goal, pos) && Tells(d, o');
    OneDerivation(forms, lexicon, tokens, c, d);
  }

  // ----- the rules look at verdicts, not at goals -----

  /** Derivations of other goals with the same verdicts at the same places. */
  predicate SameTrail<G, H>(ds: seq<Derivation<G>>, ts: seq<Derivation<H>>) {
    && |ds| == |ts|
    && forall i :: 0 <= i < |ds| ==> SameSaid(ds[i], ts[i])
  }

  predicate SameSaid<G, H>(d: Derivation<G>, t: Derivation<H>) {
    t.pos == d.pos && t.verdict == d.verdict && Furthest(t) == Furthest(d)
  }

  lemma {:induction false} SameFurthest<G, H>(ds: seq<Derivation<G>>, ts: seq<Derivation<H>>)
    requires SameTrail(ds, ts)
    ensures FurthestOf(ds) == FurthestOf(ts)
  {
    if ds != [] {
      assert SameSaid(ds[0], ts[0]);
      forall i | 0 <= i < |ds[1..]|
        ensures SameSaid(ds[1..][i], ts[1..][i])
      {
        assert SameSaid(ds[i + 1], ts[i + 1]);
      }
      SameFurthest(ds[1..], ts[1..]);
    }
  }

  ghost predicate GoalsAre<G>(ds: seq<Derivation<G>>, goals: seq<G>) {
    |ds| <= |goals| && forall i :: 0 <= i < |ds| ==> ds[i].goal == goals[i]
  }

  lemma {:induction false} OrderGoals<G>(parts: seq<G>, ds: seq<Derivation<G>>, pos: nat)
    requires TriedInOrder(parts, ds, pos)
    ensures GoalsAre(ds, parts)
    decreases |parts|
  {
    if parts != [] && ds[0].verdict.Yes? {
      OrderGoals(parts[1..], ds[1..], ds[0].verdict.end);
      assert forall i :: 1 <= i < |ds| ==> ds[i] == ds[1..][i - 1];
    }
  }

  lemma {:induction false} TurnGoals<G>(parts: seq<G>, ds: seq<Derivation<G>>, pos: nat)
    requires TriedInTurn(parts, ds, pos)
    ensures GoalsAre(ds, parts)
    decreases |parts|
  {
    if parts != [] && ds[0].verdict.No? {
      TurnGoals(parts[1..], ds[1..], pos);
      assert forall i :: 1 <= i < |ds| ==> ds[i] == ds[1..][i - 1];
    }
  }

  lemma {:induction false} AgainGoals<G>(goal: G, ds: seq<Derivation<G>>, pos: nat)
    requires TriedAgain(goal, ds, pos)
    ensures forall i :: 0 <= i < |ds| ==> ds[i].goal == goal
    decreases |ds|
  {
    if ds[0].verdict.Yes? {
      AgainGoals(goal, ds[1..], ds[0].verdict.end);
      assert forall i :: 1 <= i < |ds| ==> ds[i] == ds[1..][i - 1];
    }
  }

  lemma {:induction false} OrderMoves<G, H>(parts: seq<G>, goals: seq<H>, ds: seq<Derivation<G>>,
                                            ts: seq<Derivation<H>>, pos: nat)
    requires TriedInOrder(parts, ds, pos) && SameTrail(ds, ts) && |goals| == |parts| && GoalsAre(ts, goals)
    ensures TriedInOrder(goals, ts, pos)
    decreases |parts|
  {
    if parts != [] {
      assert SameSaid(ds[0], ts[0]);
      if ds[0].verdict.Yes? {
        TailsSame(ds, ts);
        OrderMoves(parts[1..], goals[1..], ds[1..], ts[1..], ds[0].verdict.end);
      }
    }
  }

  lemma {:induction false} TurnMoves<G, H>(parts: seq<G>, goals: seq<H>, ds: seq<Derivation<G>>,
                                           ts: seq<Derivation<H>>, pos: nat)
    requires TriedInTurn(parts, ds, pos) && SameTrail(ds, ts) && |goals| == |parts| && GoalsAre(ts, goals)
    ensures TriedInTurn(goals, ts, pos)
    decreases |parts|
  {
    if parts != [] {
      assert SameSaid(ds[0], ts[0]);
      if ds[0].verdict.No? {
        TailsSame(ds, ts);
        TurnMoves(parts[1..], goals[1..], ds[1..], ts[1..], pos);
      }
    }
  }

  lemma {:induction false} AgainMoves<G, H>(inner: G, goal: H, ds: seq<Derivation<G>>, ts: seq<Derivation<H>>, pos: nat)
    requires TriedAgain(inner, ds, pos) && SameTrail(ds, ts) && forall i :: 0 <= i < |ts| ==> ts[i].goal == goal
    ensures TriedAgain(goal, ts, pos)
    decreases |ds|
  {
    assert SameSaid(ds[0], ts[0]);
    if ds[0].verdict.Yes? {
      TailsSame(ds, ts);
      AgainMoves(inner, goal, ds[1..], ts[1..], ds[0].verdict.end);
    }
  }

  lemma TailsSame<G, H>(ds: seq<Derivation<G>>, ts: seq<Derivation<H>>)
    requires SameTrail(ds, ts) && ds != []
    ensures SameTrail(ds[1..], ts[1..])
  {
    forall i | 0 <= i < |ds[1..]|
      ensures SameSaid(ds[1..][i], ts[1..][i])
    {
      assert SameSaid(ds[i + 1], ts[i + 1]);
    }
  }

  lemma SameTrees<G, H>(ds: seq<Derivation<G>>, ts: seq<Derivation<H>>, n: nat)
    requires SameTrail(ds, ts) && n <= |ds| && forall i :: 0 <= i < n ==> ds[i].verdict.Yes?
    ensures forall i :: 0 <= i < n ==> ts[i].verdict.Yes?
    ensures Trees(ts[..n]) == Trees(ds[..n])
  {
    assert forall i :: 0 <= i < n ==> SameSaid(ds[i], ts[i]);
  }

  lemma OrderRuleMoves<G, H>(name: string, parts: seq<G>, goals: seq<H>, tokens: seq<Token>, pos: nat,
                             ds: seq<Derivation<G>>, ts: seq<Derivation<H>>, v: Verdict)
    requires OrderRule(name, parts, tokens, pos, ds, v)
    requires SameTrail(ds, ts) && |goals| == |parts| && GoalsAre(ts, goals)
    ensures OrderRule(name, goals, tokens, pos, ts, v)
  {
    OrderMoves(parts, goals, ds, ts, pos);
    if ds != [] {
      assert SameSaid(ds[|ds| - 1], ts[|ts| - 1]);
    }
    if ds == [] || ds[|ds| - 1].verdict.Yes? {
      SameTrees(ds, ts, |ds|);
      assert ds[..|ds|] == ds && ts[..|ds|] == ts;
    }
  }

  lemma ChoiceRuleMoves<G, H>(parts: seq<G>, goals: seq<H>, tokens: seq<Token>, pos: nat,
                              ds: seq<Derivation<G>>, ts: seq<Derivation<H>>, v: Verdict)
    requires ChoiceRule(parts, tokens, pos, ds, v)
    requires SameTrail(ds, ts) && |goals| == |parts| && GoalsAre(ts, goals)
    ensures ChoiceRule(goals, tokens, pos, ts, v)
  {
    TurnMoves(parts, goals, ds, ts, pos);
    if ds != [] {
      assert SameSaid(ds[|ds| - 1], ts[|ts| - 1]);
    }
  }

  lemma RowMoves<G, H>(tokens: seq<Token>, pos: nat, ds: seq<Derivation<G>>, ts: seq<Derivation<H>>, t: ParseResult)
    requires RowTree(tokens, pos, ds, t) && SameTrail(ds, ts)
    ensures RowTree(tokens, pos, ts, t)
  {
    SameTrees(ds, ts, |ds| - 1);
  }

  lemma RepeatRuleMoves<G, H>(inner: G, goal: H, tokens: seq<Token>, pos: nat,
                              ds: seq<Derivation<G>>, ts: seq<Derivation<H>>, v: Verdict)
    requires RepeatRule(inner, tokens, pos, ds, v)
    requires SameTrail(ds, ts) && forall i :: 0 <= i < |ts| ==> ts[i].goal == goal
    ensures RepeatRule(goal, tokens, pos, ts, v)
  {
    AgainMoves(inner, goal, ds, ts, pos);
    assert SameSaid(ds[|ds| - 1], ts[|ts| - 1]);
    if v.Yes? {
      RowMoves(tokens, pos, ds, ts, v.tree);
    }
  }
}
