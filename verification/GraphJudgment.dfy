/** A matcher graph under the judgment: what a run of it gives is what is derived of its matchers. */
module GraphJudgment {
  import opened Tokens
  import opened ParseTree
  import opened SpecialMatchers
  import opened LeafJudgment
  import opened PegJudgment
  import opened PegSemantics

  function ShapeOf(body: Body): Shape<nat> {
    match body
    case ListOf(children) => InOrder(children)
    case ChoiceOf(children) => FirstOf(children)
    case OptionalOf(child) => ZeroOrOne(child)
    case RepeatOf(element) => OneOrMore(element)
    case LeafOf(leaf) => Leaf(leaf)
  }

  function MatcherForm(e: Engine, id: nat): Form<nat> {
    if id < |e.nodes| then Form(e.nodes[id].meta.name, e.nodes[id].meta.rule, ShapeOf(e.nodes[id].body))
    else Form("", None, Meaningless)
  }

  /** The matchers of a graph as goals. */
  function Matchers(e: Engine): nat -> Form<nat> { (id: nat) => MatcherForm(e, id) }

  type Trail = seq<Derivation<nat>>

  ghost predicate AllChecked(e: Engine, tokens: seq<Token>, ds: Trail) {
    forall i :: 0 <= i < |ds| ==> Checked(Matchers(e), e.lexicon, tokens, ds[i])
  }

  // ----- places -----

  /** The place a node is given covers its trees. */
  lemma {:induction false} EnclosedCovers(b: Base, tokens: seq<Token>, pos: nat, trees: seq<ParseResult>)
    requires b == StartBase(b.name, tokens, pos)
    ensures Covers(EncloseAll(b, trees), b.name, tokens, pos, trees)
    decreases |trees|
  {
    if trees != [] {
      EnclosedCovers(b, tokens, pos, trees[..|trees| - 1]);
      CoversOneMore(EncloseAll(b, trees[..|trees| - 1]), b.name, tokens, pos, trees[..|trees| - 1], trees[|trees| - 1]);
      assert trees == trees[..|trees| - 1] + [trees[|trees| - 1]];
    }
  }

  lemma CoversOneMore(b: Base, name: string, tokens: seq<Token>, pos: nat, trees: seq<ParseResult>, t: ParseResult)
    requires Covers(b, name, tokens, pos, trees)
    ensures Covers(Enclose(b, t.base), name, tokens, pos, trees + [t])
  {
    var more, r := trees + [t], Enclose(b, t.base);
    assert more[|trees|] == t;
    assert forall i :: 0 <= i < |trees| ==> more[i] == trees[i];
    if b.offset.Some? {
      if t.base.offset.Some? {
        assert EndOf(r) == Max(EndOf(b), EndOf(t.base));
      }
      if b.length.Some? {
        var i :| 0 <= i < |trees| && trees[i].base.offset.Some?;
        assert more[i].base.offset.Some?;
      }
    }
  }

  lemma OneCovers(name: string, tokens: seq<Token>, pos: nat, t: ParseResult)
    ensures Covers(Enclose(StartBase(name, tokens, pos), t.base), name, tokens, pos, [t])
  {
    EnclosedCovers(StartBase(name, tokens, pos), tokens, pos, [t]);
    assert [t][..0] == [];
    assert EncloseAll(StartBase(name, tokens, pos), []) == StartBase(name, tokens, pos);
  }

  // ----- a run has a derivation -----

  /** A matcher's derivation, given what was tried below it. */
  lemma Concluded(e: Engine, tokens: seq<Token>, id: nat, pos: nat, below: Trail, o: Outcome)
    returns (d: Derivation<nat>)
    requires id < |e.nodes| && AllChecked(e, tokens, below)
    requires ShapeRule(e.lexicon, tokens, MatcherForm(e, id), pos, below, VerdictOf(o))
    requires o.Matched? ==> o.reach == Max(Max(pos, o.pos), FurthestOf(below))
    requires o.Failed? ==> o.reach == Max(pos, FurthestOf(below))
    ensures Checked(Matchers(e), e.lexicon, tokens, d) && Tried(d, id, pos)
    ensures Tells(d, WithRule(e.nodes[id].meta, o))
  {
    var found := VerdictOf(o);
    d := Derivation(id, pos, found, Called(found, e.nodes[id].meta.rule), below);
    assert Matchers(e)(id) == MatcherForm(e, id);
  }

  /** What a run of a matcher gives is derived of it. */
  lemma {:induction false} RunIsDerived(e: Engine, w: Witness, tokens: seq<Token>, id: nat, pos: nat)
    returns (d: Derivation<nat>)
    requires WellRanked(e, w) && id in w.live
    ensures Checked(Matchers(e), e.lexicon, tokens, d) && Tried(d, id, pos)
    ensures Tells(d, Run(e, w, tokens, id, pos))
    decreases Left(tokens, pos), w.rank[id], 2, 0
  {
    var m := e.nodes[id];
    assert NodeRanked(m.body, id, w);
    var o, below := RunBody(e, w, tokens, id, pos), [];
    match m.body {
    case LeafOf(leaf) => LeafIsDerived(e, leaf, m.meta.name, tokens, pos, o);
    case ListOf(cs) =>
      below := ChildrenAreDerived(e, w, tokens, id, 0, pos, pos);
      assert cs[0..] == cs;
      ListConcludes(m.meta.name, cs, tokens, pos, below, RunChildren(e, w, tokens, id, 0, pos, pos), o);
    case ChoiceOf(cs) =>
      below := ChoiceIsDerived(e, w, tokens, id, 0, pos);
      assert cs[0..] == cs;
      ChoiceConcludes(cs, tokens, pos, below, Choose(e, w, tokens, id, 0, pos), o);
    case OptionalOf(c) =>
      var one := RunIsDerived(e, w, tokens, c, pos);
      below := [one];
      OptionConcludes(c, tokens, pos, one, Run(e, w, tokens, c, pos), o);
    case RepeatOf(c) =>
      below := RepeatIsDerived(e, w, tokens, id, pos);
      RepeatConcludes(c, tokens, pos, below, RunRepeat(e, w, tokens, id, pos), o);
    }
    d := Concluded(e, tokens, id, pos, below, o);
  }

  lemma LeafIsDerived(e: Engine, leaf: Leaf, name: string, tokens: seq<Token>, pos: nat, o: Outcome)
    requires o == LeafMatch(e.lexicon, leaf, name, tokens, pos)
    ensures LeafRule(e.lexicon, leaf, name, tokens, pos, VerdictOf(o))
  {
    LeafRuleIff(e.lexicon, leaf, name, tokens, pos, VerdictOf(o));
  }

  // ----- lists -----

  /** The parts from one on, tried from `pos`, against the outcome of running them. */
  predicate TellsAll(ds: Trail, pos: nat, o: SeqOutcome) {
    match o
    case AllMatched(rs, p, q) =>
      && (forall i :: 0 <= i < |ds| ==> ds[i].verdict.Yes?)
      && rs == Trees(ds) && p == (if ds == [] then pos else ds[|ds| - 1].verdict.end) && q == Max(pos, FurthestOf(ds))
    case SomeFailed(q) => ds != [] && ds[|ds| - 1].verdict == No && q == Max(pos, FurthestOf(ds))
    case SeqAborted(msg) => ds != [] && ds[|ds| - 1].verdict == Abort(msg)
  }

  lemma {:induction false} ChildrenAreDerived(e: Engine, w: Witness, tokens: seq<Token>, id: nat, k: nat, start: nat,
                                              pos: nat)
    returns (ds: Trail)
    requires WellRanked(e, w) && id in w.live
    requires e.nodes[id].body.ListOf? && k <= |e.nodes[id].body.children|
    requires InRange(tokens, start, pos)
    requires pos == start ==> LeftNullable(e.nodes[id].body.children, k, w)
    ensures AllChecked(e, tokens, ds) && TriedInOrder(e.nodes[id].body.children[k..], ds, pos)
    ensures TellsAll(ds, pos, RunChildren(e, w, tokens, id, k, start, pos))
    decreases Left(tokens, start), w.rank[id], 0, |e.nodes[id].body.children| - k
  {
    var cs := e.nodes[id].body.children;
    ds := [];
    if k < |cs| {
      assert NodeRanked(e.nodes[id].body, id, w);
      var o := Run(e, w, tokens, cs[k], pos);
      var one := RunIsDerived(e, w, tokens, cs[k], pos);
      ChildrenStep(e, w, tokens, id, k, start, pos, o);
      var rest := [];
      if o.Matched? {
        rest := ChildrenAreDerived(e, w, tokens, id, k + 1, start, o.pos);
      }
      ds := [one] + rest;
      assert cs[k..][1..] == cs[k + 1..] && ds[1..] == rest;
      if o.Matched? {
        OneMoreTold(one, rest, pos, o, RunChildren(e, w, tokens, id, k + 1, start, o.pos));
      } else {
        OneFurthest(one);
      }
    }
  }

  lemma {:induction false} LastOf(d: Derivation<nat>, rest: Trail)
    ensures FurthestOf([d] + rest) == Max(Furthest(d), FurthestOf(rest))
    ensures rest != [] ==> ([d] + rest)[|rest|] == rest[|rest| - 1]
  {
    assert ([d] + rest)[1..] == rest;
  }

  lemma OneTreeMore(d: Derivation<nat>, rest: Trail)
    requires d.verdict.Yes? && forall i :: 0 <= i < |rest| ==> rest[i].verdict.Yes?
    ensures forall i :: 0 <= i < |[d] + rest| ==> ([d] + rest)[i].verdict.Yes?
    ensures Trees([d] + rest) == [d.verdict.tree] + Trees(rest)
  {
    var ds := [d] + rest;
    assert forall i :: 1 <= i < |ds| ==> ds[i] == rest[i - 1];
  }

  lemma OneMoreTold(d: Derivation<nat>, rest: Trail, pos: nat, o: Outcome, so: SeqOutcome)
    requires d.pos == pos && o.Matched? && Tells(d, o) && TellsAll(rest, o.pos, so) && pos <= o.pos <= o.reach
    ensures TellsAll([d] + rest, pos, Prepend([o.result], o.reach, so))
  {
    LastOf(d, rest);
    if so.AllMatched? {
      OneTreeMore(d, rest);
    }
    MoreReached(pos, o.pos, o.reach, FurthestOf(rest));
  }

  lemma MoreReached(pos: nat, mid: nat, reach: nat, further: nat)
    requires pos <= mid <= reach
    ensures Max(reach, Max(mid, further)) == Max(pos, Max(reach, further))
  {
  }

  lemma ListConcludes(name: string, cs: seq<nat>, tokens: seq<Token>, pos: nat, ds: Trail, so: SeqOutcome, o: Outcome)
    requires TriedInOrder(cs, ds, pos) && TellsAll(ds, pos, so) && o == ListOutcome(name, tokens, pos, so)
    requires so.AllMatched? ==> pos <= so.pos <= so.reach
    ensures OrderRule(name, cs, tokens, pos, ds, VerdictOf(o))
    ensures o.Matched? ==> o.reach == Max(Max(pos, o.pos), FurthestOf(ds))
    ensures o.Failed? ==> o.reach == Max(pos, FurthestOf(ds))
  {
    if so.AllMatched? {
      EnclosedCovers(StartBase(name, tokens, pos), tokens, pos, so.results);
    }
  }

  // ----- choices -----

  predicate TellsChoice(ds: Trail, from: nat, pos: nat, o: Choosing) {
    match o
    case Chosen(k, r, p, q) =>
      ds != [] && ds[|ds| - 1].verdict == Yes(p, r) && k == from + |ds| - 1 && q == Max(pos, FurthestOf(ds))
    case NoneChosen(q) => (ds == [] || ds[|ds| - 1].verdict == No) && q == Max(pos, FurthestOf(ds))
    case ChoiceAborted(msg) => ds != [] && ds[|ds| - 1].verdict == Abort(msg)
  }

  lemma {:induction false} ChoiceIsDerived(e: Engine, w: Witness, tokens: seq<Token>, id: nat, k: nat, pos: nat)
    returns (ds: Trail)
    requires WellRanked(e, w) && id in w.live
    requires e.nodes[id].body.ChoiceOf? && k <= |e.nodes[id].body.children|
    ensures AllChecked(e, tokens, ds) && TriedInTurn(e.nodes[id].body.children[k..], ds, pos)
    ensures TellsChoice(ds, k, pos, Choose(e, w, tokens, id, k, pos))
    decreases Left(tokens, pos), w.rank[id], 0, |e.nodes[id].body.children| - k
  {
    var cs := e.nodes[id].body.children;
    ds := [];
    if k < |cs| {
      assert NodeRanked(e.nodes[id].body, id, w);
      var o := Run(e, w, tokens, cs[k], pos);
      var one := RunIsDerived(e, w, tokens, cs[k], pos);
      var rest := [];
      if o.Failed? {
        rest := ChoiceIsDerived(e, w, tokens, id, k + 1, pos);
      }
      ds := [one] + rest;
      assert cs[k..][1..] == cs[k + 1..] && ds[1..] == rest;
      ChoiceTold(one, rest, k, pos, o, Choose(e, w, tokens, id, k + 1, pos));
    }
  }

  /** What the first alternative says, and when it fails what the others say. */
  function FirstChoice(k: nat, o: Outcome, further: Choosing): Choosing {
    match o
    case Matched(r, p, q) => Chosen(k, r, p, q)
    case Aborted(msg) => ChoiceAborted(msg)
    case Failed(q) => FurtherChoice(q, further)
  }

  lemma {:induction false} ChoiceTold(one: Derivation<nat>, rest: Trail, k: nat, pos: nat, o: Outcome,
                                      further: Choosing)
    requires Tells(one, o) && one.pos == pos && (o.Matched? ==> pos <= o.pos <= o.reach)
    requires if o.Failed? then TellsChoice(rest, k + 1, pos, further) else rest == []
    ensures TellsChoice([one] + rest, k, pos, FirstChoice(k, o, further))
  {
    LastOf(one, rest);
    OneFurthest(one);
    assert rest == [] ==> [one] + rest == [one];
  }

  lemma ChoiceConcludes(cs: seq<nat>, tokens: seq<Token>, pos: nat, ds: Trail, so: Choosing, o: Outcome)
    requires TriedInTurn(cs, ds, pos) && TellsChoice(ds, 0, pos, so) && o == ChoiceOutcome(tokens, pos, so)
    requires so.Chosen? ==> pos <= so.pos <= so.reach
    ensures ChoiceRule(cs, tokens, pos, ds, VerdictOf(o))
    ensures o.Matched? ==> o.reach == Max(Max(pos, o.pos), FurthestOf(ds))
    ensures o.Failed? ==> o.reach == Max(pos, FurthestOf(ds))
  {
    if so.Chosen? {
      OneCovers(so.result.base.name, tokens, pos, so.result);
    }
  }

  // ----- options -----

  lemma OptionConcludes(c: nat, tokens: seq<Token>, pos: nat, d: Derivation<nat>, oc: Outcome, o: Outcome)
    requires Tried(d, c, pos) && Tells(d, oc) && o == OptionalOutcome(tokens, pos, oc)
    requires oc.Matched? ==> pos <= oc.pos <= oc.reach
    ensures OptionRule(c, tokens, pos, [d], VerdictOf(o))
    ensures o.Matched? ==> o.reach == Max(Max(pos, o.pos), FurthestOf([d]))
    ensures !o.Failed?
  {
    OneFurthest(d);
    if oc.Matched? {
      OneCovers(oc.result.base.name, tokens, pos, oc.result);
    }
  }

  // ----- repeats -----

  predicate TellsRow(ds: Trail, pos: nat, o: SeqOutcome) {
    && ds != []
    && match o
       case AllMatched(rs, p, q) =>
         && (forall i :: 0 <= i < |ds| - 1 ==> ds[i].verdict.Yes?) && ds[|ds| - 1].verdict == No
         && rs == Trees(ds[..|ds| - 1]) && p == ds[|ds| - 1].pos && q == Max(pos, FurthestOf(ds))
       case SomeFailed(_) => false
       case SeqAborted(msg) => ds[|ds| - 1].verdict == Abort(msg)
  }

  lemma {:induction false} RepeatIsDerived(e: Engine, w: Witness, tokens: seq<Token>, id: nat, pos: nat)
    returns (ds: Trail)
    requires WellRanked(e, w) && id in w.live && e.nodes[id].body.RepeatOf?
    ensures AllChecked(e, tokens, ds) && TriedAgain(e.nodes[id].body.element, ds, pos)
    ensures TellsRow(ds, pos, RunRepeat(e, w, tokens, id, pos))
    decreases Left(tokens, pos), w.rank[id], 0, 0
  {
    assert NodeRanked(e.nodes[id].body, id, w);
    var c := e.nodes[id].body.element;
    var o := Run(e, w, tokens, c, pos);
    var one := RunIsDerived(e, w, tokens, c, pos);
    var rest := [];
    if o.Matched? {
      rest := RepeatIsDerived(e, w, tokens, id, o.pos);
    }
    ds := [one] + rest;
    assert ds[1..] == rest;
    if o.Matched? {
      OneMoreInRow(one, rest, pos, o, RunRepeat(e, w, tokens, id, o.pos));
    } else {
      OneFurthest(one);
      assert ds[..0] == [];
    }
  }

  lemma OneMoreInRow(d: Derivation<nat>, rest: Trail, pos: nat, o: Outcome, so: SeqOutcome)
    requires d.pos == pos && o.Matched? && Tells(d, o) && TellsRow(rest, o.pos, so) && pos <= o.pos <= o.reach
    ensures TellsRow([d] + rest, pos, Prepend([o.result], o.reach, so))
  {
    var ds := [d] + rest;
    LastOf(d, rest);
    if so.AllMatched? {
      var front := rest[..|rest| - 1];
      assert ds[..|ds| - 1] == [d] + front;
      assert forall i :: 0 <= i < |front| ==> front[i] == rest[i];
      OneTreeMore(d, front);
      assert forall i :: 0 <= i < |ds| - 1 ==> ds[i] == ([d] + front)[i];
    }
    MoreReached(pos, o.pos, o.reach, FurthestOf(rest));
  }

  lemma RepeatConcludes(c: nat, tokens: seq<Token>, pos: nat, ds: Trail, so: SeqOutcome, o: Outcome)
    requires TriedAgain(c, ds, pos) && TellsRow(ds, pos, so) && o == RepeatOutcome(tokens, pos, so)
    requires so.AllMatched? ==> pos <= so.pos <= so.reach
    ensures RepeatRule(c, tokens, pos, ds, VerdictOf(o))
    ensures o.Matched? ==> o.reach == Max(Max(pos, o.pos), FurthestOf(ds))
    ensures o.Failed? ==> o.reach == Max(pos, FurthestOf(ds))
  {
    if so.AllMatched? {
      EnclosedCovers(StartBase("", tokens, pos), tokens, pos, so.results);
    }
  }

  /** Every run of a matcher is judged, and in one way. */
  lemma RunIsJudged(e: Engine, w: Witness, tokens: seq<Token>, id: nat, pos: nat)
    requires WellRanked(e, w) && id in w.live
    ensures Judged(Matchers(e), e.lexicon, tokens, id, pos, Run(e, w, tokens, id, pos))
    ensures forall o :: Judged(Matchers(e), e.lexicon, tokens, id, pos, o) ==> o == Run(e, w, tokens, id, pos)
  {
    var d := RunIsDerived(e, w, tokens, id, pos);
    forall o | Judged(Matchers(e), e.lexicon, tokens, id, pos, o)
      ensures o == Run(e, w, tokens, id, pos)
    {
      JudgedOnce(Matchers(e), e.lexicon, tokens, id, pos, o, Run(e, w, tokens, id, pos));
    }
  }

  /** An optional matcher never fails: it ends where its child ends, or stays where it stood. */
  lemma OptionalNeverFails(e: Engine, w: Witness, tokens: seq<Token>, id: nat, pos: nat)
    requires WellRanked(e, w) && id in w.live && e.nodes[id].body.OptionalOf?
    ensures
      var c := e.nodes[id].body.child;
      && c in w.live
      && var o, inner := Run(e, w, tokens, id, pos), Run(e, w, tokens, c, pos);
      && !o.Failed?
      && (inner.Failed? ==> o.Matched? && o.pos == pos)
      && (inner.Matched? ==> o.Matched? && o.pos == inner.pos)
      && (inner.Aborted? ==> o == inner)
  {
    assert NodeRanked(e.nodes[id].body, id, w);
  }
}
