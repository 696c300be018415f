/** The evidence that matching terminates does not take part in it: any two rankings of the same
    matchers give the same outcomes. */
module RankIndependence {
  import opened Tokens
  import opened ParseTree
  import opened SpecialMatchers
  import opened PegSemantics

  ghost predicate Both(e: Engine, w: Witness, v: Witness, id: nat) {
    WellRanked(e, w) && WellRanked(e, v) && id in w.live && id in v.live
  }

  lemma {:induction false} SameRun(e: Engine, w: Witness, v: Witness, tokens: seq<Token>, id: nat, pos: nat)
    requires Both(e, w, v, id)
    ensures Run(e, w, tokens, id, pos) == Run(e, v, tokens, id, pos)
    decreases Left(tokens, pos), w.rank[id], 2, 0
  {
    assert NodeRanked(e.nodes[id].body, id, w) && NodeRanked(e.nodes[id].body, id, v);
    match e.nodes[id].body
    case LeafOf(_) =>
    case ListOf(_) => SameChildren(e, w, v, tokens, id, 0, pos, pos);
    case ChoiceOf(_) => SameChoice(e, w, v, tokens, id, 0, pos);
    case OptionalOf(c) => SameRun(e, w, v, tokens, c, pos);
    case RepeatOf(_) => SameRepeat(e, w, v, tokens, id, pos);
  }

  lemma {:induction false} SameChildren(e: Engine, w: Witness, v: Witness, tokens: seq<Token>, id: nat, k: nat,
                                        start: nat, pos: nat)
    requires Both(e, w, v, id) && e.nodes[id].body.ListOf? && k <= |e.nodes[id].body.children|
    requires InRange(tokens, start, pos)
    requires pos == start ==>
      LeftNullable(e.nodes[id].body.children, k, w) && LeftNullable(e.nodes[id].body.children, k, v)
    ensures RunChildren(e, w, tokens, id, k, start, pos) == RunChildren(e, v, tokens, id, k, start, pos)
    decreases Left(tokens, start), w.rank[id], 0, |e.nodes[id].body.children| - k
  {
    var cs := e.nodes[id].body.children;
    if k < |cs| {
      assert NodeRanked(e.nodes[id].body, id, w) && NodeRanked(e.nodes[id].body, id, v);
      SameRun(e, w, v, tokens, cs[k], pos);
      var o := Run(e, w, tokens, cs[k], pos);
      ChildrenStep(e, w, tokens, id, k, start, pos, o);
      ChildrenStep(e, v, tokens, id, k, start, pos, o);
      if o.Matched? {
        SameChildren(e, w, v, tokens, id, k + 1, start, o.pos);
      }
    }
  }

  lemma {:induction false} SameChoice(e: Engine, w: Witness, v: Witness, tokens: seq<Token>, id: nat, k: nat, pos: nat)
    requires Both(e, w, v, id) && e.nodes[id].body.ChoiceOf? && k <= |e.nodes[id].body.children|
    ensures Choose(e, w, tokens, id, k, pos) == Choose(e, v, tokens, id, k, pos)
    decreases Left(tokens, pos), w.rank[id], 0, |e.nodes[id].body.children| - k
  {
    if k < |e.nodes[id].body.children| {
      assert NodeRanked(e.nodes[id].body, id, w) && NodeRanked(e.nodes[id].body, id, v);
      SameRun(e, w, v, tokens, e.nodes[id].body.children[k], pos);
      SameChoice(e, w, v, tokens, id, k + 1, pos);
    }
  }

  lemma {:induction false} SameRepeat(e: Engine, w: Witness, v: Witness, tokens: seq<Token>, id: nat, pos: nat)
    requires Both(e, w, v, id) && e.nodes[id].body.RepeatOf?
    ensures RunRepeat(e, w, tokens, id, pos) == RunRepeat(e, v, tokens, id, pos)
    decreases Left(tokens, pos), w.rank[id], 0, 0
  {
    assert NodeRanked(e.nodes[id].body, id, w) && NodeRanked(e.nodes[id].body, id, v);
    var c := e.nodes[id].body.element;
    SameRun(e, w, v, tokens, c, pos);
    match Run(e, w, tokens, c, pos)
    case Matched(_, p, _) => SameRepeat(e, w, v, tokens, id, p);
    case _ =>
  }
}
