/** What matching means: the big-step behaviour of a compiled matcher graph, without state
    and without a cache (internal/matcher/matcher.go). */
module PegSemantics {
  import opened Tokens
  import opened ParseTree
  import opened SpecialMatchers

  datatype Meta = Meta(name: string, rule: Option<string>, memoized: bool)

  datatype Body =
    | ListOf(children: seq<nat>)
    | ChoiceOf(children: seq<nat>)
    | OptionalOf(child: nat)
    | RepeatOf(element: nat)
    | LeafOf(leaf: Leaf)

  /** One matcher object; children are referred to by packrat identity. */
  datatype Matcher = Matcher(id: nat, meta: Meta, body: Body)

  datatype Engine = Engine(nodes: seq<Matcher>, lexicon: Lexicon)

  /** Evidence that matching terminates: a rank that drops along every step that may be taken
      without consuming a token, an over-approximation of the matchers that may succeed
      without consuming one, and the matchers in use, closed under children. */
  datatype Witness = Witness(rank: seq<nat>, nullable: seq<bool>, live: set<nat>)

  ghost predicate LeftNullable(children: seq<nat>, k: nat, w: Witness)
    requires k <= |children|
  {
    forall j :: 0 <= j < k ==> children[j] < |w.nullable| && w.nullable[children[j]]
  }

  ghost predicate NodeRanked(body: Body, i: nat, w: Witness)
    requires i < |w.rank| == |w.nullable|
    requires forall j :: j in w.live ==> j < |w.rank|
  {
    match body
    case ListOf(cs) =>
      (forall j :: 0 <= j < |cs| ==> cs[j] in w.live && (LeftNullable(cs, j, w) ==> w.rank[cs[j]] < w.rank[i]))
      && (LeftNullable(cs, |cs|, w) ==> w.nullable[i])
    case ChoiceOf(cs) =>
      forall j :: 0 <= j < |cs| ==>
        cs[j] in w.live && w.rank[cs[j]] < w.rank[i] && (w.nullable[cs[j]] ==> w.nullable[i])
    case OptionalOf(c) => c in w.live && w.rank[c] < w.rank[i] && w.nullable[i]
    case RepeatOf(c) => c in w.live && w.rank[c] < w.rank[i] && !w.nullable[c]
    case LeafOf(_) => true
  }

  /** The matchers in use have no left recursion and no repeat body that can match nothing, and
      packrat identities are the allocation order. */
  ghost predicate WellRanked(e: Engine, w: Witness) {
    |w.rank| == |w.nullable| == |e.nodes|
    && (forall i :: i in w.live ==> i < |e.nodes|)
    && (forall i :: 0 <= i < |e.nodes| ==> e.nodes[i].id == i)
    && (forall i {:trigger NodeRanked(e.nodes[i].body, i, w)} :: i in w.live ==> NodeRanked(e.nodes[i].body, i, w))
  }

  /** Tokens still ahead of position pos. */
  function Left(tokens: seq<Token>, pos: nat): nat {
    if pos < |tokens| then |tokens| - pos else 0
  }

  datatype SeqOutcome =
    | AllMatched(results: seq<ParseResult>, pos: nat, reach: nat)
    | SomeFailed(reach: nat)
    | SeqAborted(msg: string)

  datatype Choosing =
    | Chosen(index: nat, result: ParseResult, pos: nat, reach: nat)
    | NoneChosen(reach: nat)
    | ChoiceAborted(msg: string)

  function StartBase(name: string, tokens: seq<Token>, pos: nat): Base {
    Base(name, if pos < |tokens| then Some(tokens[pos].span.start) else None, None)
  }

  function ListNode(name: string, tokens: seq<Token>, pos: nat, results: seq<ParseResult>): ParseResult {
    ListResult(EncloseAll(StartBase(name, tokens, pos), results), results)
  }

  function RepeatNode(tokens: seq<Token>, pos: nat, results: seq<ParseResult>): ParseResult {
    RepeatResult(EncloseAll(StartBase("", tokens, pos), results), results)
  }

  function ChoiceNode(tokens: seq<Token>, pos: nat, r: ParseResult, index: nat): ParseResult {
    ChoiceResult(Enclose(StartBase(r.base.name, tokens, pos), r.base), r, index)
  }

  function OptionalNode(tokens: seq<Token>, pos: nat, r: ParseResult): ParseResult {
    OptionalResult(Enclose(StartBase(r.base.name, tokens, pos), r.base), Some(r))
  }

  function WithRule(meta: Meta, o: Outcome): Outcome {
    if o.Matched? then o.(result := Named(o.result, meta.rule)) else o
  }

  // ----- what a composite reports, given what its parts did -----

  function ListOutcome(name: string, tokens: seq<Token>, pos: nat, o: SeqOutcome): Outcome {
    match o
    case AllMatched(rs, p, q) => Matched(ListNode(name, tokens, pos, rs), p, q)
    case SomeFailed(q) => Failed(q)
    case SeqAborted(msg) => Aborted(msg)
  }

  function ChoiceOutcome(tokens: seq<Token>, pos: nat, o: Choosing): Outcome {
    match o
    case Chosen(k, r, p, q) => Matched(ChoiceNode(tokens, pos, r, k), p, q)
    case NoneChosen(q) => Failed(q)
    case ChoiceAborted(msg) => Aborted(msg)
  }

  function OptionalOutcome(tokens: seq<Token>, pos: nat, o: Outcome): Outcome {
    match o
    case Matched(r, p, q) => Matched(OptionalNode(tokens, pos, r), p, q)
    case Failed(q) => Matched(OptionalResult(EMPTY_BASE, None), pos, q)
    case Aborted(_) => o
  }

  function RepeatOutcome(tokens: seq<Token>, pos: nat, o: SeqOutcome): Outcome {
    match o
    case AllMatched(rs, p, q) => if rs == [] then Failed(q) else Matched(RepeatNode(tokens, pos, rs), p, q)
    case SomeFailed(q) => Failed(q)
    case SeqAborted(msg) => Aborted(msg)
  }

  ghost predicate InRange(tokens: seq<Token>, from: nat, end: nat) {
    from <= end <= Max(from, |tokens|)
  }

  /** match (matcher.go:78-90) without the cache: run the matcher's body, then attach the rule
      name.  Total on every ranked graph. */
  ghost function Run(e: Engine, w: Witness, tokens: seq<Token>, id: nat, pos: nat): (o: Outcome)
    requires WellRanked(e, w) && id in w.live
    ensures o.Matched? ==>
      InRange(tokens, pos, o.pos) && InRange(tokens, o.pos, o.reach) && (!w.nullable[id] ==> pos < o.pos)
    ensures o.Failed? ==> InRange(tokens, pos, o.reach)
    decreases Left(tokens, pos), w.rank[id], 2, 0
  {
    WithRule(e.nodes[id].meta, RunBody(e, w, tokens, id, pos))
  }

  /** matchInternal of each matcher kind. */
  ghost function RunBody(e: Engine, w: Witness, tokens: seq<Token>, id: nat, pos: nat): (o: Outcome)
    requires WellRanked(e, w) && id in w.live
    ensures o.Matched? ==>
      InRange(tokens, pos, o.pos) && InRange(tokens, o.pos, o.reach) && (!w.nullable[id] ==> pos < o.pos)
    ensures o.Failed? ==> InRange(tokens, pos, o.reach)
    decreases Left(tokens, pos), w.rank[id], 1, 0
  {
    var m := e.nodes[id];
    assert NodeRanked(m.body, id, w);
    match m.body
    case LeafOf(leaf) => LeafMatch(e.lexicon, leaf, m.meta.name, tokens, pos)
    case ListOf(_) => ListOutcome(m.meta.name, tokens, pos, RunChildren(e, w, tokens, id, 0, pos, pos))
    case ChoiceOf(_) => ChoiceOutcome(tokens, pos, Choose(e, w, tokens, id, 0, pos))
    case OptionalOf(c) => OptionalOutcome(tokens, pos, Run(e, w, tokens, c, pos))
    case RepeatOf(_) => RepeatOutcome(tokens, pos, RunRepeat(e, w, tokens, id, pos))
  }

  /** Children k.. of list `id`, which started at `start` and has come to `pos`. */
  ghost function RunChildren(e: Engine, w: Witness, tokens: seq<Token>, id: nat, k: nat, start: nat,
                             pos: nat): (o: SeqOutcome)
    requires WellRanked(e, w) && id in w.live
    requires e.nodes[id].body.ListOf? && k <= |e.nodes[id].body.children|
    requires InRange(tokens, start, pos)
    requires pos == start ==> LeftNullable(e.nodes[id].body.children, k, w)
    ensures o.AllMatched? ==>
      InRange(tokens, pos, o.pos) && InRange(tokens, o.pos, o.reach)
      && (o.pos == start ==> LeftNullable(e.nodes[id].body.children, |e.nodes[id].body.children|, w))
    ensures o.SomeFailed? ==> InRange(tokens, pos, o.reach)
    decreases Left(tokens, start), w.rank[id], 0, |e.nodes[id].body.children| - k
  {
    var cs := e.nodes[id].body.children;
    if k == |cs| then AllMatched([], pos, pos)
    else
      assert NodeRanked(e.nodes[id].body, id, w);
      match Run(e, w, tokens, cs[k], pos)
      case Failed(q) => SomeFailed(q)
      case Aborted(msg) => SeqAborted(msg)
      case Matched(r, p, q) =>
        assert p == start ==> pos == start && w.nullable[cs[k]];
        assert p == start ==> LeftNullable(cs, k + 1, w);
        Prepend([r], q, RunChildren(e, w, tokens, id, k + 1, start, p))
  }

  function Prepend(rs: seq<ParseResult>, reach: nat, rest: SeqOutcome): SeqOutcome {
    match rest
    case AllMatched(more, p, q) => AllMatched(rs + more, p, Max(reach, q))
    case SomeFailed(q) => SomeFailed(Max(reach, q))
    case SeqAborted(_) => rest
  }

  /** Alternatives k.. of choice `id`, in order. */
  ghost function Choose(e: Engine, w: Witness, tokens: seq<Token>, id: nat, k: nat, pos: nat): (o: Choosing)
    requires WellRanked(e, w) && id in w.live
    requires e.nodes[id].body.ChoiceOf? && k <= |e.nodes[id].body.children|
    ensures o.Chosen? ==>
      InRange(tokens, pos, o.pos) && InRange(tokens, o.pos, o.reach) && (!w.nullable[id] ==> pos < o.pos)
      && k <= o.index < |e.nodes[id].body.children|
    ensures o.NoneChosen? ==> InRange(tokens, pos, o.reach)
    decreases Left(tokens, pos), w.rank[id], 0, |e.nodes[id].body.children| - k
  {
    var cs := e.nodes[id].body.children;
    if k == |cs| then NoneChosen(pos)
    else
      assert NodeRanked(e.nodes[id].body, id, w);
      match Run(e, w, tokens, cs[k], pos)
      case Matched(r, p, q) => Chosen(k, r, p, q)
      case Aborted(msg) => ChoiceAborted(msg)
      case Failed(q) => FurtherChoice(q, Choose(e, w, tokens, id, k + 1, pos))
  }

  function FurtherChoice(reach: nat, c: Choosing): Choosing {
    match c
    case Chosen(k, r, p, q) => Chosen(k, r, p, Max(reach, q))
    case NoneChosen(q) => NoneChosen(Max(reach, q))
    case ChoiceAborted(_) => c
  }

  /** Every match of repeat `id`'s element from pos on, until the first failure. */
  ghost function RunRepeat(e: Engine, w: Witness, tokens: seq<Token>, id: nat, pos: nat): (o: SeqOutcome)
    requires WellRanked(e, w) && id in w.live
    requires e.nodes[id].body.RepeatOf?
    ensures !o.SomeFailed?
    ensures o.AllMatched? ==>
      InRange(tokens, pos, o.pos) && InRange(tokens, o.pos, o.reach) && (o.results != [] ==> pos < o.pos)
    decreases Left(tokens, pos), w.rank[id], 0, 0
  {
    assert NodeRanked(e.nodes[id].body, id, w);
    match Run(e, w, tokens, e.nodes[id].body.element, pos)
    case Failed(q) => AllMatched([], pos, q)
    case Aborted(msg) => SeqAborted(msg)
    case Matched(r, p, q) => Prepend([r], q, RunRepeat(e, w, tokens, id, p))
  }

  /** One child of a list, once its own outcome is known. */
  lemma ChildrenStep(e: Engine, w: Witness, tokens: seq<Token>, id: nat, k: nat, start: nat, pos: nat, o: Outcome)
    requires WellRanked(e, w) && id in w.live && e.nodes[id].body.ListOf? && k < |e.nodes[id].body.children|
    requires InRange(tokens, start, pos)
    requires pos == start ==> LeftNullable(e.nodes[id].body.children, k, w)
    requires e.nodes[id].body.children[k] in w.live && o == Run(e, w, tokens, e.nodes[id].body.children[k], pos)
    ensures o.Failed? ==> RunChildren(e, w, tokens, id, k, start, pos) == SomeFailed(o.reach)
    ensures o.Aborted? ==> RunChildren(e, w, tokens, id, k, start, pos) == SeqAborted(o.msg)
    ensures o.Matched? ==>
      && InRange(tokens, start, o.pos) && (o.pos == start ==> LeftNullable(e.nodes[id].body.children, k + 1, w))
      && RunChildren(e, w, tokens, id, k, start, pos)
           == Prepend([o.result], o.reach, RunChildren(e, w, tokens, id, k + 1, start, o.pos))
  {
    assert NodeRanked(e.nodes[id].body, id, w);
  }
}
