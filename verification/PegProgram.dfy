/** PEG semantics of a grammar, independent of how it is compiled: rules are names, macros are
    already substituted, and `e*` is an optional one-or-more. */
module PegProgram {
  import opened Tokens
  import opened ParseTree
  import opened SpecialMatchers
  import opened PegSemantics

  /** A desugared expression.  Seq carries the name under which its list node is reported: the
      rule's for a rule or macro body, none for a group. */
  datatype Core =
    | Lit(text: string)
    | Ref(rule: string)
    | Seq(meta: Meta, parts: seq<Core>)
    | Alt(parts: seq<Core>)
    | Opt(inner: Core)
    | Plus(inner: Core)

  const ANONYMOUS := Meta("", None, false)

  datatype Definition = Builtin(meta: Meta, leaf: Leaf) | Defined(body: Core)

  type Program = map<string, Definition>

  /** Evidence of termination at rule level. */
  datatype RuleWitness = RuleWitness(rank: map<string, nat>, nullable: map<string, bool>)

  ghost function CoreNullable(rw: RuleWitness, c: Core): bool
    decreases c, 0
  {
    match c
    case Lit(_) => false
    case Ref(r) => r in rw.nullable && rw.nullable[r]
    case Seq(_, parts) => AllNullable(rw, parts)
    case Alt(parts) => SomeNullable(rw, parts)
    case Opt(_) => true
    case Plus(inner) => CoreNullable(rw, inner)
  }

  ghost function AllNullable(rw: RuleWitness, parts: seq<Core>): bool
    decreases parts, 1
  {
    parts == [] || (CoreNullable(rw, parts[0]) && AllNullable(rw, parts[1..]))
  }

  ghost function SomeNullable(rw: RuleWitness, parts: seq<Core>): bool
    decreases parts, 1
  {
    parts != [] && (CoreNullable(rw, parts[0]) || SomeNullable(rw, parts[1..]))
  }

  /** A bound on the rules an expression may enter before it consumes a token. */
  ghost function CoreRank(rw: RuleWitness, c: Core): nat
    decreases c, 0
  {
    match c
    case Lit(_) => 0
    case Ref(r) => if r in rw.rank then rw.rank[r] else 0
    case Seq(_, parts) => 1 + LeftRank(rw, parts)
    case Alt(parts) => 1 + WidestRank(rw, parts)
    case Opt(inner) => 1 + CoreRank(rw, inner)
    case Plus(inner) => 1 + CoreRank(rw, inner)
  }

  ghost function LeftRank(rw: RuleWitness, parts: seq<Core>): nat
    decreases parts, 1
  {
    if parts == [] then 0
    else Max(CoreRank(rw, parts[0]), if CoreNullable(rw, parts[0]) then LeftRank(rw, parts[1..]) else 0)
  }

  ghost function WidestRank(rw: RuleWitness, parts: seq<Core>): nat
    decreases parts, 1
  {
    if parts == [] then 0 else Max(CoreRank(rw, parts[0]), WidestRank(rw, parts[1..]))
  }

  /** Every rule named is defined and no repeat body can match nothing. */
  ghost predicate CoreOk(p: Program, rw: RuleWitness, c: Core) {
    match c
    case Lit(_) => true
    case Ref(r) => r in p
    case Seq(_, parts) => forall i :: 0 <= i < |parts| ==> CoreOk(p, rw, parts[i])
    case Alt(parts) => forall i :: 0 <= i < |parts| ==> CoreOk(p, rw, parts[i])
    case Opt(inner) => CoreOk(p, rw, inner)
    case Plus(inner) => CoreOk(p, rw, inner) && !CoreNullable(rw, inner)
  }

  ghost predicate RuleOk(p: Program, rw: RuleWitness, r: string)
    requires r in p
  {
    r in rw.rank && r in rw.nullable &&
    match p[r]
    case Builtin(_, _) => true
    case Defined(body) =>
      body.Seq? && CoreOk(p, rw, body) && CoreRank(rw, body) <= rw.rank[r]
      && (CoreNullable(rw, body) ==> rw.nullable[r])
  }

  /** No left recursion (the rule ranks prove it), no nullable repeat body, no missing rule. */
  ghost predicate ProgramRanked(p: Program, rw: RuleWitness) {
    forall r :: r in p ==> RuleOk(p, rw, r)
  }

  lemma {:induction false} LeftRankBounds(rw: RuleWitness, parts: seq<Core>, k: nat)
    requires k < |parts|
    requires forall j :: 0 <= j < k ==> CoreNullable(rw, parts[j])
    ensures CoreRank(rw, parts[k]) <= LeftRank(rw, parts)
  {
    if k > 0 {
      forall j | 0 <= j < k - 1
        ensures CoreNullable(rw, parts[1..][j])
      {
        assert CoreNullable(rw, parts[j + 1]);
      }
      LeftRankBounds(rw, parts[1..], k - 1);
    }
  }

  lemma {:induction false} AllNullableIff(rw: RuleWitness, parts: seq<Core>)
    ensures AllNullable(rw, parts) <==> forall j :: 0 <= j < |parts| ==> CoreNullable(rw, parts[j])
  {
    if parts != [] {
      AllNullableIff(rw, parts[1..]);
      assert forall j :: 1 <= j < |parts| ==> parts[j] == parts[1..][j - 1];
      if forall j :: 0 <= j < |parts| ==> CoreNullable(rw, parts[j]) {
        assert forall j :: 0 <= j < |parts| - 1 ==> parts[1..][j] == parts[j + 1];
      }
    }
  }

  lemma {:induction false} WidestRankBounds(rw: RuleWitness, parts: seq<Core>, k: nat)
    requires k < |parts|
    ensures CoreRank(rw, parts[k]) <= WidestRank(rw, parts)
    ensures CoreNullable(rw, parts[k]) ==> SomeNullable(rw, parts)
  {
    if k > 0 {
      WidestRankBounds(rw, parts[1..], k - 1);
    }
  }

  /** What expression c does at token pos. */
  ghost function Eval(p: Program, rw: RuleWitness, lexicon: Lexicon, tokens: seq<Token>, c: Core,
                      pos: nat): (o: Outcome)
    requires ProgramRanked(p, rw) && CoreOk(p, rw, c)
    ensures o.Matched? ==>
      InRange(tokens, pos, o.pos) && InRange(tokens, o.pos, o.reach) && (!CoreNullable(rw, c) ==> pos < o.pos)
    ensures o.Failed? ==> InRange(tokens, pos, o.reach)
    decreases Left(tokens, pos), CoreRank(rw, c), if c.Ref? then 3 else 1, 0
  {
    match c
    case Lit(text) => LeafMatch(lexicon, KeywordLeaf(text), "", tokens, pos)
    case Ref(r) => EvalRule(p, rw, lexicon, tokens, r, pos)
    case Seq(_, _) => EvalSeq(p, rw, lexicon, tokens, c, pos)
    case Alt(_) => ChoiceOutcome(tokens, pos, EvalAlternatives(p, rw, lexicon, tokens, c, 0, pos))
    case Opt(inner) => OptionalOutcome(tokens, pos, Eval(p, rw, lexicon, tokens, inner, pos))
    case Plus(_) => EvalRepeat(p, rw, lexicon, tokens, c, pos)
  }

  ghost function EvalSeq(p: Program, rw: RuleWitness, lexicon: Lexicon, tokens: seq<Token>, c: Core,
                         pos: nat): (o: Outcome)
    requires ProgramRanked(p, rw) && CoreOk(p, rw, c) && c.Seq?
    ensures o.Matched? ==>
      InRange(tokens, pos, o.pos) && InRange(tokens, o.pos, o.reach) && (!CoreNullable(rw, c) ==> pos < o.pos)
    ensures o.Failed? ==> InRange(tokens, pos, o.reach)
    decreases Left(tokens, pos), CoreRank(rw, c), 0, |c.parts| + 1
  {
    AllNullableIff(rw, c.parts);
    WithRule(c.meta, ListOutcome(c.meta.name, tokens, pos, EvalParts(p, rw, lexicon, tokens, c, 0, pos, pos)))
  }

  ghost function EvalRule(p: Program, rw: RuleWitness, lexicon: Lexicon, tokens: seq<Token>, r: string,
                          pos: nat): (o: Outcome)
    requires ProgramRanked(p, rw) && r in p
    ensures o.Matched? ==>
      InRange(tokens, pos, o.pos) && InRange(tokens, o.pos, o.reach) && (!CoreNullable(rw, Ref(r)) ==> pos < o.pos)
    ensures o.Failed? ==> InRange(tokens, pos, o.reach)
    decreases Left(tokens, pos), CoreRank(rw, Ref(r)), 2, 0
  {
    assert RuleOk(p, rw, r);
    match p[r]
    case Builtin(meta, leaf) => WithRule(meta, LeafMatch(lexicon, leaf, meta.name, tokens, pos))
    case Defined(body) => Eval(p, rw, lexicon, tokens, body, pos)
  }

  ghost predicate PartsNullable(rw: RuleWitness, parts: seq<Core>, k: nat)
    requires k <= |parts|
  {
    forall j :: 0 <= j < k ==> CoreNullable(rw, parts[j])
  }

  ghost function EvalParts(p: Program, rw: RuleWitness, lexicon: Lexicon, tokens: seq<Token>,
                           c: Core, k: nat, start: nat, pos: nat): (o: SeqOutcome)
    requires ProgramRanked(p, rw) && CoreOk(p, rw, c) && c.Seq? && k <= |c.parts|
    requires InRange(tokens, start, pos)
    requires pos == start ==> PartsNullable(rw, c.parts, k)
    ensures o.AllMatched? ==>
      InRange(tokens, pos, o.pos) && InRange(tokens, o.pos, o.reach)
      && (o.pos == start ==> PartsNullable(rw, c.parts, |c.parts|))
    ensures o.SomeFailed? ==> InRange(tokens, pos, o.reach)
    decreases Left(tokens, start), CoreRank(rw, c), 0, |c.parts| - k
  {
    if k == |c.parts| then AllMatched([], pos, pos)
    else
      assert pos == start ==> CoreRank(rw, c.parts[k]) < CoreRank(rw, c) by {
        if pos == start {
          LeftRankBounds(rw, c.parts, k);
        }
      }
      match Eval(p, rw, lexicon, tokens, c.parts[k], pos)
      case Failed(q) => SomeFailed(q)
      case Aborted(msg) => SeqAborted(msg)
      case Matched(r, pos', q) => Prepend([r], q, EvalParts(p, rw, lexicon, tokens, c, k + 1, start, pos'))
  }

  ghost function EvalAlternatives(p: Program, rw: RuleWitness, lexicon: Lexicon, tokens: seq<Token>,
                                  c: Core, k: nat, pos: nat): (o: Choosing)
    requires ProgramRanked(p, rw) && CoreOk(p, rw, c) && c.Alt? && k <= |c.parts|
    ensures o.Chosen? ==>
      InRange(tokens, pos, o.pos) && InRange(tokens, o.pos, o.reach) && (!CoreNullable(rw, c) ==> pos < o.pos)
    ensures o.NoneChosen? ==> InRange(tokens, pos, o.reach)
    decreases Left(tokens, pos), CoreRank(rw, c), 0, |c.parts| - k
  {
    if k == |c.parts| then NoneChosen(pos)
    else
      WidestRankBounds(rw, c.parts, k);
      match Eval(p, rw, lexicon, tokens, c.parts[k], pos)
      case Matched(r, pos', q) => Chosen(k, r, pos', q)
      case Aborted(msg) => ChoiceAborted(msg)
      case Failed(q) => FurtherChoice(q, EvalAlternatives(p, rw, lexicon, tokens, c, k + 1, pos))
  }

  ghost function EvalRepeat(p: Program, rw: RuleWitness, lexicon: Lexicon, tokens: seq<Token>, c: Core,
                            pos: nat): (o: Outcome)
    requires ProgramRanked(p, rw) && CoreOk(p, rw, c) && c.Plus?
    ensures o.Matched? ==> InRange(tokens, pos, o.pos) && InRange(tokens, o.pos, o.reach) && pos < o.pos
    ensures o.Failed? ==> InRange(tokens, pos, o.reach)
    decreases Left(tokens, pos), CoreRank(rw, c), 0, 1
  {
    RepeatOutcome(tokens, pos, EvalPlus(p, rw, lexicon, tokens, c, pos))
  }

  ghost function EvalPlus(p: Program, rw: RuleWitness, lexicon: Lexicon, tokens: seq<Token>, c: Core,
                          pos: nat): (o: SeqOutcome)
    requires ProgramRanked(p, rw) && CoreOk(p, rw, c) && c.Plus?
    ensures !o.SomeFailed?
    ensures o.AllMatched? ==>
      InRange(tokens, pos, o.pos) && InRange(tokens, o.pos, o.reach) && (o.results != [] ==> pos < o.pos)
    decreases Left(tokens, pos), CoreRank(rw, c), 0, 0
  {
    match Eval(p, rw, lexicon, tokens, c.inner, pos)
    case Failed(q) => AllMatched([], pos, q)
    case Aborted(msg) => SeqAborted(msg)
    case Matched(r, pos', q) => Prepend([r], q, EvalPlus(p, rw, lexicon, tokens, c, pos'))
  }

  /** One part of a sequence, once its own outcome is known. */
  lemma PartsStep(p: Program, rw: RuleWitness, lexicon: Lexicon, tokens: seq<Token>, c: Core, k: nat, start: nat,
                  pos: nat, o: Outcome)
    requires ProgramRanked(p, rw) && CoreOk(p, rw, c) && c.Seq? && k < |c.parts|
    requires InRange(tokens, start, pos)
    requires pos == start ==> PartsNullable(rw, c.parts, k)
    requires o == Eval(p, rw, lexicon, tokens, c.parts[k], pos)
    ensures o.Failed? ==> EvalParts(p, rw, lexicon, tokens, c, k, start, pos) == SomeFailed(o.reach)
    ensures o.Aborted? ==> EvalParts(p, rw, lexicon, tokens, c, k, start, pos) == SeqAborted(o.msg)
    ensures o.Matched? ==>
      && InRange(tokens, start, o.pos) && (o.pos == start ==> PartsNullable(rw, c.parts, k + 1))
      && EvalParts(p, rw, lexicon, tokens, c, k, start, pos)
           == Prepend([o.result], o.reach, EvalParts(p, rw, lexicon, tokens, c, k + 1, start, o.pos))
  {
  }
}
