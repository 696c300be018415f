/** AND and OR chains: one flat conjunction for each, through any depth of parentheses
    (parser/transform_expr.go:168-231). */
module Conjunctions {
  import opened SqlExpressions

  // ----- as written -----

  /** a OR b OR ...; a AND b AND ...; NOT NOT ... a; (condition) or anything else. */
  datatype Ors = Ors(first: Ands, tails: seq<Ands>)

  datatype Ands = Ands(first: Nots, tails: seq<Nots>)

  datatype Nots = Nots(nots: nat, inner: Primary)

  datatype Primary = Parens(cond: Ors) | Other(e: Expr)

  /** The meaning, two operands at a time from the left. */
  function OrsMeaning(w: World, env: Env, c: Ors, k: nat): Val
    requires k <= |c.tails|
    decreases c, k
  {
    if k == 0 then AndsMeaning(w, env, c.first, |c.first.tails|)
    else AnyOf([OrsMeaning(w, env, c, k - 1), AndsMeaning(w, env, c.tails[k - 1], |c.tails[k - 1].tails|)])
  }

  function AndsMeaning(w: World, env: Env, c: Ands, k: nat): Val
    requires k <= |c.tails|
    decreases c, k
  {
    if k == 0 then NotsMeaning(w, env, c.first)
    else AllOf([AndsMeaning(w, env, c, k - 1), NotsMeaning(w, env, c.tails[k - 1])])
  }

  function NotsMeaning(w: World, env: Env, c: Nots): Val
    decreases c
  {
    var inner := match c.inner
      case Parens(cond) => OrsMeaning(w, env, cond, |cond.tails|)
      case Other(e) => Eval(w, env, e);
    Denied(c.nots, inner)
  }

  function Denied(n: nat, v: Val): Val { if n == 0 then v else NotV(Denied(n - 1, v)) }

  // ----- as built -----

  /** appendConjunction. */
  function Spliced(kind: Kind, e: Expr): seq<Expr> {
    if e.Conjunction? && e.kind == kind then e.operands else [e]
  }

  function SplicedAll(kind: Kind, es: seq<Expr>): seq<Expr> {
    if es == [] then [] else SplicedAll(kind, es[..|es| - 1]) + Spliced(kind, es[|es| - 1])
  }

  /** transformConjunction, over its transformed operands. */
  function Conjoined(kind: Kind, es: seq<Expr>): Expr
    requires es != []
  {
    if |es| == 1 then es[0] else Conjunction(kind, SplicedAll(kind, es))
  }

  function FlatOrs(c: Ors): Expr
    decreases c, 1
  {
    Conjoined(Or, OrOperands(c))
  }

  function OrOperands(c: Ors): (es: seq<Expr>)
    ensures |es| == |c.tails| + 1 && es[0] == FlatAnds(c.first)
    ensures forall i :: 0 <= i < |c.tails| ==> es[i + 1] == FlatAnds(c.tails[i])
    decreases c, 0
  {
    [FlatAnds(c.first)] + seq(|c.tails|, i requires 0 <= i < |c.tails| => FlatAnds(c.tails[i]))
  }

  function FlatAnds(c: Ands): Expr
    decreases c, 1
  {
    Conjoined(And, AndOperands(c))
  }

  function AndOperands(c: Ands): (es: seq<Expr>)
    ensures |es| == |c.tails| + 1 && es[0] == FlatNots(c.first)
    ensures forall i :: 0 <= i < |c.tails| ==> es[i + 1] == FlatNots(c.tails[i])
    decreases c, 0
  {
    [FlatNots(c.first)] + seq(|c.tails|, i requires 0 <= i < |c.tails| => FlatNots(c.tails[i]))
  }

  function FlatNots(c: Nots): Expr
    decreases c, 1
  {
    NotTimes(c.nots, match c.inner
      case Parens(cond) => FlatOrs(cond)
      case Other(e) => e)
  }

  function NotTimes(n: nat, e: Expr): Expr { if n == 0 then e else Not(NotTimes(n - 1, e)) }

  method AppendConjunction(children: seq<Expr>, kind: Kind, e: Expr) returns (r: seq<Expr>)
    ensures r == children + Spliced(kind, e)
  {
    if e.Conjunction? && e.kind == kind {
      return children + e.operands;
    }
    return children + [e];
  }

  lemma SplicedFirst(kind: Kind, es: seq<Expr>)
    requires es != []
    ensures SplicedAll(kind, es[..1]) == [] + Spliced(kind, es[0])
  {
    assert es[..1] == [es[0]] && es[..1][..0] == [];
  }

  lemma SplicedGrows(kind: Kind, es: seq<Expr>, i: nat)
    requires i < |es|
    ensures SplicedAll(kind, es[..i + 1]) == SplicedAll(kind, es[..i]) + Spliced(kind, es[i])
  {
    assert es[..i + 1][..i] == es[..i];
  }

  lemma OrsBuilt(c: Ors, children: seq<Expr>)
    requires c.tails != [] && children == SplicedAll(Or, OrOperands(c)[..|c.tails| + 1])
    ensures Conjunction(Or, children) == FlatOrs(c)
  {
    var es := OrOperands(c);
    assert es[..|c.tails| + 1] == es;
  }

  method TransformOrs(c: Ors) returns (r: Expr)
    ensures r == FlatOrs(c)
    decreases c
  {
    var first := TransformAnds(c.first);
    if |c.tails| == 0 {
      return first;
    }
    ghost var es := OrOperands(c);
    var children := AppendConjunction([], Or, first);
    SplicedFirst(Or, es);
    for i := 0 to |c.tails|
      invariant children == SplicedAll(Or, es[..i + 1])
    {
      var next := TransformAnds(c.tails[i]);
      children := AppendConjunction(children, Or, next);
      SplicedGrows(Or, es, i + 1);
    }
    OrsBuilt(c, children);
    return Conjunction(Or, children);
  }

  lemma AndsBuilt(c: Ands, children: seq<Expr>)
    requires c.tails != [] && children == SplicedAll(And, AndOperands(c)[..|c.tails| + 1])
    ensures Conjunction(And, children) == FlatAnds(c)
  {
    var es := AndOperands(c);
    assert es[..|c.tails| + 1] == es;
  }

  method TransformAnds(c: Ands) returns (r: Expr)
    ensures r == FlatAnds(c)
    decreases c
  {
    var first := TransformNots(c.first);
    if |c.tails| == 0 {
      return first;
    }
    ghost var es := AndOperands(c);
    var children := AppendConjunction([], And, first);
    SplicedFirst(And, es);
    for i := 0 to |c.tails|
      invariant children == SplicedAll(And, es[..i + 1])
    {
      var next := TransformNots(c.tails[i]);
      children := AppendConjunction(children, And, next);
      SplicedGrows(And, es, i + 1);
    }
    AndsBuilt(c, children);
    return Conjunction(And, children);
  }

  method TransformNots(c: Nots) returns (r: Expr)
    ensures r == FlatNots(c)
    decreases c
  {
    match c.inner {
      case Parens(cond) => r := TransformOrs(cond);
      case Other(e) => r := e;
    }
    ghost var inner := r;
    for i := 0 to c.nots
      invariant r == NotTimes(i, inner)
    {
      r := Not(r);
    }
  }

  // ----- the flat form means the same -----

  /** A conjunction has two operands or more, none of them a conjunction of its own kind. */
  predicate FlatNode(e: Expr) {
    e.Conjunction? ==> |e.operands| >= 2 && forall i :: 0 <= i < |e.operands| ==> !IsKind(e.operands[i], e.kind)
  }

  predicate IsKind(e: Expr, kind: Kind) { e.Conjunction? && e.kind == kind }

  /** The same of a condition and of every operand it has. */
  predicate Flat(e: Expr)
    decreases e
  {
    FlatNode(e) && (e.Conjunction? ==> forall i :: 0 <= i < |e.operands| ==> Flat(e.operands[i]))
  }

  lemma QuantifiedJoin(all: bool, a: seq<Val>, b: seq<Val>)
    ensures Quantified(all, a + b) == Quantified(all, [Quantified(all, a), Quantified(all, b)])
  {
    var d := Bool(!all);
    assert d in a + b <==> d in a || d in b;
    QuantifiedBy(all, a);
    QuantifiedBy(all, b);
    QuantifiedBy(all, a + b);
    var parts := [Quantified(all, a), Quantified(all, b)];
    QuantifiedBy(all, parts);
    assert parts[0] in parts && parts[1] in parts;
    if forall i :: 0 <= i < |a + b| ==> (a + b)[i] == Bool(all) {
      assert forall i :: 0 <= i < |a| ==> a[i] == (a + b)[i];
      assert forall i :: 0 <= i < |b| ==> b[i] == (a + b)[|a| + i];
    }
  }

  lemma QuantifiedBy(all: bool, vs: seq<Val>)
    ensures Quantified(all, vs) == if Bool(!all) in vs then Bool(!all)
      else if forall i :: 0 <= i < |vs| ==> vs[i] == Bool(all) then Bool(all)
      else Null
  {
  }

  /** A truth value by itself, anything else unknown. */
  function AsTruth(v: Val): Val { if v.Bool? then v else Null }

  lemma QuantifiedOne(all: bool, v: Val)
    ensures Quantified(all, [v]) == AsTruth(v)
  {
    assert [v][0] == v;
  }

  lemma {:induction false} SplicedMeans(w: World, env: Env, kind: Kind, e: Expr)
    ensures Quantified(kind == And, EvalAll(w, env, Spliced(kind, e))) == AsTruth(Eval(w, env, e))
  {
    if !IsKind(e, kind) {
      assert EvalAll(w, env, [e]) == [Eval(w, env, e)];
      QuantifiedOne(kind == And, Eval(w, env, e));
    }
  }

  /** Splicing keeps the value of the whole. */
  lemma {:induction false} SplicedAllMeans(w: World, env: Env, kind: Kind, es: seq<Expr>)
    ensures Quantified(kind == And, EvalAll(w, env, SplicedAll(kind, es)))
      == Quantified(kind == And, EvalAll(w, env, es))
  {
    if es != [] {
      var n := |es| - 1;
      SplicedAllMeans(w, env, kind, es[..n]);
      SplicedLast(w, env, kind, SplicedAll(kind, es[..n]), es[..n], es[n]);
      assert es == es[..n] + [es[n]];
    }
  }

  /** One more operand spliced onto operands xs that have the value of `init`. */
  lemma SplicedLast(w: World, env: Env, kind: Kind, xs: seq<Expr>, init: seq<Expr>, e: Expr)
    requires Quantified(kind == And, EvalAll(w, env, xs)) == Quantified(kind == And, EvalAll(w, env, init))
    ensures Quantified(kind == And, EvalAll(w, env, xs + Spliced(kind, e)))
         == Quantified(kind == And, EvalAll(w, env, init + [e]))
  {
    SplicedMeans(w, env, kind, e);
    EvalAllJoin(w, env, xs, Spliced(kind, e));
    QuantifiedJoin(kind == And, EvalAll(w, env, xs), EvalAll(w, env, Spliced(kind, e)));
    EvalAllJoin(w, env, init, [e]);
    LastAsTruth(w, env, kind, init, e);
  }

  lemma EvalAllJoin(w: World, env: Env, a: seq<Expr>, b: seq<Expr>)
    ensures EvalAll(w, env, a + b) == EvalAll(w, env, a) + EvalAll(w, env, b)
  {
  }

  lemma LastAsTruth(w: World, env: Env, kind: Kind, init: seq<Expr>, e: Expr)
    ensures
      var q := Quantified(kind == And, EvalAll(w, env, init));
      Quantified(kind == And, EvalAll(w, env, init) + EvalAll(w, env, [e]))
        == Quantified(kind == And, [q, AsTruth(Eval(w, env, e))])
  {
    assert EvalAll(w, env, [e]) == [Eval(w, env, e)];
    QuantifiedJoin(kind == And, EvalAll(w, env, init), [Eval(w, env, e)]);
    QuantifiedOne(kind == And, Eval(w, env, e));
  }

  /** One more operand at the end. */
  lemma OneMoreOperand(all: bool, vs: seq<Val>, v: Val)
    ensures Quantified(all, vs + [v]) == Quantified(all, [Quantified(all, vs), v])
  {
    QuantifiedJoin(all, vs, [v]);
    QuantifiedOne(all, v);
    QuantifiedBy(all, [Quantified(all, vs), v]);
    QuantifiedBy(all, [Quantified(all, vs), AsTruth(v)]);
    assert [Quantified(all, vs), v][1] == v && [Quantified(all, vs), AsTruth(v)][1] == AsTruth(v);
    assert [Quantified(all, vs), v][0] == [Quantified(all, vs), AsTruth(v)][0] == Quantified(all, vs);
  }

  /** A chain read from the left is the chain read at once. */
  function FromLeft(all: bool, vs: seq<Val>): Val
    requires vs != []
  {
    if |vs| == 1 then vs[0] else Quantified(all, [FromLeft(all, vs[..|vs| - 1]), vs[|vs| - 1]])
  }

  lemma {:induction false} FromLeftAtOnce(all: bool, vs: seq<Val>)
    requires |vs| >= 2
    ensures FromLeft(all, vs) == Quantified(all, vs)
  {
    var n := |vs| - 1;
    if n == 1 {
      assert vs == [vs[0], vs[1]] && vs[..1] == [vs[0]];
    } else {
      FromLeftAtOnce(all, vs[..n]);
      OneMoreOperand(all, vs[..n], vs[n]);
      assert vs == vs[..n] + [vs[n]];
    }
  }

  lemma ConjoinedMeans(w: World, env: Env, kind: Kind, es: seq<Expr>)
    requires es != []
    ensures Eval(w, env, Conjoined(kind, es)) == FromLeft(kind == And, EvalAll(w, env, es))
  {
    if |es| > 1 {
      SplicedAllMeans(w, env, kind, es);
      FromLeftAtOnce(kind == And, EvalAll(w, env, es));
      ConjunctionMeans(w, env, kind, SplicedAll(kind, es));
    }
  }

  lemma ConjunctionMeans(w: World, env: Env, kind: Kind, xs: seq<Expr>)
    ensures Eval(w, env, Conjunction(kind, xs)) == Quantified(kind == And, EvalAll(w, env, xs))
  {
  }

  /** Under every assignment, the flat condition has the value of the nested one. */
  lemma {:induction false} FlatOrsMean(w: World, env: Env, c: Ors)
    ensures Eval(w, env, FlatOrs(c)) == OrsMeaning(w, env, c, |c.tails|)
    decreases c, 1
  {
    var es := OrOperands(c);
    OrOperandsMean(w, env, c);
    ConjoinedMeans(w, env, Or, es);
    OrsTogether(w, env, c, EvalAll(w, env, es));
  }

  /** The operands of an OR chain: their values, one by one. */
  ghost predicate OrValues(w: World, env: Env, c: Ors, vs: seq<Val>) {
    && |vs| == |c.tails| + 1
    && vs[0] == AndsMeaning(w, env, c.first, |c.first.tails|)
    && forall i :: 0 <= i < |c.tails| ==> vs[i + 1] == AndsMeaning(w, env, c.tails[i], |c.tails[i].tails|)
  }

  lemma {:induction false} OrOperandsMean(w: World, env: Env, c: Ors)
    ensures OrValues(w, env, c, EvalAll(w, env, OrOperands(c)))
    decreases c, 0
  {
    FlatAndsMean(w, env, c.first);
    forall i | 0 <= i < |c.tails|
      ensures Eval(w, env, OrOperands(c)[i + 1]) == AndsMeaning(w, env, c.tails[i], |c.tails[i].tails|)
    {
      FlatAndsMean(w, env, c.tails[i]);
    }
  }

  /** The chain's meaning is its operands' values taken together from the left. */
  lemma OrsTogether(w: World, env: Env, c: Ors, vs: seq<Val>)
    requires OrValues(w, env, c, vs)
    ensures OrsMeaning(w, env, c, |c.tails|) == FromLeft(false, vs)
  {
    OrsFromLeft(w, env, c, vs, |c.tails|);
    assert vs[..|c.tails| + 1] == vs;
  }

  lemma {:induction false} OrsFromLeft(w: World, env: Env, c: Ors, vs: seq<Val>, k: nat)
    requires k <= |c.tails| && OrValues(w, env, c, vs)
    ensures OrsMeaning(w, env, c, k) == FromLeft(false, vs[..k + 1])
  {
    if k > 0 {
      OrsFromLeft(w, env, c, vs, k - 1);
      assert vs[..k + 1][..k] == vs[..k];
    }
  }

  lemma {:induction false} FlatAndsMean(w: World, env: Env, c: Ands)
    ensures Eval(w, env, FlatAnds(c)) == AndsMeaning(w, env, c, |c.tails|)
    decreases c, 1
  {
    var es := AndOperands(c);
    AndOperandsMean(w, env, c);
    ConjoinedMeans(w, env, And, es);
    AndsTogether(w, env, c, EvalAll(w, env, es));
  }

  ghost predicate AndValues(w: World, env: Env, c: Ands, vs: seq<Val>) {
    && |vs| == |c.tails| + 1
    && vs[0] == NotsMeaning(w, env, c.first)
    && forall i :: 0 <= i < |c.tails| ==> vs[i + 1] == NotsMeaning(w, env, c.tails[i])
  }

  lemma {:induction false} AndOperandsMean(w: World, env: Env, c: Ands)
    ensures AndValues(w, env, c, EvalAll(w, env, AndOperands(c)))
    decreases c, 0
  {
    FlatNotsMean(w, env, c.first);
    forall i | 0 <= i < |c.tails|
      ensures Eval(w, env, AndOperands(c)[i + 1]) == NotsMeaning(w, env, c.tails[i])
    {
      FlatNotsMean(w, env, c.tails[i]);
    }
  }

  /** The chain's meaning is its operands' values taken together from the left. */
  lemma AndsTogether(w: World, env: Env, c: Ands, vs: seq<Val>)
    requires AndValues(w, env, c, vs)
    ensures AndsMeaning(w, env, c, |c.tails|) == FromLeft(true, vs)
  {
    AndsFromLeft(w, env, c, vs, |c.tails|);
    assert vs[..|c.tails| + 1] == vs;
  }

  lemma {:induction false} AndsFromLeft(w: World, env: Env, c: Ands, vs: seq<Val>, k: nat)
    requires k <= |c.tails| && AndValues(w, env, c, vs)
    ensures AndsMeaning(w, env, c, k) == FromLeft(true, vs[..k + 1])
  {
    if k > 0 {
      AndsFromLeft(w, env, c, vs, k - 1);
      assert vs[..k + 1][..k] == vs[..k];
    }
  }

  lemma {:induction false} FlatNotsMean(w: World, env: Env, c: Nots)
    ensures Eval(w, env, FlatNots(c)) == NotsMeaning(w, env, c)
    decreases c
  {
    match c.inner {
      case Parens(cond) =>
        FlatOrsMean(w, env, cond);
        NotTimesMeans(w, env, c.nots, FlatOrs(cond));
      case Other(e) => NotTimesMeans(w, env, c.nots, e);
    }
  }

  lemma {:induction false} NotTimesMeans(w: World, env: Env, n: nat, e: Expr)
    ensures Eval(w, env, NotTimes(n, e)) == Denied(n, Eval(w, env, e))
  {
    if n > 0 {
      NotTimesMeans(w, env, n - 1, e);
    }
  }

  // ----- nothing is dropped and nothing moved -----

  /** What stands between the ANDs, ORs and NOTs of an expression, from left to right. */
  function Atoms(e: Expr): seq<Expr>
    decreases e, 1
  {
    match e
    case Conjunction(_, operands) => AtomsOfAll(operands)
    case Not(x) => Atoms(x)
    case _ => [e]
  }

  function AtomsOfAll(es: seq<Expr>): seq<Expr>
    decreases es, 0
  {
    if es == [] then [] else Atoms(es[0]) + AtomsOfAll(es[1..])
  }

  /** The same of a condition as written. */
  function AtomsWritten(c: Ors): seq<Expr>
    decreases c, 1
  {
    AtomsOfAnds(c.first) + AtomsOfMoreAnds(c.tails)
  }

  function AtomsOfMoreAnds(cs: seq<Ands>): seq<Expr>
    decreases cs, 0
  {
    if cs == [] then [] else AtomsOfAnds(cs[0]) + AtomsOfMoreAnds(cs[1..])
  }

  function AtomsOfAnds(c: Ands): seq<Expr>
    decreases c, 1
  {
    AtomsOfNots(c.first) + AtomsOfMoreNots(c.tails)
  }

  function AtomsOfMoreNots(cs: seq<Nots>): seq<Expr>
    decreases cs, 0
  {
    if cs == [] then [] else AtomsOfNots(cs[0]) + AtomsOfMoreNots(cs[1..])
  }

  function AtomsOfNots(c: Nots): seq<Expr>
    decreases c, 0
  {
    match c.inner
    case Parens(cond) => AtomsWritten(cond)
    case Other(e) => Atoms(e)
  }

  lemma {:induction false} AtomsJoin(a: seq<Expr>, b: seq<Expr>)
    ensures AtomsOfAll(a + b) == AtomsOfAll(a) + AtomsOfAll(b)
    decreases |a|
  {
    if a == [] {
      assert a + b == b;
    } else {
      AtomsJoin(a[1..], b);
      assert (a + b)[1..] == a[1..] + b;
    }
  }

  lemma AtomsOne(e: Expr)
    ensures AtomsOfAll([e]) == Atoms(e)
  {
    assert [e][1..] == [];
  }

  lemma {:induction false} SplicedAtoms(kind: Kind, es: seq<Expr>)
    ensures AtomsOfAll(SplicedAll(kind, es)) == AtomsOfAll(es)
    decreases |es|
  {
    if es != [] {
      var n := |es| - 1;
      SplicedAtoms(kind, es[..n]);
      AtomsJoin(SplicedAll(kind, es[..n]), Spliced(kind, es[n]));
      AtomsOne(es[n]);
      assert es == es[..n] + [es[n]];
      AtomsJoin(es[..n], [es[n]]);
    }
  }

  lemma ConjoinedAtoms(kind: Kind, es: seq<Expr>)
    requires es != []
    ensures Atoms(Conjoined(kind, es)) == AtomsOfAll(es)
  {
    if |es| == 1 {
      assert es == [es[0]];
      AtomsOne(es[0]);
    } else {
      SplicedAtoms(kind, es);
    }
  }

  lemma {:induction false} NotAtoms(n: nat, e: Expr)
    ensures Atoms(NotTimes(n, e)) == Atoms(e)
  {
    if n > 0 {
      NotAtoms(n - 1, e);
    }
  }

  /** However deep the parentheses: the parts of a condition are those written, in their order. */
  lemma {:induction false} FlatOrsInOrder(c: Ors)
    ensures Atoms(FlatOrs(c)) == AtomsWritten(c)
    decreases c, 1
  {
    ConjoinedAtoms(Or, OrOperands(c));
    FlatAndsInOrder(c.first);
    MoreAndsInOrder(c.tails);
    assert OrOperands(c)[1..] == FlatAllAnds(c.tails);
  }

  function FlatAllAnds(cs: seq<Ands>): seq<Expr> {
    seq(|cs|, i requires 0 <= i < |cs| => FlatAnds(cs[i]))
  }

  lemma {:induction false} MoreAndsInOrder(cs: seq<Ands>)
    ensures AtomsOfAll(FlatAllAnds(cs)) == AtomsOfMoreAnds(cs)
    decreases cs, 0
  {
    if cs != [] {
      FlatAndsInOrder(cs[0]);
      MoreAndsInOrder(cs[1..]);
      assert FlatAllAnds(cs)[1..] == FlatAllAnds(cs[1..]);
    }
  }

  lemma {:induction false} FlatAndsInOrder(c: Ands)
    ensures Atoms(FlatAnds(c)) == AtomsOfAnds(c)
    decreases c, 1
  {
    ConjoinedAtoms(And, AndOperands(c));
    FlatNotsInOrder(c.first);
    MoreNotsInOrder(c.tails);
    assert AndOperands(c)[1..] == FlatAllNots(c.tails);
  }

  function FlatAllNots(cs: seq<Nots>): seq<Expr> {
    seq(|cs|, i requires 0 <= i < |cs| => FlatNots(cs[i]))
  }

  lemma {:induction false} MoreNotsInOrder(cs: seq<Nots>)
    ensures AtomsOfAll(FlatAllNots(cs)) == AtomsOfMoreNots(cs)
    decreases cs, 0
  {
    if cs != [] {
      FlatNotsInOrder(cs[0]);
      MoreNotsInOrder(cs[1..]);
      assert FlatAllNots(cs)[1..] == FlatAllNots(cs[1..]);
    }
  }

  lemma {:induction false} FlatNotsInOrder(c: Nots)
    ensures Atoms(FlatNots(c)) == AtomsOfNots(c)
    decreases c, 0
  {
    match c.inner
    case Parens(cond) =>
      FlatOrsInOrder(cond);
      NotAtoms(c.nots, FlatOrs(cond));
    case Other(e) => NotAtoms(c.nots, e);
  }

  // ----- the flat form is flat -----

  /** The parts of a condition that are no AND, OR or NOT are flat themselves. */
  predicate OthersFlat(c: Ors)
    decreases c
  {
    AndsFlat(c.first) && forall i :: 0 <= i < |c.tails| ==> AndsFlat(c.tails[i])
  }

  predicate AndsFlat(c: Ands)
    decreases c
  {
    NotsFlat(c.first) && forall i :: 0 <= i < |c.tails| ==> NotsFlat(c.tails[i])
  }

  predicate NotsFlat(c: Nots)
    decreases c
  {
    match c.inner
    case Parens(cond) => OthersFlat(cond)
    case Other(e) => Flat(e)
  }

  lemma {:induction false} SplicedAllFlat(kind: Kind, es: seq<Expr>)
    requires forall i :: 0 <= i < |es| ==> Flat(es[i])
    ensures |SplicedAll(kind, es)| >= |es|
    ensures forall i :: 0 <= i < |SplicedAll(kind, es)| ==>
      Flat(SplicedAll(kind, es)[i]) && !IsKind(SplicedAll(kind, es)[i], kind)
  {
    if es != [] {
      SplicedAllFlat(kind, es[..|es| - 1]);
      assert Flat(es[|es| - 1]);
    }
  }

  lemma ConjoinedFlat(kind: Kind, es: seq<Expr>)
    requires es != [] && forall i :: 0 <= i < |es| ==> Flat(es[i])
    ensures Flat(Conjoined(kind, es))
  {
    SplicedAllFlat(kind, es);
  }

  /** However the parentheses nest, every conjunction in the result has at least two operands and
      none of its own kind. */
  lemma {:induction false} FlatOrsFlat(c: Ors)
    requires OthersFlat(c)
    ensures Flat(FlatOrs(c))
    decreases c
  {
    var es := OrOperands(c);
    forall i | 0 <= i < |es|
      ensures Flat(es[i])
    {
      FlatAndsFlat(if i == 0 then c.first else c.tails[i - 1]);
    }
    ConjoinedFlat(Or, es);
  }

  lemma {:induction false} FlatAndsFlat(c: Ands)
    requires AndsFlat(c)
    ensures Flat(FlatAnds(c))
    decreases c
  {
    var es := AndOperands(c);
    forall i | 0 <= i < |es|
      ensures Flat(es[i])
    {
      FlatNotsFlat(if i == 0 then c.first else c.tails[i - 1]);
    }
    ConjoinedFlat(And, es);
  }

  lemma {:induction false} FlatNotsFlat(c: Nots)
    requires NotsFlat(c)
    ensures Flat(FlatNots(c))
    decreases c
  {
    match c.inner {
      case Parens(cond) => FlatOrsFlat(cond);
      case Other(e) =>
    }
    assert c.nots > 0 ==> FlatNots(c).Not?;
  }
}
