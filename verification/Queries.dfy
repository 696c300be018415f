/** Set-operation chains: their meaning as written, two operands at a time from the left, and the
    flattened query trees they become (parser/transform_select.go:34-49, 193-257). */
module Queries {
  import opened Relations
  import opened Tokens

  datatype Modifier = Limit(text: string, percentage: bool) | Order(text: string)

  datatype Cte = Cte(name: string, body: string)

  // ----- as written -----

  datatype Statement = Statement(ctes: seq<Cte>, chain: Chain, modifiers: seq<Modifier>)

  datatype Chain = Chain(first: Intersects, tails: seq<ChainTail>)

  datatype ChainTail = ChainTail(clause: Clause, operand: Intersects)

  datatype Clause = Clause(except: bool, all: bool, byName: bool)

  datatype Intersects = Intersects(first: Atom, tails: seq<IntersectTail>)

  datatype IntersectTail = IntersectTail(all: bool, operand: Atom)

  datatype Atom = Parens(stmt: Statement) | Simple(id: string)

  // ----- as built -----

  datatype Query =
    | Select(id: string, modifiers: seq<Modifier>, ctes: seq<Cte>)
    | SetOp(typ: SetOpType, all: bool, inputs: seq<Query>, modifiers: seq<Modifier>, ctes: seq<Cte>)

  /** What the parts no rewrite touches mean: a select and a modifier under the CTEs in scope, and
      EXCEPT and INTERSECT, with ALL or without, of two relations. */
  datatype Interp = Interp(
    select: (string, seq<Cte>) -> Rel,
    alter: (Modifier, seq<Cte>, Rel) -> Rel,
    except: (bool, Rel, Rel) -> Rel,
    intersect: (bool, Rel, Rel) -> Rel)

  /** The reading in which EXCEPT and INTERSECT are the difference and the intersection of rows. */
  function Sql(select: (string, seq<Cte>) -> Rel, alter: (Modifier, seq<Cte>, Rel) -> Rel): Interp {
    Interp(select, alter, (all, a, b) => ExceptOf(all, a, b), (all, a, b) => IntersectOf(all, a, b))
  }

  predicate IsUnion(t: SetOpType) { t == Union || t == UnionByName }

  /** The modifiers in order, each under the CTEs in scope. */
  function Modified(I: Interp, ms: seq<Modifier>, scope: seq<Cte>, r: Rel): Rel {
    if ms == [] then r else I.alter(ms[|ms| - 1], scope, Modified(I, ms[..|ms| - 1], scope, r))
  }

  // ----- meaning as written -----

  function Meaning(I: Interp, s: Statement, env: seq<Cte>): Rel
    decreases s, 0
  {
    Modified(I, s.modifiers, env + s.ctes, ChainMeaning(I, s.chain, |s.chain.tails|, env + s.ctes))
  }

  /** The first k tails, from the left. */
  function ChainMeaning(I: Interp, c: Chain, k: nat, env: seq<Cte>): Rel
    requires k <= |c.tails|
    decreases c, k
  {
    if k == 0 then IntersectsMeaning(I, c.first, |c.first.tails|, env)
    else
      var tail := c.tails[k - 1];
      Combined(I, tail.clause, ChainMeaning(I, c, k - 1, env),
        IntersectsMeaning(I, tail.operand, |tail.operand.tails|, env))
  }

  /** EXCEPT, or else UNION by position or by name, as the clause is written. */
  function Combined(I: Interp, c: Clause, a: Rel, b: Rel): Rel {
    if c.except then I.except(c.all, a, b) else UnionOf(c.byName, c.all, [a, b])
  }

  function IntersectsMeaning(I: Interp, c: Intersects, k: nat, env: seq<Cte>): Rel
    requires k <= |c.tails|
    decreases c, k
  {
    if k == 0 then AtomMeaning(I, c.first, env)
    else
      I.intersect(c.tails[k - 1].all, IntersectsMeaning(I, c, k - 1, env),
        AtomMeaning(I, c.tails[k - 1].operand, env))
  }

  function AtomMeaning(I: Interp, a: Atom, env: seq<Cte>): Rel
    decreases a, 0
  {
    match a
    case Parens(s) => Meaning(I, s, env)
    case Simple(id) => I.select(id, env)
  }

  // ----- meaning as built -----

  /** One set operation of a node's type on two relations. */
  function Binary(I: Interp, t: SetOpType, all: bool, a: Rel, b: Rel): Rel {
    match t
    case Union => UnionOf(false, all, [a, b])
    case UnionByName => UnionOf(true, all, [a, b])
    case Except => I.except(all, a, b)
    case Intersect => I.intersect(all, a, b)
  }

  function Eval(I: Interp, q: Query, env: seq<Cte>): Rel
    decreases q, 0
  {
    match q
    case Select(id, ms, ctes) => Modified(I, ms, env + ctes, I.select(id, env + ctes))
    case SetOp(t, all, inputs, ms, ctes) =>
      Modified(I, ms, env + ctes, Together(I, t, all, EvalAll(I, inputs, env + ctes)))
  }

  function EvalAll(I: Interp, qs: seq<Query>, env: seq<Cte>): (rs: seq<Rel>)
    ensures |rs| == |qs| && forall i :: 0 <= i < |qs| ==> rs[i] == Eval(I, qs[i], env)
    decreases qs
  {
    seq(|qs|, i requires 0 <= i < |qs| => Eval(I, qs[i], env))
  }

  /** All inputs of a set operation at once. */
  function Together(I: Interp, t: SetOpType, all: bool, rs: seq<Rel>): Rel {
    if rs == [] then Rel([], [])
    else if IsUnion(t) then UnionOf(t == UnionByName, all, rs)
    else FromLeft(I, t, all, rs)
  }

  function FromLeft(I: Interp, t: SetOpType, all: bool, rs: seq<Rel>): Rel
    requires rs != []
  {
    if |rs| == 1 then rs[0] else Binary(I, t, all, FromLeft(I, t, all, rs[..|rs| - 1]), rs[|rs| - 1])
  }

  // ----- the rewrite -----

  /** A union of the same kind with nothing of its own attached. */
  predicate Flattens(left: Query, t: SetOpType, all: bool) {
    IsUnion(t) && left.SetOp? && left.typ == t && left.all == all && left.modifiers == [] && left.ctes == []
  }

  function TypeOf(c: Clause): SetOpType {
    if c.byName then UnionByName else if c.except then Except else Union
  }

  /** One more input. */
  function Widened(q: Query, right: Query): Query {
    if q.SetOp? then q.(inputs := q.inputs + [right]) else q
  }

  /** buildSetOp. */
  function Built(left: Query, right: Query, c: Clause): Option<Query> {
    if c.byName && c.except then None
    else if Flattens(left, TypeOf(c), c.all) then Some(Widened(left, right))
    else Some(SetOp(TypeOf(c), c.all, [left, right], [], []))
  }

  function FlatStatement(s: Statement): Option<Query>
    decreases s, 0
  {
    match FlatChain(s.chain, |s.chain.tails|)
    case None => None
    case Some(q) => Some(Attached(q, s))
  }

  /** Outer CTEs come before the node's own, outer modifiers after them. */
  function Attached(q: Query, s: Statement): Query {
    q.(modifiers := q.modifiers + s.modifiers, ctes := s.ctes + q.ctes)
  }

  function FlatChain(c: Chain, k: nat): Option<Query>
    requires k <= |c.tails|
    decreases c, k
  {
    if k == 0 then FlatIntersects(c.first, |c.first.tails|)
    else
      match FlatChain(c, k - 1)
      case None => None
      case Some(left) => Taken(left, c.tails[k - 1])
  }

  /** One operand more. */
  function Taken(left: Query, tail: ChainTail): Option<Query>
    decreases tail, 0
  {
    match FlatIntersects(tail.operand, |tail.operand.tails|)
    case None => None
    case Some(right) => Built(left, right, tail.clause)
  }

  function FlatIntersects(c: Intersects, k: nat): Option<Query>
    requires k <= |c.tails|
    decreases c, k
  {
    if k == 0 then FlatAtom(c.first)
    else
      match FlatIntersects(c, k - 1)
      case None => None
      case Some(left) => Intersected(left, c.tails[k - 1])
  }

  function Intersected(left: Query, tail: IntersectTail): Option<Query>
    decreases tail, 0
  {
    match FlatAtom(tail.operand)
    case None => None
    case Some(right) => Some(SetOp(Intersect, tail.all, [left, right], [], []))
  }

  function FlatAtom(a: Atom): Option<Query>
    decreases a, 0
  {
    match a
    case Parens(s) => FlatStatement(s)
    case Simple(id) => Some(Select(id, [], []))
  }

  // ----- the rewrite keeps the meaning -----

  /** Set operations have at least two inputs, and no union has a first input it would flatten. */
  predicate WellBuilt(q: Query) {
    q.SetOp? ==>
      && |q.inputs| >= 2 && !Flattens(q.inputs[0], q.typ, q.all)
      && forall i :: 0 <= i < |q.inputs| ==> WellBuilt(q.inputs[i])
  }

  lemma TwoTogether(I: Interp, t: SetOpType, all: bool, a: Rel, b: Rel)
    ensures Together(I, t, all, [a, b]) == Binary(I, t, all, a, b)
  {
    assert [a, b][..1] == [a];
    assert FromLeft(I, t, all, [a]) == a;
  }

  lemma PairMeans(I: Interp, t: SetOpType, all: bool, left: Query, right: Query, env: seq<Cte>)
    ensures Eval(I, SetOp(t, all, [left, right], [], []), env)
      == Binary(I, t, all, Eval(I, left, env), Eval(I, right, env))
  {
    var rs := EvalAll(I, [left, right], env);
    PlainNode(I, t, all, [left, right], env);
    assert rs == [rs[0], rs[1]];
    TwoTogether(I, t, all, rs[0], rs[1]);
  }

  /** A set operation with nothing attached is its inputs taken together. */
  lemma PlainNode(I: Interp, t: SetOpType, all: bool, inputs: seq<Query>, env: seq<Cte>)
    ensures Eval(I, SetOp(t, all, inputs, [], []), env) == Together(I, t, all, EvalAll(I, inputs, env))
  {
    assert env + [] == env;
  }

  lemma OneMoreInput(I: Interp, inputs: seq<Query>, right: Query, env: seq<Cte>)
    ensures EvalAll(I, inputs + [right], env) == EvalAll(I, inputs, env) + [Eval(I, right, env)]
  {
  }

  /** A union that takes one input more. */
  lemma WidenedMeans(I: Interp, left: Query, right: Query, env: seq<Cte>)
    requires left.SetOp? && IsUnion(left.typ) && left.inputs != [] && left.modifiers == [] && left.ctes == []
    ensures Eval(I, Widened(left, right), env) == Binary(I, left.typ, left.all, Eval(I, left, env), Eval(I, right, env))
  {
    var rs, r := EvalAll(I, left.inputs, env), Eval(I, right, env);
    PlainNode(I, left.typ, left.all, left.inputs, env);
    PlainNode(I, left.typ, left.all, left.inputs + [right], env);
    OneMoreInput(I, left.inputs, right, env);
    UnionGrows(left.typ == UnionByName, left.all, rs, r);
  }

  lemma BuiltIsWellBuilt(left: Query, right: Query, c: Clause)
    requires WellBuilt(left) && WellBuilt(right) && Built(left, right, c).Some?
    ensures WellBuilt(Built(left, right, c).value)
  {
  }

  lemma BuiltMeans(I: Interp, left: Query, right: Query, c: Clause, env: seq<Cte>)
    requires WellBuilt(left) && WellBuilt(right) && Built(left, right, c).Some?
    ensures WellBuilt(Built(left, right, c).value)
    ensures Eval(I, Built(left, right, c).value, env)
      == Combined(I, c, Eval(I, left, env), Eval(I, right, env))
  {
    BuiltIsWellBuilt(left, right, c);
    if Flattens(left, TypeOf(c), c.all) {
      WidenedMeans(I, left, right, env);
    } else {
      PairMeans(I, TypeOf(c), c.all, left, right, env);
    }
  }

  /** A tree that takes one operand more, in rows: EXCEPT takes the right's rows from the left's,
      UNION adds them; with ALL one for one, and else no row is there twice. */
  lemma BuiltInRows(select: (string, seq<Cte>) -> Rel, alter: (Modifier, seq<Cte>, Rel) -> Rel,
      left: Query, right: Query, c: Clause, env: seq<Cte>)
    requires WellBuilt(left) && WellBuilt(right) && Built(left, right, c).Some?
    ensures
      var a, b := Eval(Sql(select, alter), left, env), Eval(Sql(select, alter), right, env);
      var r := Eval(Sql(select, alter), Built(left, right, c).value, env);
      && (c.except && c.all ==> multiset(r.rows) == multiset(a.rows) - multiset(b.rows))
      && (c.except && !c.all ==> forall row :: row in r.rows <==> row in a.rows && row !in b.rows)
      && (!c.except && !c.byName && c.all ==> r.rows == a.rows + b.rows)
      && (!c.except && !c.byName && !c.all ==> forall row :: row in r.rows <==> row in a.rows || row in b.rows)
      && (c.byName ==> r == UnionOf(true, c.all, [a, b]))
      && (!c.byName ==> r.columns == a.columns)
      && (!c.all ==> NoRepeats(r.rows))
  {
    var I := Sql(select, alter);
    var a, b := Eval(I, left, env), Eval(I, right, env);
    BuiltMeans(I, left, right, c, env);
    ExceptIs(a, b);
    UnionIs(a, b);
    UnionByNameIs(a, b);
  }

  /** INTERSECT in rows: with ALL as often as both have a row, else once if both have it. */
  lemma IntersectedInRows(select: (string, seq<Cte>) -> Rel, alter: (Modifier, seq<Cte>, Rel) -> Rel,
      left: Query, tail: IntersectTail, env: seq<Cte>)
    requires Intersected(left, tail).Some?
    ensures
      var a, b := Eval(Sql(select, alter), left, env), Eval(Sql(select, alter), FlatAtom(tail.operand).value, env);
      var r := Eval(Sql(select, alter), Intersected(left, tail).value, env);
      && r.columns == a.columns
      && (tail.all ==> multiset(r.rows) == multiset(a.rows) * multiset(b.rows))
      && (!tail.all ==> NoRepeats(r.rows) && forall row :: row in r.rows <==> row in a.rows && row in b.rows)
  {
    var I := Sql(select, alter);
    var right := FlatAtom(tail.operand).value;
    PairMeans(I, Intersect, tail.all, left, right, env);
    IntersectIs(Eval(I, left, env), Eval(I, right, env));
  }

  // ----- what is refused -----

  /** Some EXCEPT anywhere in the statement is BY NAME. */
  predicate NamesExcept(s: Statement)
    decreases s, 0
  {
    || IntersectsNameExcept(s.chain.first)
    || exists i :: 0 <= i < |s.chain.tails| && TailNamesExcept(s.chain.tails[i])
  }

  predicate TailNamesExcept(tail: ChainTail)
    decreases tail, 0
  {
    (tail.clause.except && tail.clause.byName) || IntersectsNameExcept(tail.operand)
  }

  predicate IntersectsNameExcept(c: Intersects)
    decreases c
  {
    AtomNamesExcept(c.first) || exists i :: 0 <= i < |c.tails| && AtomNamesExcept(c.tails[i].operand)
  }

  predicate AtomNamesExcept(a: Atom)
    decreases a, 0
  {
    a.Parens? && NamesExcept(a.stmt)
  }

  /** A statement is refused exactly when an EXCEPT in it is BY NAME. */
  lemma {:induction false} RefusedIff(s: Statement)
    ensures FlatStatement(s).None? <==> NamesExcept(s)
    decreases s, 0
  {
    ChainRefusedIff(s.chain, |s.chain.tails|);
  }

  lemma {:induction false} ChainRefusedIff(c: Chain, k: nat)
    requires k <= |c.tails|
    ensures FlatChain(c, k).None? <==>
      IntersectsNameExcept(c.first) || exists i :: 0 <= i < k && TailNamesExcept(c.tails[i])
    decreases c, k
  {
    if k == 0 {
      IntersectsRefusedIff(c.first, |c.first.tails|);
    } else {
      ChainRefusedIff(c, k - 1);
      IntersectsRefusedIff(c.tails[k - 1].operand, |c.tails[k - 1].operand.tails|);
    }
  }

  lemma {:induction false} IntersectsRefusedIff(c: Intersects, k: nat)
    requires k <= |c.tails|
    ensures FlatIntersects(c, k).None? <==>
      AtomNamesExcept(c.first) || exists i :: 0 <= i < k && AtomNamesExcept(c.tails[i].operand)
    decreases c, k
  {
    if k == 0 {
      AtomRefusedIff(c.first);
    } else {
      IntersectsRefusedIff(c, k - 1);
      AtomRefusedIff(c.tails[k - 1].operand);
    }
  }

  lemma {:induction false} AtomRefusedIff(a: Atom)
    ensures FlatAtom(a).None? <==> AtomNamesExcept(a)
    decreases a, 0
  {
    if a.Parens? {
      RefusedIff(a.stmt);
    }
  }

  lemma ModifiedTwice(I: Interp, a: seq<Modifier>, b: seq<Modifier>, scope: seq<Cte>, r: Rel)
    ensures Modified(I, a + b, scope, r) == Modified(I, b, scope, Modified(I, a, scope, r))
    decreases |b|
  {
    if b == [] {
      assert a + b == a;
    } else {
      var n := |b| - 1;
      ModifiedTwice(I, a, b[..n], scope, r);
      assert (a + b)[..|a + b| - 1] == a + b[..n];
    }
  }

  /** Outer modifiers on the node are read under the node's own CTEs too. */
  lemma AttachedEvaluates(I: Interp, q: Query, s: Statement, env: seq<Cte>)
    ensures Eval(I, Attached(q, s), env)
      == Modified(I, s.modifiers, env + s.ctes + q.ctes, Eval(I, q, env + s.ctes))
  {
    var scope := env + s.ctes + q.ctes;
    assert env + (s.ctes + q.ctes) == scope;
    if q.Select? {
      ModifiedTwice(I, q.modifiers, s.modifiers, scope, I.select(q.id, scope));
    } else {
      ModifiedTwice(I, q.modifiers, s.modifiers, scope, Together(I, q.typ, q.all, EvalAll(I, q.inputs, scope)));
    }
  }

  /** What attaching should mean: the outer modifiers under the outer CTEs. */
  function AttachedMeaning(I: Interp, q: Query, s: Statement, env: seq<Cte>): Rel {
    Modified(I, s.modifiers, env + s.ctes, Eval(I, q, env + s.ctes))
  }

  /** Every modifier counts the CTEs it sees. */
  function ScopeCounting(): Interp {
    Interp((id, env) => Rel([], []), (m, scope: seq<Cte>, r) => Rel([], [[Value.Number(|scope|)]]),
      (all, a, b) => a, (all, a, b) => a)
  }

  lemma CountedScope(ms: seq<Modifier>, scope: seq<Cte>, r: Rel)
    requires ms != []
    ensures Modified(ScopeCounting(), ms, scope, r) == Rel([], [[Value.Number(|scope|)]])
  {
  }

  /** Merging a statement's CTEs and modifiers into a node keeps their meaning, under every
      reading, exactly when it attaches no modifier or the node has no CTEs of its own. */
  lemma AttachedMeansIff(q: Query, s: Statement)
    ensures (forall I: Interp, env: seq<Cte> :: Eval(I, Attached(q, s), env) == AttachedMeaning(I, q, s, env))
      <==> s.modifiers == [] || q.ctes == []
  {
    if s.modifiers == [] || q.ctes == [] {
      forall I: Interp, env: seq<Cte>
        ensures Eval(I, Attached(q, s), env) == AttachedMeaning(I, q, s, env)
      {
        AttachedEvaluates(I, q, s, env);
        assert env + s.ctes + [] == env + s.ctes;
      }
    } else {
      var I := ScopeCounting();
      AttachedEvaluates(I, q, s, []);
      CountedScope(s.modifiers, [] + s.ctes + q.ctes, Eval(I, q, [] + s.ctes));
      CountedScope(s.modifiers, [] + s.ctes, Eval(I, q, [] + s.ctes));
      assert Eval(I, Attached(q, s), []) != AttachedMeaning(I, q, s, []);
    }
  }

  // ----- every tree that is built is well built -----

  /** Whatever the statement: no union in its tree has a first input it would flatten. */
  lemma {:induction false} FlatIsWellBuilt(s: Statement)
    requires FlatStatement(s).Some?
    ensures WellBuilt(FlatStatement(s).value)
    decreases s, 0
  {
    ChainIsWellBuilt(s.chain, |s.chain.tails|);
  }

  lemma {:induction false} ChainIsWellBuilt(c: Chain, k: nat)
    requires k <= |c.tails| && FlatChain(c, k).Some?
    ensures WellBuilt(FlatChain(c, k).value)
    decreases c, k
  {
    if k == 0 {
      IntersectsIsWellBuilt(c.first, |c.first.tails|);
    } else {
      var tail := c.tails[k - 1];
      ChainIsWellBuilt(c, k - 1);
      IntersectsIsWellBuilt(tail.operand, |tail.operand.tails|);
      BuiltIsWellBuilt(FlatChain(c, k - 1).value, FlatIntersects(tail.operand, |tail.operand.tails|).value,
        tail.clause);
    }
  }

  lemma {:induction false} IntersectsIsWellBuilt(c: Intersects, k: nat)
    requires k <= |c.tails| && FlatIntersects(c, k).Some?
    ensures WellBuilt(FlatIntersects(c, k).value)
    decreases c, k
  {
    if k == 0 {
      AtomIsWellBuilt(c.first);
    } else {
      IntersectsIsWellBuilt(c, k - 1);
      AtomIsWellBuilt(c.tails[k - 1].operand);
    }
  }

  lemma {:induction false} AtomIsWellBuilt(a: Atom)
    requires FlatAtom(a).Some?
    ensures WellBuilt(FlatAtom(a).value)
    decreases a, 0
  {
    if a.Parens? {
      FlatIsWellBuilt(a.stmt);
    }
  }

  // ----- which statements keep their scopes -----

  /** The CTEs a chain's node has of its own: those of a lone statement in parentheses. */
  function OwnCtes(c: Chain): seq<Cte> {
    if c.tails == [] && c.first.tails == [] && c.first.first.Parens? then
      c.first.first.stmt.ctes + OwnCtes(c.first.first.stmt.chain)
    else []
  }

  /** No modifier of the statement itself comes under CTEs from inside its parentheses. */
  predicate KeepsScope(s: Statement) { s.modifiers == [] || OwnCtes(s.chain) == [] }

  /** The same of every statement in parentheses, at every depth. */
  predicate ScopesKept(s: Statement)
    decreases s, 1
  {
    KeepsScope(s) && ScopesKeptBelow(s)
  }

  predicate ScopesKeptBelow(s: Statement)
    decreases s, 0
  {
    IntersectsKept(s.chain.first) && forall i :: 0 <= i < |s.chain.tails| ==> IntersectsKept(s.chain.tails[i].operand)
  }

  predicate IntersectsKept(c: Intersects)
    decreases c
  {
    AtomKept(c.first) && forall i :: 0 <= i < |c.tails| ==> AtomKept(c.tails[i].operand)
  }

  predicate AtomKept(a: Atom)
    decreases a
  {
    a.Parens? ==> ScopesKept(a.stmt)
  }

  lemma {:induction false} OwnCtesOf(c: Chain)
    requires FlatChain(c, |c.tails|).Some?
    ensures FlatChain(c, |c.tails|).value.ctes == OwnCtes(c)
  {
    var first := c.first;
    if c.tails != [] {
      BuiltHasNoCtes(FlatChain(c, |c.tails| - 1).value, c.tails[|c.tails| - 1]);
    } else if first.tails != [] {
      var left := FlatIntersects(first, |first.tails| - 1).value;
      assert FlatIntersects(first, |first.tails|) == Intersected(left, first.tails[|first.tails| - 1]);
    } else if first.first.Parens? {
      var s := first.first.stmt;
      assert FlatChain(c, 0) == FlatIntersects(first, 0) == FlatAtom(first.first) == FlatStatement(s);
      OwnCtesOf(s.chain);
    } else {
      assert FlatChain(c, 0) == FlatIntersects(first, 0) == FlatAtom(first.first);
    }
  }

  lemma BuiltHasNoCtes(left: Query, tail: ChainTail)
    requires Taken(left, tail).Some?
    ensures Taken(left, tail).value.ctes == []
  {
  }

  /** For every statement whose modifiers keep their scopes, whatever its parentheses and WITH
      clauses: the flattened tree has the rows of the chain read two operands at a time. */
  lemma {:induction false} FlatMeans(I: Interp, s: Statement, env: seq<Cte>)
    requires FlatStatement(s).Some? && ScopesKept(s)
    ensures WellBuilt(FlatStatement(s).value)
    ensures Eval(I, FlatStatement(s).value, env) == Meaning(I, s, env)
    decreases s, 1
  {
    FlatMeansBelow(I, s, env);
    OwnCtesOf(s.chain);
    AttachedEvaluates(I, FlatChain(s.chain, |s.chain.tails|).value, s, env);
    assert env + s.ctes + [] == env + s.ctes;
  }

  lemma {:induction false} FlatMeansBelow(I: Interp, s: Statement, env: seq<Cte>)
    requires FlatStatement(s).Some? && ScopesKeptBelow(s)
    ensures
      var q := FlatChain(s.chain, |s.chain.tails|).value;
      && WellBuilt(Attached(q, s))
      && AttachedMeaning(I, q, s, env) == Meaning(I, s, env)
    decreases s, 0
  {
    ChainMeans(I, s.chain, |s.chain.tails|, env + s.ctes);
  }

  /** The flattened tree of s means what was written, under every reading. */
  ghost predicate MeansAsWritten(s: Statement) {
    FlatStatement(s).Some? ==>
      forall I: Interp, env: seq<Cte> :: Eval(I, FlatStatement(s).value, env) == Meaning(I, s, env)
  }

  /** Of a statement that keeps its scopes below its top: the flattened tree means what was
      written, under every reading, exactly when the top keeps its scope too. */
  lemma FlatMeansIff(s: Statement)
    requires FlatStatement(s).Some? && ScopesKeptBelow(s)
    ensures MeansAsWritten(s) <==> KeepsScope(s)
  {
    var q := FlatChain(s.chain, |s.chain.tails|).value;
    OwnCtesOf(s.chain);
    AttachedMeansIff(q, s);
    forall I: Interp, env: seq<Cte>
      ensures AttachedMeaning(I, q, s, env) == Meaning(I, s, env)
    {
      FlatMeansBelow(I, s, env);
    }
  }

  /** WITH a AS (SELECT 1 AS x) (WITH a AS (SELECT 2 AS x) SELECT 10) LIMIT (SELECT x FROM a). */
  function LimitByCte(): Statement {
    var inner := Statement([Cte("a", "SELECT 2 AS x")], Chain(Intersects(Simple("SELECT 10"), []), []), []);
    Statement([Cte("a", "SELECT 1 AS x")], Chain(Intersects(Parens(inner), []), []),
      [Limit("(SELECT x FROM a)", false)])
  }

  /** Its limit is written under one CTE and built under both: the inner `a` captures it. */
  lemma LimitIsCaptured()
    ensures
      var s, I := LimitByCte(), ScopeCounting();
      && FlatStatement(s) == Some(Select("SELECT 10", s.modifiers, s.ctes + OwnCtes(s.chain)))
      && Eval(I, FlatStatement(s).value, []).rows == [[Value.Number(2)]]
      && Meaning(I, s, []).rows == [[Value.Number(1)]]
  {
    var s := LimitByCte();
    var inner := s.chain.first.first.stmt;
    assert FlatAtom(inner.chain.first.first) == Some(Select("SELECT 10", [], []));
    assert FlatChain(inner.chain, 0) == Some(Select("SELECT 10", [], []));
    assert [] + inner.modifiers == [] && inner.ctes + [] == inner.ctes;
    assert Attached(Select("SELECT 10", [], []), inner) == Select("SELECT 10", [], inner.ctes);
    assert FlatStatement(inner) == Some(Select("SELECT 10", [], inner.ctes));
    assert FlatAtom(s.chain.first.first) == FlatStatement(inner);
    assert FlatIntersects(s.chain.first, 0) == FlatStatement(inner);
    assert FlatChain(s.chain, 0) == FlatStatement(inner);
    assert OwnCtes(inner.chain) == [];
    assert OwnCtes(s.chain) == inner.ctes + [];
    assert [] + s.modifiers == s.modifiers;
    assert Attached(Select("SELECT 10", [], inner.ctes), s) == Select("SELECT 10", s.modifiers, s.ctes + inner.ctes);
    CountedScope(s.modifiers, [] + s.ctes, ChainMeaning(ScopeCounting(), s.chain, 0, [] + s.ctes));
    CountedScope(s.modifiers, [] + (s.ctes + inner.ctes), Rel([], []));
  }

  lemma {:induction false} ChainMeans(I: Interp, c: Chain, k: nat, env: seq<Cte>)
    requires k <= |c.tails| && FlatChain(c, k).Some?
    requires IntersectsKept(c.first) && forall i :: 0 <= i < k ==> IntersectsKept(c.tails[i].operand)
    ensures WellBuilt(FlatChain(c, k).value)
    ensures Eval(I, FlatChain(c, k).value, env) == ChainMeaning(I, c, k, env)
    decreases c, k
  {
    if k == 0 {
      IntersectsMean(I, c.first, |c.first.tails|, env);
    } else {
      var tail := c.tails[k - 1];
      ChainMeans(I, c, k - 1, env);
      IntersectsMean(I, tail.operand, |tail.operand.tails|, env);
      BuiltMeans(I, FlatChain(c, k - 1).value, FlatIntersects(tail.operand, |tail.operand.tails|).value, tail.clause,
        env);
    }
  }

  lemma {:induction false} IntersectsMean(I: Interp, c: Intersects, k: nat, env: seq<Cte>)
    requires k <= |c.tails| && FlatIntersects(c, k).Some? && IntersectsKept(c)
    ensures WellBuilt(FlatIntersects(c, k).value)
    ensures Eval(I, FlatIntersects(c, k).value, env) == IntersectsMeaning(I, c, k, env)
    decreases c, k
  {
    if k == 0 {
      AtomMeans(I, c.first, env);
    } else {
      IntersectsMean(I, c, k - 1, env);
      AtomMeans(I, c.tails[k - 1].operand, env);
      PairMeans(I, Intersect, c.tails[k - 1].all, FlatIntersects(c, k - 1).value,
        FlatAtom(c.tails[k - 1].operand).value, env);
    }
  }

  lemma {:induction false} AtomMeans(I: Interp, a: Atom, env: seq<Cte>)
    requires FlatAtom(a).Some? && AtomKept(a)
    ensures WellBuilt(FlatAtom(a).value)
    ensures Eval(I, FlatAtom(a).value, env) == AtomMeaning(I, a, env)
    decreases a, 0
  {
    match a
    case Parens(s) => FlatMeans(I, s, env);
    case Simple(id) => assert env + [] == env;
  }

  // ----- every statement inside -----

  /** So do s and every statement in parentheses in it, at every depth. */
  ghost predicate AllAsWritten(s: Statement)
    decreases s, 1
  {
    MeansAsWritten(s) && AllAsWrittenBelow(s)
  }

  ghost predicate AllAsWrittenBelow(s: Statement)
    decreases s, 0
  {
    && PartsAsWritten(s.chain.first)
    && forall i :: 0 <= i < |s.chain.tails| ==> PartsAsWritten(s.chain.tails[i].operand)
  }

  ghost predicate PartsAsWritten(c: Intersects)
    decreases c
  {
    AtomAsWritten(c.first) && forall i :: 0 <= i < |c.tails| ==> AtomAsWritten(c.tails[i].operand)
  }

  ghost predicate AtomAsWritten(a: Atom)
    decreases a
  {
    a.Parens? ==> AllAsWritten(a.stmt)
  }

  /** A statement and all statements in it mean what was written exactly when each keeps its scope. */
  lemma {:induction false} AllAsWrittenIff(s: Statement)
    requires FlatStatement(s).Some?
    ensures AllAsWritten(s) <==> ScopesKept(s)
    decreases s, 1
  {
    BelowIff(s);
    if ScopesKeptBelow(s) {
      FlatMeansIff(s);
    }
  }

  lemma {:induction false} BelowIff(s: Statement)
    requires FlatStatement(s).Some?
    ensures AllAsWrittenBelow(s) <==> ScopesKeptBelow(s)
    decreases s, 0
  {
    ChainParts(s.chain, |s.chain.tails|);
    PartsIff(s.chain.first);
    forall i | 0 <= i < |s.chain.tails|
      ensures PartsAsWritten(s.chain.tails[i].operand) <==> IntersectsKept(s.chain.tails[i].operand)
    {
      PartsIff(s.chain.tails[i].operand);
    }
  }

  lemma {:induction false} PartsIff(c: Intersects)
    requires FlatIntersects(c, |c.tails|).Some?
    ensures PartsAsWritten(c) <==> IntersectsKept(c)
    decreases c
  {
    IntersectsParts(c, |c.tails|);
    AtomIff(c.first);
    forall i | 0 <= i < |c.tails|
      ensures AtomAsWritten(c.tails[i].operand) <==> AtomKept(c.tails[i].operand)
    {
      AtomIff(c.tails[i].operand);
    }
  }

  lemma {:induction false} AtomIff(a: Atom)
    requires FlatAtom(a).Some?
    ensures AtomAsWritten(a) <==> AtomKept(a)
    decreases a
  {
    if a.Parens? {
      AllAsWrittenIff(a.stmt);
    }
  }

  lemma {:induction false} ChainParts(c: Chain, k: nat)
    requires k <= |c.tails| && FlatChain(c, k).Some?
    ensures FlatIntersects(c.first, |c.first.tails|).Some?
    ensures forall i :: 0 <= i < k ==> FlatIntersects(c.tails[i].operand, |c.tails[i].operand.tails|).Some?
    decreases k
  {
    if k > 0 {
      ChainParts(c, k - 1);
    }
  }

  lemma {:induction false} IntersectsParts(c: Intersects, k: nat)
    requires k <= |c.tails| && FlatIntersects(c, k).Some?
    ensures FlatAtom(c.first).Some? && forall i :: 0 <= i < k ==> FlatAtom(c.tails[i].operand).Some?
    decreases k
  {
    if k > 0 {
      IntersectsParts(c, k - 1);
    }
  }
}
