/** WITH RECURSIVE: splitting a flattened union into its base part and its recursive part
    (parser/transform_select.go:107-147). */
module RecursiveCtes {
  import opened Tokens
  import opened Relations
  import opened Queries

  datatype Split =
    | NotUnion
    | Refused(reason: string)
    | Recursive(name: string, all: bool, left: Query, right: Query, ctes: seq<Cte>)

  /** Which modifier on the union is refused; a percentage limit is not. */
  function Objection(ms: seq<Modifier>): Option<string> {
    if ms == [] then None
    else match ms[0]
      case Limit(_, percentage) =>
        if percentage then Objection(ms[1..]) else Some("LIMIT or OFFSET in a recursive query is not allowed")
      case Order(_) => Some("ORDER BY in a recursive query is not allowed")
  }

  predicate IsUnionNode(q: Query) { q.SetOp? && q.typ == Union && |q.inputs| >= 2 }

  /** All but the last input, without the CTEs. */
  function Shortened(q: Query): Query {
    if q.SetOp? && q.inputs != [] then q.(inputs := q.inputs[..|q.inputs| - 1], ctes := []) else q
  }

  function SplitOf(name: string, q: Query): Split {
    if !IsUnionNode(q) then NotUnion
    else match Objection(q.modifiers)
      case Some(reason) => Refused(reason)
      case None =>
        var last := |q.inputs| - 1;
        if last == 1 then Recursive(name, q.all, q.inputs[0], q.inputs[1], q.ctes)
        else Recursive(name, q.all, Shortened(q), q.inputs[last], q.ctes)
  }

  /** A modifier that is no percentage limit. */
  predicate Objects(m: Modifier) { m.Limit? ==> !m.percentage }

  /** The first modifier to object decides what is refused, and a union with none is split. */
  lemma {:induction false} SplitIff(name: string, q: Query)
    ensures SplitOf(name, q) == NotUnion <==> !(q.SetOp? && q.typ == Union && |q.inputs| >= 2)
    ensures SplitOf(name, q).Recursive? <==> IsUnionNode(q) && forall m :: m in q.modifiers ==> !Objects(m)
    ensures forall i :: IsUnionNode(q) && 0 <= i < |q.modifiers| && FirstToObject(q.modifiers, i) ==>
      SplitOf(name, q) == Refused(
        if q.modifiers[i].Limit? then "LIMIT or OFFSET in a recursive query is not allowed"
        else "ORDER BY in a recursive query is not allowed")
  {
    NoneObjects(q.modifiers);
    forall i | IsUnionNode(q) && 0 <= i < |q.modifiers| && FirstToObject(q.modifiers, i)
      ensures Objection(q.modifiers) == Some(
        if q.modifiers[i].Limit? then "LIMIT or OFFSET in a recursive query is not allowed"
        else "ORDER BY in a recursive query is not allowed")
    {
      FirstObjects(q.modifiers, i);
    }
  }

  predicate FirstToObject(ms: seq<Modifier>, i: nat)
    requires i < |ms|
  {
    Objects(ms[i]) && forall j :: 0 <= j < i ==> !Objects(ms[j])
  }

  lemma {:induction false} NoneObjects(ms: seq<Modifier>)
    ensures Objection(ms).None? <==> forall m :: m in ms ==> !Objects(m)
  {
    if ms != [] {
      NoneObjects(ms[1..]);
      assert ms[0] in ms;
      assert forall m :: m in ms ==> m == ms[0] || m in ms[1..];
    }
  }

  lemma {:induction false} FirstObjects(ms: seq<Modifier>, i: nat)
    requires i < |ms| && FirstToObject(ms, i)
    ensures Objection(ms) == Some(
      if ms[i].Limit? then "LIMIT or OFFSET in a recursive query is not allowed"
      else "ORDER BY in a recursive query is not allowed")
  {
    if i > 0 {
      assert !Objects(ms[0]);
      assert forall j :: 0 <= j < i - 1 ==> ms[1..][j] == ms[j + 1];
      FirstObjects(ms[1..], i - 1);
    }
  }

  /** The union of the two parts, under the CTEs that moved to the recursive node. */
  function SplitMeaning(I: Interp, s: Split, env: seq<Cte>): Rel
    requires s.Recursive?
  {
    UnionOf(false, s.all, [Eval(I, s.left, env + s.ctes), Eval(I, s.right, env + s.ctes)])
  }

  lemma SplitKeepsUnion(I: Interp, name: string, q: Query, env: seq<Cte>)
    requires SplitOf(name, q).Recursive? && q.modifiers == []
    ensures SplitMeaning(I, SplitOf(name, q), env) == Eval(I, q, env)
  {
    PlainUnion(I, q, env);
    if |q.inputs| == 2 {
      var rs := EvalAll(I, q.inputs, env + q.ctes);
      assert rs == [rs[0], rs[1]];
    } else {
      LeftPartMeans(I, q, env + q.ctes);
    }
  }

  lemma PlainUnion(I: Interp, q: Query, env: seq<Cte>)
    requires IsUnionNode(q) && q.modifiers == []
    ensures Eval(I, q, env) == UnionOf(false, q.all, EvalAll(I, q.inputs, env + q.ctes))
  {
  }

  lemma LeftPartMeans(I: Interp, q: Query, scope: seq<Cte>)
    requires IsUnionNode(q) && |q.inputs| > 2 && q.modifiers == []
    ensures
      UnionOf(false, q.all, EvalAll(I, q.inputs, scope))
        == UnionOf(false, q.all, [Eval(I, Shortened(q), scope), Eval(I, q.inputs[|q.inputs| - 1], scope)])
  {
    ShortenedMeans(I, q, scope);
    LastUnited(q.all, EvalAll(I, q.inputs, scope));
  }

  lemma LastUnited(all: bool, rs: seq<Rel>)
    requires |rs| > 1
    ensures UnionOf(false, all, rs) == UnionOf(false, all, [UnionOf(false, all, rs[..|rs| - 1]), rs[|rs| - 1]])
  {
    var last := |rs| - 1;
    assert rs == rs[..last] + [rs[last]];
    UnionGrows(false, all, rs[..last], rs[last]);
  }

  lemma ShortenedMeans(I: Interp, q: Query, scope: seq<Cte>)
    requires IsUnionNode(q) && |q.inputs| > 2 && q.modifiers == []
    ensures Eval(I, Shortened(q), scope) == UnionOf(false, q.all, EvalAll(I, q.inputs, scope)[..|q.inputs| - 1])
  {
    PlainUnion(I, Shortened(q), scope);
    assert scope + [] == scope;
    assert EvalAll(I, q.inputs[..|q.inputs| - 1], scope) == EvalAll(I, q.inputs, scope)[..|q.inputs| - 1];
  }

  // ----- a modifier that survives is misplaced -----

  /** The largest number in a row, and in a list of rows. */
  function RowPeak(row: Row): nat {
    if row == [] then 0 else Higher(if row[0].Null? then 0 else row[0].n, RowPeak(row[1..]))
  }

  function Peak(rows: seq<Row>): nat {
    if rows == [] then 0 else Higher(RowPeak(rows[0]), Peak(rows[1..]))
  }

  function Higher(a: nat, b: nat): nat { if a < b then b else a }

  lemma {:induction false} PeakOfRow(rows: seq<Row>, row: Row)
    requires row in rows
    ensures RowPeak(row) <= Peak(rows)
  {
    if row != rows[0] {
      PeakOfRow(rows[1..], row);
    }
  }

  /** Every select gives one row; every modifier gives one number above all it is given. */
  function Counting(): Interp {
    Interp((id, env) => Rel([], [[Null]]), (m, scope, r: Rel) => Rel([], [[Value.Number(1 + Peak(r.rows))]]),
      (all, a, b) => a, (all, a, b) => a)
  }

  lemma {:induction false} CountsHaveRows(q: Query, env: seq<Cte>)
    requires WellBuilt(q)
    ensures Eval(Counting(), q, env).rows != []
    decreases q
  {
    var I := Counting();
    if q.modifiers == [] && q.SetOp? {
      var rs := EvalAll(I, q.inputs, env + q.ctes);
      CountsHaveRows(q.inputs[0], env + q.ctes);
      FirstRowStays(I, q.typ, q.all, rs);
    }
  }

  lemma {:induction false} FirstRowStays(I: Interp, t: SetOpType, all: bool, rs: seq<Rel>)
    requires I == Counting() && rs != [] && rs[0].rows != []
    ensures Together(I, t, all, rs).rows != []
  {
    if IsUnion(t) {
      var byName := t == UnionByName;
      var onto := UnionColumns(byName, rs);
      UnionHasRows(byName, onto, rs);
      var rows := UnionRows(byName, onto, rs);
      IntoKeepsDistinct([], rows);
      assert rows[0] in Distinct(rows);
    } else {
      LeftmostStays(I, t, all, rs);
    }
  }

  lemma {:induction false} LeftmostStays(I: Interp, t: SetOpType, all: bool, rs: seq<Rel>)
    requires I == Counting() && rs != [] && !IsUnion(t)
    ensures FromLeft(I, t, all, rs) == rs[0]
  {
    if |rs| > 1 {
      LeftmostStays(I, t, all, rs[..|rs| - 1]);
    }
  }

  lemma {:induction false} UnionHasRows(byName: bool, onto: seq<string>, rs: seq<Rel>)
    requires rs != [] && rs[0].rows != []
    ensures UnionRows(byName, onto, rs) != []
  {
    if |rs| > 1 {
      UnionHasRows(byName, onto, rs[..|rs| - 1]);
    }
  }

  /** A union holds its last input's rows. */
  lemma LastInputInUnion(all: bool, rs: seq<Rel>, last: Rel, row: Row)
    requires rs != [] && rs[|rs| - 1] == last && row in last.rows
    ensures row in UnionOf(false, all, rs).rows
  {
    var rows := UnionRows(false, rs[0].columns, rs);
    assert row in rows;
    IntoKeepsDistinct([], rows);
  }

  lemma {:induction false} ModifiedCount(ms: seq<Modifier>, scope: seq<Cte>, r: Rel)
    requires ms != []
    ensures
      var m := Modified(Counting(), ms, scope, r);
      |m.rows| == 1 && RowPeak(m.rows[0]) > Peak(r.rows)
  {
    var n := |ms| - 1;
    var inner := Modified(Counting(), ms[..n], scope, r);
    if n > 0 {
      ModifiedCount(ms[..n], scope, r);
      assert Peak(inner.rows) >= RowPeak(inner.rows[0]);
    }
    assert RowPeak([Value.Number(1 + Peak(inner.rows))]) == 1 + Peak(inner.rows);
  }

  /** With a modifier on the union, some reading of selects and modifiers tells the split apart. */
  lemma CountingTellsApart(name: string, q: Query)
    requires WellBuilt(q) && SplitOf(name, q).Recursive? && q.modifiers != []
    ensures SplitMeaning(Counting(), SplitOf(name, q), []) != Eval(Counting(), q, [])
  {
    var s := SplitOf(name, q);
    var right := Eval(Counting(), s.right, [] + q.ctes);
    CountsHaveRows(s.right, [] + q.ctes);
    var row := right.rows[0];
    LastInputInUnion(q.all, [Eval(Counting(), s.left, [] + q.ctes), right], right, row);
    WholeOutgrowsParts(q, right, row);
  }

  lemma WholeOutgrowsParts(q: Query, last: Rel, row: Row)
    requires IsUnionNode(q) && q.modifiers != []
    requires last == Eval(Counting(), q.inputs[|q.inputs| - 1], [] + q.ctes) && row in last.rows
    ensures row !in Eval(Counting(), q, []).rows
  {
    var rs := EvalAll(Counting(), q.inputs, [] + q.ctes);
    LastInputInUnion(q.all, rs, last, row);
    OutgrownBy(q.modifiers, [] + q.ctes, UnionOf(false, q.all, rs), row);
    UnionNodeEvaluates(Counting(), q, []);
  }

  lemma OutgrownBy(ms: seq<Modifier>, scope: seq<Cte>, r: Rel, row: Row)
    requires ms != [] && row in r.rows
    ensures row !in Modified(Counting(), ms, scope, r).rows
  {
    PeakOfRow(r.rows, row);
    ModifiedCount(ms, scope, r);
  }

  lemma UnionNodeEvaluates(I: Interp, q: Query, env: seq<Cte>)
    requires IsUnionNode(q)
    ensures Eval(I, q, env)
      == Modified(I, q.modifiers, env + q.ctes, UnionOf(false, q.all, EvalAll(I, q.inputs, env + q.ctes)))
  {
  }

  /** The split keeps the union, under every reading, precisely when nothing was attached to it. */
  lemma SplitKeepsUnionIff(name: string, q: Query)
    requires WellBuilt(q) && SplitOf(name, q).Recursive?
    ensures q.modifiers == [] <==>
      forall I: Interp, env: seq<Cte> :: SplitMeaning(I, SplitOf(name, q), env) == Eval(I, q, env)
  {
    if q.modifiers == [] {
      forall I: Interp, env: seq<Cte>
        ensures SplitMeaning(I, SplitOf(name, q), env) == Eval(I, q, env)
      {
        SplitKeepsUnion(I, name, q, env);
      }
    } else {
      CountingTellsApart(name, q);
    }
  }

  /** The same of every statement's tree, whatever its parentheses, modifiers and CTEs. */
  lemma StatementSplitIff(name: string, stmt: Statement)
    requires FlatStatement(stmt).Some? && SplitOf(name, FlatStatement(stmt).value).Recursive?
    ensures
      var q := FlatStatement(stmt).value;
      q.modifiers == [] <==>
        forall I: Interp, env: seq<Cte> :: SplitMeaning(I, SplitOf(name, q), env) == Eval(I, q, env)
  {
    FlatIsWellBuilt(stmt);
    SplitKeepsUnionIff(name, FlatStatement(stmt).value);
  }

  /** SELECT 1 UNION SELECT 2 and then, for n == 3, UNION SELECT 3; LIMIT 10%. */
  function LimitedUnion(n: nat): Statement
    requires n == 2 || n == 3
  {
    var union := Clause(false, false, false);
    var tails := [ChainTail(union, Intersects(Simple("SELECT 2"), [])),
      ChainTail(union, Intersects(Simple("SELECT 3"), []))];
    Statement([], Chain(Intersects(Simple("SELECT 1"), []), tails[..n - 1]), [Limit("10%", true)])
  }

  /** The union node of the first n selects, with the limit on it. */
  function LimitedNode(n: nat): Query
    requires n == 2 || n == 3
  {
    var all := [Select("SELECT 1", [], []), Select("SELECT 2", [], []), Select("SELECT 3", [], [])];
    SetOp(Union, false, all[..n], [Limit("10%", true)], [])
  }

  /** The union of three keeps its limit on the left part; the union of two loses it.  Neither
      split keeps the union under every reading. */
  lemma PercentLimitIsMisplaced(name: string)
    ensures FlatStatement(LimitedUnion(2)) == Some(LimitedNode(2))
      && FlatStatement(LimitedUnion(3)) == Some(LimitedNode(3))
    ensures
      var one, two, three := Select("SELECT 1", [], []), Select("SELECT 2", [], []), Select("SELECT 3", [], []);
      && SplitOf(name, LimitedNode(2)) == Recursive(name, false, one, two, [])
      && SplitOf(name, LimitedNode(3)) == Recursive(name, false, LimitedNode(2), three, [])
    ensures SplitMeaning(Counting(), SplitOf(name, LimitedNode(2)), []) != Eval(Counting(), LimitedNode(2), [])
    ensures SplitMeaning(Counting(), SplitOf(name, LimitedNode(3)), []) != Eval(Counting(), LimitedNode(3), [])
  {
    TwoFlatten();
    ThreeFlatten();
    LimitsSplit(name);
    CountingTellsApart(name, LimitedNode(2));
    CountingTellsApart(name, LimitedNode(3));
  }

  lemma LimitsSplit(name: string)
    ensures WellBuilt(LimitedNode(2)) && WellBuilt(LimitedNode(3))
    ensures
      var one, two, three := Select("SELECT 1", [], []), Select("SELECT 2", [], []), Select("SELECT 3", [], []);
      && SplitOf(name, LimitedNode(2)) == Recursive(name, false, one, two, [])
      && SplitOf(name, LimitedNode(3)) == Recursive(name, false, LimitedNode(2), three, [])
  {
    var limit := [Limit("10%", true)];
    assert limit[1..] == [] && Objection(limit) == None;
    assert LimitedNode(3).inputs[..2] == LimitedNode(2).inputs;
  }

  lemma TwoFlatten()
    ensures FlatStatement(LimitedUnion(2)) == Some(LimitedNode(2))
  {
    var c := LimitedUnion(2).chain;
    FirstTwo(c);
    assert |c.tails| == 1 && [] + LimitedUnion(2).modifiers == LimitedUnion(2).modifiers;
    var plain := SetOp(Union, false, [Select("SELECT 1", [], []), Select("SELECT 2", [], [])], [], []);
    assert LimitedNode(2).inputs == plain.inputs;
    assert FlatChain(c, |c.tails|) == Some(plain);
    assert Attached(plain, LimitedUnion(2)) == LimitedNode(2);
  }

  lemma ThreeFlatten()
    ensures FlatStatement(LimitedUnion(3)) == Some(LimitedNode(3))
  {
    var c := LimitedUnion(3).chain;
    var first, third := LimitedNode(2).inputs, Select("SELECT 3", [], []);
    assert first == [Select("SELECT 1", [], []), Select("SELECT 2", [], [])];
    FirstTwo(c);
    assert FlatIntersects(c.tails[1].operand, 0) == Some(third);
    assert Taken(SetOp(Union, false, first, [], []), c.tails[1]) == Some(SetOp(Union, false, first + [third], [], []));
    assert first + [third] == LimitedNode(3).inputs && |c.tails| == 2;
    assert [] + LimitedUnion(3).modifiers == LimitedUnion(3).modifiers;
    var plain := SetOp(Union, false, LimitedNode(3).inputs, [], []);
    assert FlatChain(c, |c.tails|) == Some(plain);
    assert Attached(plain, LimitedUnion(3)) == LimitedNode(3);
  }

  lemma FirstTwo(c: Chain)
    requires c == LimitedUnion(2).chain || c == LimitedUnion(3).chain
    ensures FlatChain(c, 1)
      == Some(SetOp(Union, false, [Select("SELECT 1", [], []), Select("SELECT 2", [], [])], [], []))
  {
    assert FlatIntersects(c.first, 0) == Some(Select("SELECT 1", [], []));
    assert FlatIntersects(c.tails[0].operand, 0) == Some(Select("SELECT 2", [], []));
    assert FlatChain(c, 0) == Some(Select("SELECT 1", [], []));
  }

  // ----- with EXCEPT and INTERSECT as they are -----

  /** Every modifier gives one column more, and one row twice. */
  function Doubling(): Interp {
    Sql((id, env) => Rel([], []), (m, scope, r: Rel) => Rel(r.columns + ["more"], [[], []]))
  }

  lemma {:induction false} DoublingModifies(ms: seq<Modifier>, scope: seq<Cte>, r: Rel)
    requires ms != []
    ensures
      var m := Modified(Doubling(), ms, scope, r);
      |m.columns| == |r.columns| + |ms| && m.rows == [[], []]
  {
    var n := |ms| - 1;
    if n > 0 {
      DoublingModifies(ms[..n], scope, r);
    }
  }

  /** Of two inputs, or without ALL: the split keeps the union, whatever selects and modifiers
      mean and EXCEPT and INTERSECT being what they are, precisely when nothing was attached. */
  lemma SqlSplitIff(name: string, q: Query)
    requires SplitOf(name, q).Recursive? && (|q.inputs| == 2 || !q.all)
    ensures q.modifiers == [] <==>
      forall select: (string, seq<Cte>) -> Rel, alter: (Modifier, seq<Cte>, Rel) -> Rel, env: seq<Cte> ::
        SplitMeaning(Sql(select, alter), SplitOf(name, q), env) == Eval(Sql(select, alter), q, env)
  {
    if q.modifiers == [] {
      forall select: (string, seq<Cte>) -> Rel, alter: (Modifier, seq<Cte>, Rel) -> Rel, env: seq<Cte>
        ensures SplitMeaning(Sql(select, alter), SplitOf(name, q), env) == Eval(Sql(select, alter), q, env)
      {
        SplitKeepsUnion(Sql(select, alter), name, q, env);
      }
    } else {
      DoublingTellsApart(name, q);
      var I := Doubling();
      assert I == Sql(I.select, I.alter);
      assert SplitMeaning(Sql(I.select, I.alter), SplitOf(name, q), []) != Eval(Sql(I.select, I.alter), q, []);
    }
  }

  lemma DoublingTellsApart(name: string, q: Query)
    requires SplitOf(name, q).Recursive? && (|q.inputs| == 2 || !q.all) && q.modifiers != []
    ensures SplitMeaning(Doubling(), SplitOf(name, q), []) != Eval(Doubling(), q, [])
  {
    var I, s := Doubling(), SplitOf(name, q);
    var a, b := Eval(I, s.left, [] + s.ctes), Eval(I, s.right, [] + s.ctes);
    var u := UnionOf(false, q.all, EvalAll(I, q.inputs, [] + q.ctes));
    UnionNodeEvaluates(I, q, []);
    DoublingModifies(q.modifiers, [] + q.ctes, u);
    if |q.inputs| == 2 {
      assert u.columns == a.columns;
      assert SplitMeaning(I, s, []).columns == a.columns;
    } else {
      UnionIs(a, b);
      assert NoRepeats(SplitMeaning(I, s, []).rows);
      assert Eval(I, q, []).rows[0] == Eval(I, q, []).rows[1];
    }
  }

  /** Not so of more with ALL: a last input without rows takes its place among them unseen. */
  function EmptyLast(): Query {
    var one := Select("SELECT 1", [], []);
    SetOp(Union, true, [one, one, SetOp(Except, false, [one, one], [], [])], [Limit("10%", true)], [])
  }

  lemma EmptyLastSplits(
      select: (string, seq<Cte>) -> Rel, alter: (Modifier, seq<Cte>, Rel) -> Rel, name: string, env: seq<Cte>)
    ensures SplitOf(name, EmptyLast()).Recursive? && EmptyLast().modifiers != []
    ensures SplitMeaning(Sql(select, alter), SplitOf(name, EmptyLast()), env)
      == Eval(Sql(select, alter), EmptyLast(), env)
  {
    var I, q, none := Sql(select, alter), EmptyLast(), EmptyLast().inputs[2];
    var limit := q.modifiers;
    assert limit[1..] == [] && Objection(limit) == None;
    var scope := env + [];
    assert scope == env;
    var r := Eval(I, none, env);
    NothingLeft(I, env);
    var a := Eval(I, q.inputs[0], env);
    var two := UnionOf(false, true, [a, a]);
    var left := Shortened(q);
    assert left.inputs == [q.inputs[0], q.inputs[0]];
    assert EvalAll(I, left.inputs, env) == [a, a];
    assert EvalAll(I, q.inputs, env) == [a, a] + [r];
    UnionNodeEvaluates(I, q, env);
    UnionNodeEvaluates(I, left, env);
    UnionGrows(false, true, [a, a], r);
    UnionIs(two, r);
    assert two.rows + [] == two.rows;
    var whole := Modified(I, limit, env, two);
    UnionIs(whole, r);
    assert whole.rows + [] == whole.rows;
  }

  lemma NothingLeft(I: Interp, env: seq<Cte>)
    requires I == Sql(I.select, I.alter)
    ensures Eval(I, EmptyLast().inputs[2], env).rows == []
  {
    var one := Select("SELECT 1", [], []);
    var a := Eval(I, one, env);
    PairMeans(I, Except, false, one, one, env);
    ExceptIs(a, a);
    var rows := ExceptOf(false, a, a).rows;
    assert rows != [] ==> rows[0] in rows;
  }
}
