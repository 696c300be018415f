/** Relations, and the union of many inputs at once against unions two at a time. */
module Relations {

  datatype Value = Null | Number(n: nat)

  type Row = seq<Value>

  datatype Rel = Rel(columns: seq<string>, rows: seq<Row>)

  datatype SetOpType = Union | UnionByName | Except | Intersect

  // ----- duplicates -----

  function Into<T(==)>(acc: seq<T>, xs: seq<T>): seq<T>
    decreases |xs|
  {
    if xs == [] then acc else Into(if xs[0] in acc then acc else acc + [xs[0]], xs[1..])
  }

  /** First occurrences, in order. */
  function Distinct<T(==)>(xs: seq<T>): seq<T> { Into([], xs) }

  predicate NoRepeats<T(==)>(xs: seq<T>) { forall i, j :: 0 <= i < j < |xs| ==> xs[i] != xs[j] }

  lemma {:induction false} IntoJoin<T>(acc: seq<T>, a: seq<T>, b: seq<T>)
    ensures Into(acc, a + b) == Into(Into(acc, a), b)
    decreases |a|
  {
    if a == [] {
      assert a + b == b;
    } else {
      IntoJoin(if a[0] in acc then acc else acc + [a[0]], a[1..], b);
      assert (a + b)[1..] == a[1..] + b;
    }
  }

  lemma {:induction false} IntoKeepsDistinct<T>(acc: seq<T>, xs: seq<T>)
    requires NoRepeats(acc)
    ensures NoRepeats(Into(acc, xs)) && acc <= Into(acc, xs)
    ensures forall x :: x in Into(acc, xs) <==> x in acc || x in xs
    decreases |xs|
  {
    if xs != [] {
      IntoKeepsDistinct(if xs[0] in acc then acc else acc + [xs[0]], xs[1..]);
      assert xs == [xs[0]] + xs[1..];
    }
  }

  lemma {:induction false} DistinctAlready<T>(acc: seq<T>, xs: seq<T>)
    requires NoRepeats(acc + xs)
    ensures Into(acc, xs) == acc + xs
    decreases |xs|
  {
    if xs == [] {
      assert acc + xs == acc;
    } else {
      var whole := acc + xs;
      forall i | 0 <= i < |acc|
        ensures acc[i] != xs[0]
      {
        assert whole[i] != whole[|acc|];
      }
      assert acc + [xs[0]] + xs[1..] == whole;
      DistinctAlready(acc + [xs[0]], xs[1..]);
    }
  }

  lemma DistinctTwice<T>(a: seq<T>, b: seq<T>)
    ensures Distinct(Distinct(a) + b) == Distinct(a + b)
  {
    IntoKeepsDistinct([], a);
    assert [] + Distinct(a) == Distinct(a);
    DistinctAlready([], Distinct(a));
    IntoJoin([], Distinct(a), b);
    IntoJoin([], a, b);
  }

  function Mapped<S, T>(f: S -> T, xs: seq<S>): (r: seq<T>)
    ensures |r| == |xs| && forall i :: 0 <= i < |xs| ==> r[i] == f(xs[i])
  {
    seq(|xs|, i requires 0 <= i < |xs| => f(xs[i]))
  }

  /** Duplicates may go before or after a mapping. */
  lemma {:induction false} DistinctThroughMap<S, T>(f: S -> T, xs: seq<S>)
    ensures Distinct(Mapped(f, Distinct(xs))) == Distinct(Mapped(f, xs))
  {
    if xs != [] {
      var n := |xs| - 1;
      var init, x := xs[..n], xs[n];
      assert xs == init + [x];
      DistinctThroughMap(f, init);
      IntoJoin([], init, [x]);
      IntoKeepsDistinct([], init);
      assert Mapped(f, xs) == Mapped(f, init) + [f(x)];
      IntoJoin([], Mapped(f, init), [f(x)]);
      assert Distinct(xs) == One(Distinct(init), x);
      assert Distinct(Mapped(f, xs)) == One(Distinct(Mapped(f, init)), f(x));
      var d := Distinct(init);
      if x in d {
        var i :| 0 <= i < |d| && d[i] == x;
        assert Mapped(f, d)[i] == f(x);
        IntoKeepsDistinct([], Mapped(f, d));
      } else {
        assert Mapped(f, d + [x]) == Mapped(f, d) + [f(x)];
        IntoJoin([], Mapped(f, d), [f(x)]);
      }
    }
  }

  function One<T(==)>(acc: seq<T>, x: T): (r: seq<T>)
    ensures r == Into(acc, [x])
  {
    assert [x][1..] == [];
    if x in acc then acc else acc + [x]
  }

  // ----- columns by name -----

  function IndexOf(cols: seq<string>, name: string): (i: nat)
    requires name in cols
    ensures i < |cols| && cols[i] == name
  {
    if cols[0] == name then 0 else 1 + IndexOf(cols[1..], name)
  }

  function At(cols: seq<string>, row: Row, name: string): Value {
    if name in cols && IndexOf(cols, name) < |row| then row[IndexOf(cols, name)] else Null
  }

  /** A row of columns `from`, over columns `onto`: missing ones are NULL. */
  function Padded(from: seq<string>, onto: seq<string>, row: Row): Row {
    seq(|onto|, i requires 0 <= i < |onto| => At(from, row, onto[i]))
  }

  lemma PaddedTwice(a: seq<string>, b: seq<string>, c: seq<string>, row: Row)
    requires forall x :: x in a ==> x in b
    ensures Padded(b, c, Padded(a, b, row)) == Padded(a, c, row)
  {
    var p := Padded(a, b, row);
    forall i | 0 <= i < |c|
      ensures At(b, p, c[i]) == At(a, row, c[i])
    {
      if c[i] in b {
        assert p[IndexOf(b, c[i])] == At(a, row, c[i]);
      }
    }
  }

  function Realign(r: Rel, onto: seq<string>): seq<Row> {
    Mapped(row => Padded(r.columns, onto, row), r.rows)
  }

  // ----- unions of many inputs -----

  function AllColumns(rs: seq<Rel>): seq<string> {
    if rs == [] then [] else AllColumns(rs[..|rs| - 1]) + rs[|rs| - 1].columns
  }

  /** The columns of a union: the first input's, or by name every name once. */
  function UnionColumns(byName: bool, rs: seq<Rel>): seq<string>
    requires rs != []
  {
    if byName then Distinct(AllColumns(rs)) else rs[0].columns
  }

  function UnionRows(byName: bool, onto: seq<string>, rs: seq<Rel>): seq<Row> {
    if rs == [] then []
    else UnionRows(byName, onto, rs[..|rs| - 1]) + InputRows(byName, onto, rs[|rs| - 1])
  }

  function InputRows(byName: bool, onto: seq<string>, r: Rel): seq<Row> {
    if byName then Realign(r, onto) else r.rows
  }

  /** The union of all inputs at once: every row, then the duplicates go unless ALL. */
  function UnionOf(byName: bool, all: bool, rs: seq<Rel>): Rel
    requires rs != []
  {
    var cols := UnionColumns(byName, rs);
    var rows := UnionRows(byName, cols, rs);
    Rel(cols, if all then rows else Distinct(rows))
  }

  lemma ColumnsGrow(rs: seq<Rel>, r: Rel)
    ensures AllColumns(rs + [r]) == AllColumns(rs) + r.columns
  {
    assert (rs + [r])[..|rs|] == rs;
  }

  lemma RowsGrow(byName: bool, onto: seq<string>, rs: seq<Rel>, r: Rel)
    ensures UnionRows(byName, onto, rs + [r])
      == UnionRows(byName, onto, rs) + InputRows(byName, onto, r)
  {
    assert (rs + [r])[..|rs|] == rs;
  }

  lemma TwoColumns(a: Rel, b: Rel)
    ensures AllColumns([a, b]) == a.columns + b.columns
  {
    assert [a, b][..1] == [a] && [a][..0] == [];
    assert AllColumns([a]) == [] + a.columns;
  }

  lemma TwoRows(byName: bool, onto: seq<string>, a: Rel, b: Rel)
    ensures UnionRows(byName, onto, [a, b])
      == InputRows(byName, onto, a) + InputRows(byName, onto, b)
  {
    assert [a, b][..1] == [a] && [a][..0] == [];
    assert UnionRows(byName, onto, [a]) == [] + InputRows(byName, onto, a);
  }

  lemma {:induction false} NameInAll(rs: seq<Rel>, k: nat, x: string)
    requires k < |rs| && x in rs[k].columns
    ensures x in AllColumns(rs)
  {
    if k < |rs| - 1 {
      NameInAll(rs[..|rs| - 1], k, x);
    }
  }

  /** Realigning a union's rows again is realigning each input's once. */
  lemma {:induction false} RealignedAgain(rs: seq<Rel>, mid: seq<string>, onto: seq<string>)
    requires forall k, x :: 0 <= k < |rs| && x in rs[k].columns ==> x in mid
    ensures Mapped(row => Padded(mid, onto, row), UnionRows(true, mid, rs)) == UnionRows(true, onto, rs)
  {
    if rs != [] {
      var n := |rs| - 1;
      RealignedAgain(rs[..n], mid, onto);
      var f := row => Padded(mid, onto, row);
      var last := Realign(rs[n], mid);
      forall i | 0 <= i < |last|
        ensures f(last[i]) == Realign(rs[n], onto)[i]
      {
        PaddedTwice(rs[n].columns, mid, onto, rs[n].rows[i]);
      }
      assert Mapped(f, last) == Realign(rs[n], onto);
      assert Mapped(f, UnionRows(true, mid, rs[..n]) + last)
        == Mapped(f, UnionRows(true, mid, rs[..n])) + Mapped(f, last);
    }
  }

  /** One more input: the union of all at once is the union of the earlier ones with the last. */
  lemma UnionGrows(byName: bool, all: bool, rs: seq<Rel>, r: Rel)
    requires rs != []
    ensures UnionOf(byName, all, rs + [r]) == UnionOf(byName, all, [UnionOf(byName, all, rs), r])
  {
    if byName {
      NamedUnionGrows(all, rs, r);
    } else {
      var rows := UnionRows(false, rs[0].columns, rs);
      RowsGrow(false, rs[0].columns, rs, r);
      TwoRows(false, rs[0].columns, UnionOf(false, all, rs), r);
      DistinctTwice(rows, r.rows);
    }
  }

  lemma NamedUnionGrows(all: bool, rs: seq<Rel>, r: Rel)
    requires rs != []
    ensures UnionOf(true, all, rs + [r]) == UnionOf(true, all, [UnionOf(true, all, rs), r])
  {
    var u := UnionOf(true, all, rs);
    var mid := u.columns;
    ColumnsGrow(rs, r);
    TwoColumns(u, r);
    DistinctTwice(AllColumns(rs), r.columns);
    var onto := UnionColumns(true, rs + [r]);
    assert onto == UnionColumns(true, [u, r]);
    RowsGrow(true, onto, rs, r);
    TwoRows(true, onto, u, r);
    RowsRealigned(all, rs, onto, Realign(r, onto));
  }

  lemma RowsRealigned(all: bool, rs: seq<Rel>, onto: seq<string>, more: seq<Row>)
    requires rs != []
    ensures
      var u := UnionOf(true, all, rs);
      && (all ==> Realign(u, onto) == UnionRows(true, onto, rs))
      && (!all ==> Distinct(Realign(u, onto) + more) == Distinct(UnionRows(true, onto, rs) + more))
  {
    var mid := UnionColumns(true, rs);
    var rows := UnionRows(true, mid, rs);
    IntoKeepsDistinct([], AllColumns(rs));
    forall k, x | 0 <= k < |rs| && x in rs[k].columns
      ensures x in mid
    {
      NameInAll(rs, k, x);
    }
    RealignedAgain(rs, mid, onto);
    var f := row => Padded(mid, onto, row);
    DistinctThroughMap(f, rows);
    DistinctTwice(Mapped(f, Distinct(rows)), more);
    DistinctTwice(Mapped(f, rows), more);
  }

  // ----- differences and intersections -----

  /** xs in order, without as many of each element as taken has. */
  function Without<T(==)>(xs: seq<T>, taken: multiset<T>): seq<T> {
    if xs == [] then []
    else if xs[0] in taken then Without(xs[1..], taken - multiset{xs[0]})
    else [xs[0]] + Without(xs[1..], taken)
  }

  /** xs in order, at most as many of each element as kept has. */
  function Within<T(==)>(xs: seq<T>, kept: multiset<T>): seq<T> {
    if xs == [] then []
    else if xs[0] in kept then [xs[0]] + Within(xs[1..], kept - multiset{xs[0]})
    else Within(xs[1..], kept)
  }

  function ExceptOf(all: bool, a: Rel, b: Rel): Rel {
    Rel(a.columns, Without(if all then a.rows else Distinct(a.rows), multiset(b.rows)))
  }

  function IntersectOf(all: bool, a: Rel, b: Rel): Rel {
    Rel(a.columns, Within(if all then a.rows else Distinct(a.rows), multiset(b.rows)))
  }

  lemma {:induction false} WithoutCounts<T>(xs: seq<T>, taken: multiset<T>)
    ensures multiset(Without(xs, taken)) == multiset(xs) - taken
    decreases |xs|
  {
    if xs != [] {
      assert xs == [xs[0]] + xs[1..];
      WithoutCounts(xs[1..], if xs[0] in taken then taken - multiset{xs[0]} else taken);
    }
  }

  lemma {:induction false} WithinCounts<T>(xs: seq<T>, kept: multiset<T>)
    ensures multiset(Within(xs, kept)) == multiset(xs) * kept
    decreases |xs|
  {
    if xs != [] {
      assert xs == [xs[0]] + xs[1..];
      WithinCounts(xs[1..], if xs[0] in kept then kept - multiset{xs[0]} else kept);
    }
  }

  /** No element twice: each is counted at most once. */
  lemma {:induction false} CountedOnce<T>(xs: seq<T>)
    ensures NoRepeats(xs) <==> forall x :: x in multiset(xs) ==> multiset(xs)[x] == 1
    decreases |xs|
  {
    if xs != [] {
      var tail := xs[1..];
      assert xs == [xs[0]] + tail;
      CountedOnce(tail);
      if NoRepeats(xs) {
        forall i, j | 0 <= i < j < |tail| ensures tail[i] != tail[j] { assert xs[i + 1] != xs[j + 1]; }
      } else {
        var i, j :| 0 <= i < j < |xs| && xs[i] == xs[j];
        if i == 0 {
          assert tail[j - 1] == xs[0];
          assert multiset(xs)[xs[0]] >= 2;
        } else {
          assert tail[i - 1] == tail[j - 1];
          assert multiset(xs)[xs[i]] >= multiset(tail)[xs[i]];
          SomeTwice(tail, i - 1, j - 1);
        }
      }
    }
  }

  lemma SomeTwice<T>(xs: seq<T>, i: nat, j: nat)
    requires i < j < |xs| && xs[i] == xs[j]
    ensures multiset(xs)[xs[i]] >= 2
  {
    assert xs == xs[..j] + [xs[j]] + xs[j + 1..];
    assert xs[..j][i] == xs[i];
  }

  /** EXCEPT takes the second rows away from the first: with ALL one for one, else every copy. */
  lemma ExceptIs(a: Rel, b: Rel)
    ensures ExceptOf(true, a, b).columns == ExceptOf(false, a, b).columns == a.columns
    ensures multiset(ExceptOf(true, a, b).rows) == multiset(a.rows) - multiset(b.rows)
    ensures
      var rows := ExceptOf(false, a, b).rows;
      NoRepeats(rows) && forall row :: row in rows <==> row in a.rows && row !in b.rows
  {
    var once := Distinct(a.rows);
    WithoutCounts(a.rows, multiset(b.rows));
    WithoutCounts(once, multiset(b.rows));
    IntoKeepsDistinct([], a.rows);
    CountedOnce(once);
    CountedOnce(Without(once, multiset(b.rows)));
    InCounted(ExceptOf(false, a, b).rows);
  }

  /** INTERSECT keeps the rows both have: with ALL as often as both do, else once. */
  lemma IntersectIs(a: Rel, b: Rel)
    ensures IntersectOf(true, a, b).columns == IntersectOf(false, a, b).columns == a.columns
    ensures multiset(IntersectOf(true, a, b).rows) == multiset(a.rows) * multiset(b.rows)
    ensures
      var rows := IntersectOf(false, a, b).rows;
      NoRepeats(rows) && forall row :: row in rows <==> row in a.rows && row in b.rows
  {
    var once := Distinct(a.rows);
    WithinCounts(a.rows, multiset(b.rows));
    WithinCounts(once, multiset(b.rows));
    IntoKeepsDistinct([], a.rows);
    CountedOnce(once);
    CountedOnce(Within(once, multiset(b.rows)));
    InCounted(IntersectOf(false, a, b).rows);
  }

  lemma InCounted<T>(xs: seq<T>)
    ensures forall x :: x in xs <==> x in multiset(xs)
  {
  }

  // ----- what a union of two holds -----

  /** The value a row has under a column name: its first column of that name, else NULL. */
  predicate ReadsAs(cols: seq<string>, row: Row, name: string, v: Value) {
    && (name !in cols ==> v == Null)
    && forall k :: 0 <= k < |cols| && cols[k] == name && name !in cols[..k] ==>
         v == if k < |row| then row[k] else Null
  }

  lemma {:induction false} FirstOfName(cols: seq<string>, name: string)
    requires name in cols
    ensures name !in cols[..IndexOf(cols, name)]
  {
    if cols[0] != name {
      FirstOfName(cols[1..], name);
      assert cols[..IndexOf(cols, name)] == [cols[0]] + cols[1..][..IndexOf(cols[1..], name)];
    }
  }

  lemma AtReads(cols: seq<string>, row: Row, name: string)
    ensures ReadsAs(cols, row, name, At(cols, row, name))
  {
    if name in cols {
      FirstOfName(cols, name);
    }
  }

  /** A row under a union's names: the value it has under each. */
  predicate Realigned(from: seq<string>, onto: seq<string>, row: Row, r: Row) {
    |r| == |onto| && forall j :: 0 <= j < |onto| ==> ReadsAs(from, row, onto[j], r[j])
  }

  /** UNION of two by position: the first's columns, and the rows of both one after the other. */
  lemma UnionIs(a: Rel, b: Rel)
    ensures UnionOf(false, true, [a, b]) == Rel(a.columns, a.rows + b.rows)
    ensures
      var u := UnionOf(false, false, [a, b]);
      u.columns == a.columns && NoRepeats(u.rows) && forall row :: row in u.rows <==> row in a.rows || row in b.rows
  {
    TwoRows(false, a.columns, a, b);
    IntoKeepsDistinct([], a.rows + b.rows);
  }

  /** UNION BY NAME of two: every name once, the first's in front, and each row under its names. */
  lemma UnionByNameIs(a: Rel, b: Rel)
    ensures
      var u := UnionOf(true, true, [a, b]);
      && NoRepeats(u.columns)
      && (forall x :: x in u.columns <==> x in a.columns || x in b.columns)
      && (NoRepeats(a.columns) ==> a.columns <= u.columns)
      && |u.rows| == |a.rows| + |b.rows|
      && (forall i :: 0 <= i < |a.rows| ==> Realigned(a.columns, u.columns, a.rows[i], u.rows[i]))
      && (forall i :: 0 <= i < |b.rows| ==> Realigned(b.columns, u.columns, b.rows[i], u.rows[|a.rows| + i]))
    ensures
      var u, once := UnionOf(true, true, [a, b]), UnionOf(true, false, [a, b]);
      once.columns == u.columns && NoRepeats(once.rows) && forall row :: row in once.rows <==> row in u.rows
  {
    var u := UnionOf(true, true, [a, b]);
    TwoColumns(a, b);
    TwoRows(true, u.columns, a, b);
    IntoKeepsDistinct([], a.columns + b.columns);
    IntoKeepsDistinct([], u.rows);
    IntoJoin([], a.columns, b.columns);
    IntoKeepsDistinct([], a.columns);
    IntoKeepsDistinct(Distinct(a.columns), b.columns);
    if NoRepeats(a.columns) {
      assert [] + a.columns == a.columns;
      DistinctAlready([], a.columns);
    }
    RowsRealign(a, u.columns);
    RowsRealign(b, u.columns);
  }

  lemma RowsRealign(r: Rel, onto: seq<string>)
    ensures |Realign(r, onto)| == |r.rows|
    ensures forall i :: 0 <= i < |r.rows| ==> Realigned(r.columns, onto, r.rows[i], Realign(r, onto)[i])
  {
    forall i | 0 <= i < |r.rows|
      ensures Realigned(r.columns, onto, r.rows[i], Realign(r, onto)[i])
    {
      forall j | 0 <= j < |onto|
        ensures ReadsAs(r.columns, r.rows[i], onto[j], Realign(r, onto)[i][j])
      {
        AtReads(r.columns, r.rows[i], onto[j]);
      }
    }
  }
}
