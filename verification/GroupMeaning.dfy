/** What GROUP BY means: the grouping sets of its entries, and of a list of entries
    (parser/transform_select.go:442-589). */
module GroupMeaning {
  import opened GroupingSets

  // An expression stands for itself by its fingerprint.
  type Name = string

  /** One element: an expression, or with a non-empty `row` the expressions of a parenthesized
      list. */
  datatype Item = Item(name: Name, row: seq<Name>, bareStar: bool)

  datatype Entry =
    | EmptyItem
    | Base(item: Item)
    | Cube(units: seq<Item>)
    | Rollup(units: seq<Item>)
    | Sets(entries: seq<Entry>)

  datatype Outcome<+T> = Done(value: T) | TooMany | NoColumns

  const MAX_GROUPING_SETS := 65535

  function Names(item: Item): seq<Name> {
    if item.row != [] then item.row else [item.name]
  }

  // ----- the meaning of GROUP BY, on sets of expressions -----

  ghost function Unit(item: Item): set<Name> { Elements(Names(item)) }

  ghost function Units(items: seq<Item>): seq<set<Name>> {
    seq(|items|, i requires 0 <= i < |items| => Unit(items[i]))
  }

  ghost function UnionOf(us: seq<set<Name>>, c: seq<nat>): set<Name>
    requires forall k :: 0 <= k < |c| ==> c[k] < |us|
  {
    if c == [] then {} else us[c[0]] + UnionOf(us, c[1..])
  }

  ghost function UnionAll(us: seq<set<Name>>): set<Name> {
    if us == [] then {} else UnionAll(us[..|us| - 1]) + us[|us| - 1]
  }

  /** The union of every choice of units. */
  ghost function CubeMeaning(us: seq<set<Name>>): seq<set<Name>> {
    var cs := Choices(0, |us|);
    ChoicesComplete(0, |us|);
    seq(|cs|, k requires 0 <= k < |cs| => assert cs[k] in cs; UnionOf(us, cs[k]))
  }

  /** The union of every prefix of the units. */
  ghost function RollupMeaning(us: seq<set<Name>>): seq<set<Name>> {
    seq(|us| + 1, k requires 0 <= k <= |us| => UnionAll(us[..k]))
  }

  ghost function Meaning(e: Entry): Outcome<seq<set<Name>>>
    decreases e, 1
  {
    match e
    case EmptyItem => Done([{}])
    case Base(item) => Done([Unit(item)])
    case Cube(units) =>
      if units == [] then NoColumns
      else if Power2(|units|) > MAX_GROUPING_SETS then TooMany
      else Done(CubeMeaning(Units(units)))
    case Rollup(units) => if units == [] then NoColumns else Done(RollupMeaning(Units(units)))
    case Sets(entries) => MeaningOfAll(entries)
  }

  ghost function MeaningOfAll(es: seq<Entry>): Outcome<seq<set<Name>>>
    decreases es, 0
  {
    if es == [] then Done([])
    else match Meaning(es[0])
      case Done(first) => Prefixed(first, MeaningOfAll(es[1..]))
      case TooMany => TooMany
      case NoColumns => NoColumns
  }

  ghost function Prefixed(first: seq<set<Name>>, rest: Outcome<seq<set<Name>>>): Outcome<seq<set<Name>>> {
    match rest
    case Done(others) => Done(first + others)
    case TooMany => TooMany
    case NoColumns => NoColumns
  }

  ghost function EachWith(x: set<Name>, ys: seq<set<Name>>): seq<set<Name>> {
    seq(|ys|, j requires 0 <= j < |ys| => x + ys[j])
  }

  ghost function Cross(xs: seq<set<Name>>, ys: seq<set<Name>>): seq<set<Name>> {
    if xs == [] then [] else Cross(xs[..|xs| - 1], ys) + EachWith(xs[|xs| - 1], ys)
  }

  /** Entry by entry, the cross product so far is kept below the cap. */
  ghost function CrossAll(acc: seq<set<Name>>, es: seq<Entry>): Outcome<seq<set<Name>>>
    decreases |es|
  {
    if es == [] then Done(acc)
    else match Meaning(es[0])
      case Done(ys) => if |acc| * |ys| > MAX_GROUPING_SETS then TooMany else CrossAll(Cross(acc, ys), es[1..])
      case TooMany => TooMany
      case NoColumns => NoColumns
  }

  // ----- the cross product, index by index -----

  lemma {:induction false} CrossAt(xs: seq<set<Name>>, ys: seq<set<Name>>, i: nat, j: nat)
    requires i < |xs| && j < |ys|
    ensures |Cross(xs, ys)| == |xs| * |ys| && i * |ys| + j < |xs| * |ys|
    ensures Cross(xs, ys)[i * |ys| + j] == xs[i] + ys[j]
    decreases xs
  {
    var shorter := xs[..|xs| - 1];
    CrossLength(shorter, ys);
    assert |xs| * |ys| == (|xs| - 1) * |ys| + |ys|;
    if i < |shorter| {
      CrossAt(shorter, ys, i, j);
    }
  }

  lemma {:induction false} CrossLength(xs: seq<set<Name>>, ys: seq<set<Name>>)
    ensures |Cross(xs, ys)| == |xs| * |ys|
  {
    if xs != [] {
      CrossLength(xs[..|xs| - 1], ys);
      assert |xs| * |ys| == (|xs| - 1) * |ys| + |ys|;
    }
  }

  /** One set of every entry: c picks from ms. */
  predicate Picks(c: seq<nat>, ms: seq<seq<set<Name>>>) {
    |c| == |ms| && forall i :: 0 <= i < |ms| ==> c[i] < |ms[i]|
  }

  ghost function Picked(c: seq<nat>, ms: seq<seq<set<Name>>>): set<Name>
    requires Picks(c, ms)
  {
    if ms == [] then {} else ms[0][c[0]] + Picked(c[1..], ms[1..])
  }

  /** The position of a pick: the last entry varies fastest. */
  function Position(from: nat, c: seq<nat>, ms: seq<seq<set<Name>>>): nat
    requires Picks(c, ms)
    decreases |ms|
  {
    if ms == [] then from else Position(from * |ms[0]| + c[0], c[1..], ms[1..])
  }

  /** Every set of the cross product is the union of one set per entry, and every such union is
      there, at its position. */
  lemma {:induction false} CrossHoldsEveryPick(acc: seq<set<Name>>, es: seq<Entry>, ms: seq<seq<set<Name>>>, from: nat,
                                               c: seq<nat>)
    requires |es| == |ms| && forall i :: 0 <= i < |es| ==> Meaning(es[i]) == Done(ms[i])
    requires CrossAll(acc, es).Done? && from < |acc| && Picks(c, ms)
    ensures
      var p := CrossAll(acc, es).value;
      Position(from, c, ms) < |p| && p[Position(from, c, ms)] == acc[from] + Picked(c, ms)
    decreases |es|
  {
    if es == [] {
      assert acc[from] + {} == acc[from];
    } else {
      CrossAt(acc, ms[0], from, c[0]);
      CrossHoldsEveryPick(Cross(acc, ms[0]), es[1..], ms[1..], from * |ms[0]| + c[0], c[1..]);
    }
  }

  lemma {:induction false} CrossHoldsOnlyPicks(acc: seq<set<Name>>, es: seq<Entry>, ms: seq<seq<set<Name>>>, k: nat)
    returns (from: nat, c: seq<nat>)
    requires |es| == |ms| && forall i :: 0 <= i < |es| ==> Meaning(es[i]) == Done(ms[i])
    requires CrossAll(acc, es).Done? && k < |CrossAll(acc, es).value|
    ensures from < |acc| && Picks(c, ms) && Position(from, c, ms) == k
    decreases |es|
  {
    if es == [] {
      from, c := k, [];
    } else {
      var at, rest := CrossHoldsOnlyPicks(Cross(acc, ms[0]), es[1..], ms[1..], k);
      CrossLength(acc, ms[0]);
      var j;
      from, j := SplitPosition(at, |acc|, |ms[0]|);
      c := [j] + rest;
      assert c[1..] == rest;
    }
  }

  lemma SplitPosition(at: nat, m: nat, n: nat) returns (i: nat, j: nat)
    requires at < m * n
    ensures i < m && j < n && i * n + j == at
  {
    assert n == 0 ==> m * n == 0;
    i, j := at / n, at % n;
    QuotientBelow(at, n, m);
  }

  lemma QuotientBelow(at: nat, n: nat, m: nat)
    requires n > 0 && at < m * n
    ensures at / n < m
  {
    var q := at / n;
    assert at == q * n + at % n;
    if q >= m {
      ProductGrows(m, q, n);
    }
  }

  lemma ProductGrows(a: nat, b: nat, n: nat)
    requires a <= b
    ensures a * n <= b * n
  {
  }

  lemma {:induction false} CrossStaysBelowCap(acc: seq<set<Name>>, es: seq<Entry>)
    requires |acc| <= MAX_GROUPING_SETS
    ensures CrossAll(acc, es).Done? ==> |CrossAll(acc, es).value| <= MAX_GROUPING_SETS
    decreases |es|
  {
    if es != [] && Meaning(es[0]).Done? {
      var ys := Meaning(es[0]).value;
      CrossLength(acc, ys);
      if |acc| * |ys| <= MAX_GROUPING_SETS {
        CrossStaysBelowCap(Cross(acc, ys), es[1..]);
      }
    }
  }

  // ----- the same without the walk -----

  /** An element names the expressions of its row, or else its own. */
  predicate NamedBy(item: Item, x: Name) { if item.row == [] then x == item.name else x in item.row }

  ghost predicate NamesOf(names: set<Name>, items: seq<Item>, chosen: set<nat>) {
    forall x :: x in names <==> exists i :: i in chosen && i < |items| && NamedBy(items[i], x)
  }

  ghost predicate Below(chosen: set<nat>, n: nat) { forall i :: i in chosen ==> i < n }

  /** CUBE: the names of every choice of elements, 2^n of them, in depth-first pre-order. */
  ghost predicate IsCube(items: seq<Item>, ms: seq<set<Name>>) {
    && |ms| == Power2(|items|)
    && (forall chosen :: Below(chosen, |items|) ==> exists k :: 0 <= k < |ms| && NamesOf(ms[k], items, chosen))
    && exists cs: seq<seq<nat>> :: |cs| == |ms| && Listed(cs) && forall k :: 0 <= k < |ms| ==>
         ChoiceFrom(cs[k], 0, |items|) && NamesOf(ms[k], items, Elements(cs[k]))
  }

  ghost predicate NamesOfFirst(names: set<Name>, items: seq<Item>, k: nat)
    requires k <= |items|
  {
    forall x :: x in names <==> exists i :: 0 <= i < k && NamedBy(items[i], x)
  }

  /** ROLLUP: the names of the first k elements, for every k from none to all. */
  ghost predicate IsRollup(items: seq<Item>, ms: seq<set<Name>>) {
    |ms| == |items| + 1 && forall k :: 0 <= k < |ms| ==> NamesOfFirst(ms[k], items, k)
  }

  /** How many grouping sets an entry gives. */
  function Size(e: Entry): nat
    decreases e, 1
  {
    match e
    case EmptyItem => 1
    case Base(_) => 1
    case Cube(units) => Power2(|units|)
    case Rollup(units) => |units| + 1
    case Sets(entries) => SizeOfAll(entries)
  }

  function SizeOfAll(es: seq<Entry>): nat
    decreases es, 0
  {
    if es == [] then 0 else Size(es[0]) + SizeOfAll(es[1..])
  }

  /** The grouping sets of an entry; those of GROUPING SETS one list after another. */
  ghost predicate GivenBy(e: Entry, ms: seq<set<Name>>)
    decreases e, 1
  {
    |ms| == Size(e) &&
    match e
    case EmptyItem => NamesOf(ms[0], [], {})
    case Base(item) => NamesOf(ms[0], [item], {0})
    case Cube(units) => IsCube(units, ms)
    case Rollup(units) => IsRollup(units, ms)
    case Sets(entries) => GivenByAll(entries, ms)
  }

  ghost predicate GivenByAll(es: seq<Entry>, ms: seq<set<Name>>)
    requires |ms| == SizeOfAll(es)
    decreases es, 0
  {
    es == [] || (GivenBy(es[0], ms[..Size(es[0])]) && GivenByAll(es[1..], ms[Size(es[0])..]))
  }

  /** Every CUBE and ROLLUP in the entry has elements, and every CUBE is within the cap. */
  predicate HasColumns(e: Entry)
    decreases e
  {
    match e
    case Cube(units) => units != []
    case Rollup(units) => units != []
    case Sets(entries) => forall i :: 0 <= i < |entries| ==> HasColumns(entries[i])
    case _ => true
  }

  predicate CubesFit(e: Entry)
    decreases e
  {
    match e
    case Cube(units) => Power2(|units|) <= 65535
    case Sets(entries) => forall i :: 0 <= i < |entries| ==> CubesFit(entries[i])
    case _ => true
  }

  lemma UnitNames(item: Item)
    ensures NamesOf(Unit(item), [item], {0})
  {
    forall x
      ensures x in Unit(item) <==> NamedBy(item, x)
    {
      assert item.row == [] ==> Names(item)[0] == item.name;
    }
  }

  lemma {:induction false} UnionNames(items: seq<Item>, c: seq<nat>)
    requires ChoiceFrom(c, 0, |items|)
    ensures NamesOf(UnionOf(Units(items), c), items, Elements(c))
  {
    if c != [] {
      UnionNames(items, c[1..]);
      UnitNames(items[c[0]]);
      assert c == [c[0]] + c[1..];
      ElementsOfJoin([c[0]], c[1..]);
      forall x
        ensures x in UnionOf(Units(items), c) <==>
          exists i :: i in Elements(c) && i < |items| && NamedBy(items[i], x)
      {
        OneOfFirst(items, c[0], Elements(c[1..]), x);
        assert x in Unit(items[c[0]]) <==> NamedBy(items[c[0]], x) by {
          assert [items[c[0]]][0] == items[c[0]];
        }
      }
    }
  }

  lemma OneOfFirst(items: seq<Item>, first: nat, others: set<nat>, x: Name)
    requires first < |items|
    ensures (exists i :: i in {first} + others && i < |items| && NamedBy(items[i], x)) <==>
      NamedBy(items[first], x) || exists i :: i in others && i < |items| && NamedBy(items[i], x)
  {
  }

  lemma {:induction false} PrefixNames(items: seq<Item>, k: nat)
    requires k <= |items|
    ensures NamesOfFirst(UnionAll(Units(items)[..k]), items, k)
  {
    if k > 0 {
      var us := Units(items);
      PrefixNames(items, k - 1);
      UnitNames(items[k - 1]);
      assert us[..k][..k - 1] == us[..k - 1] && us[..k][k - 1] == Unit(items[k - 1]);
      assert [items[k - 1]][0] == items[k - 1];
    }
  }

  /** The listing of a set of indexes. */
  lemma {:induction false} Listing(chosen: set<nat>, from: nat, n: nat) returns (c: seq<nat>)
    requires from <= n && forall i :: i in chosen ==> from <= i < n
    ensures ChoiceFrom(c, from, n) && Elements(c) == chosen
    decreases n - from
  {
    if from == n {
      c := [];
    } else {
      c := Listing(chosen - {from}, from + 1, n);
      if from in chosen {
        ElementsOfJoin([from], c);
        c := [from] + c;
      }
    }
  }

  lemma CubeGiven(items: seq<Item>)
    ensures IsCube(items, CubeMeaning(Units(items)))
  {
    var cs, ms := Choices(0, |items|), CubeMeaning(Units(items));
    ChoicesComplete(0, |items|);
    forall k | 0 <= k < |ms|
      ensures ChoiceFrom(cs[k], 0, |items|) && NamesOf(ms[k], items, Elements(cs[k]))
    {
      assert cs[k] in cs;
      UnionNames(items, cs[k]);
    }
    forall chosen | Below(chosen, |items|)
      ensures exists k :: 0 <= k < |ms| && NamesOf(ms[k], items, chosen)
    {
      var c := Listing(chosen, 0, |items|);
      assert c in cs;
      var k :| 0 <= k < |cs| && cs[k] == c;
      assert NamesOf(ms[k], items, chosen);
    }
  }

  lemma RollupGiven(items: seq<Item>)
    ensures IsRollup(items, RollupMeaning(Units(items)))
  {
    forall k | 0 <= k <= |items|
      ensures NamesOfFirst(RollupMeaning(Units(items))[k], items, k)
    {
      PrefixNames(items, k);
    }
  }

  /** An entry is taken exactly when its CUBEs and ROLLUPs have elements and its CUBEs fit, and
      its sets are then the given ones. */
  lemma {:induction false} MeaningIsGiven(e: Entry)
    ensures Meaning(e).Done? <==> HasColumns(e) && CubesFit(e)
    ensures Meaning(e).Done? ==> GivenBy(e, Meaning(e).value)
    ensures (Meaning(e).NoColumns? ==> !HasColumns(e)) && (Meaning(e).TooMany? ==> !CubesFit(e))
    decreases e, 1
  {
    match e
    case EmptyItem =>
    case Base(item) => UnitNames(item);
    case Cube(units) => CubeGiven(units);
    case Rollup(units) => RollupGiven(units);
    case Sets(entries) => MeaningsAreGiven(entries);
  }

  lemma {:induction false} MeaningsAreGiven(es: seq<Entry>)
    ensures MeaningOfAll(es).Done? <==> forall i :: 0 <= i < |es| ==> HasColumns(es[i]) && CubesFit(es[i])
    ensures MeaningOfAll(es).Done? ==>
      |MeaningOfAll(es).value| == SizeOfAll(es) && GivenByAll(es, MeaningOfAll(es).value)
    ensures MeaningOfAll(es).NoColumns? ==> exists i :: 0 <= i < |es| && !HasColumns(es[i])
    ensures MeaningOfAll(es).TooMany? ==> exists i :: 0 <= i < |es| && !CubesFit(es[i])
    decreases es, 0
  {
    if es != [] {
      MeaningIsGiven(es[0]);
      MeaningsAreGiven(es[1..]);
      assert es == [es[0]] + es[1..];
      if MeaningOfAll(es).Done? {
        var first, all := Meaning(es[0]).value, MeaningOfAll(es).value;
        assert all[..|first|] == first && all[|first|..] == MeaningOfAll(es[1..]).value;
      }
    }
  }

  lemma {:induction false} Power2Grows(a: nat, b: nat)
    requires a <= b
    ensures Power2(a) <= Power2(b)
    decreases b - a
  {
    if a < b {
      Power2Grows(a, b - 1);
    }
  }

  // ----- a whole list of entries -----

  /** How many sets the first entries give together. */
  function Total(es: seq<Entry>): nat {
    if es == [] then 1 else Total(es[..|es| - 1]) * Size(es[|es| - 1])
  }

  /** Every entry is one that is taken, and however many of them, together they stay in the cap. */
  predicate AllTaken(es: seq<Entry>) {
    && (forall i :: 0 <= i < |es| ==> HasColumns(es[i]) && CubesFit(es[i]))
    && forall k :: 0 <= k <= |es| ==> Total(es[..k]) <= 65535
  }

  ghost predicate EachGiven(es: seq<Entry>, ms: seq<seq<set<Name>>>) {
    |ms| == |es| && forall i :: 0 <= i < |es| ==> GivenBy(es[i], ms[i])
  }

  /** One set for each pick of one of every entry's, the last entry varying fastest. */
  ghost predicate IsProduct(sets: seq<set<Name>>, ms: seq<seq<set<Name>>>) {
    forall c :: Picks(c, ms) ==> Position(0, c, ms) < |sets| && sets[Position(0, c, ms)] == Picked(c, ms)
  }

  ghost function MeaningsOf(es: seq<Entry>): (ms: seq<seq<set<Name>>>)
    requires forall i :: 0 <= i < |es| ==> Meaning(es[i]).Done?
    ensures |ms| == |es| && forall i :: 0 <= i < |es| ==> Meaning(es[i]) == Done(ms[i])
  {
    seq(|es|, i requires 0 <= i < |es| => Meaning(es[i]).value)
  }

  lemma {:induction false} TakenFrom(acc: seq<set<Name>>, done: seq<Entry>, es: seq<Entry>)
    requires |acc| == Total(done)
    ensures CrossAll(acc, es).Done? <==>
      && (forall i :: 0 <= i < |es| ==> HasColumns(es[i]) && CubesFit(es[i]))
      && forall k :: 0 < k <= |es| ==> Total(done + es[..k]) <= 65535
    ensures CrossAll(acc, es).Done? ==> |CrossAll(acc, es).value| == Total(done + es)
    decreases |es|
  {
    if es == [] {
      assert done + es == done;
    } else {
      var more := done + [es[0]];
      MeaningIsGiven(es[0]);
      assert more[..|more| - 1] == done;
      assert done + es[..1] == more;
      if Meaning(es[0]).Done? {
        CrossLength(acc, Meaning(es[0]).value);
        TakenFrom(Cross(acc, Meaning(es[0]).value), more, es[1..]);
        RestTaken(done, es);
      }
    }
  }

  lemma RestTaken(done: seq<Entry>, es: seq<Entry>)
    requires es != []
    ensures done + [es[0]] + es[1..] == done + es
    ensures
      (forall k :: 0 < k <= |es| ==> Total(done + es[..k]) <= 65535) <==>
        && Total(done + [es[0]]) <= 65535
        && forall k :: 0 < k <= |es| - 1 ==> Total(done + [es[0]] + es[1..][..k]) <= 65535
  {
    assert done + es[..1] == done + [es[0]];
    forall k | 0 < k <= |es| - 1
      ensures done + [es[0]] + es[1..][..k] == done + es[..k + 1]
    {
    }
    forall k | 1 < k <= |es|
      ensures done + es[..k] == done + [es[0]] + es[1..][..k - 1]
    {
    }
  }

  lemma AllTakenFromStart(es: seq<Entry>)
    ensures CrossAll([{}], es).Done? <==> AllTaken(es)
    ensures CrossAll([{}], es).Done? ==> |CrossAll([{}], es).value| == Total(es)
  {
    TakenFrom([{}], [], es);
    FromNone(es);
    assert [] + es == es;
  }

  lemma FromNone(es: seq<Entry>)
    ensures (forall k :: 0 < k <= |es| ==> Total([] + es[..k]) <= 65535)
      <==> forall k :: 0 <= k <= |es| ==> Total(es[..k]) <= 65535
  {
    forall k | 0 <= k <= |es|
      ensures Total([] + es[..k]) == Total(es[..k])
    {
      assert [] + es[..k] == es[..k];
    }
    assert Total(es[..0]) == 1;
  }

  lemma ProductFromStart(es: seq<Entry>, ms: seq<seq<set<Name>>>)
    requires |es| == |ms| && forall i :: 0 <= i < |es| ==> Meaning(es[i]) == Done(ms[i])
    requires CrossAll([{}], es).Done?
    ensures IsProduct(CrossAll([{}], es).value, ms)
  {
    forall c | Picks(c, ms)
      ensures
        var p := CrossAll([{}], es).value;
        Position(0, c, ms) < |p| && p[Position(0, c, ms)] == Picked(c, ms)
    {
      CrossHoldsEveryPick([{}], es, ms, 0, c);
      assert {} + Picked(c, ms) == Picked(c, ms);
    }
  }

  lemma AllMeaningsGiven(es: seq<Entry>)
    requires forall i :: 0 <= i < |es| ==> HasColumns(es[i]) && CubesFit(es[i])
    ensures forall i :: 0 <= i < |es| ==> Meaning(es[i]).Done?
    ensures EachGiven(es, MeaningsOf(es))
  {
    forall i | 0 <= i < |es|
      ensures Meaning(es[i]).Done? && GivenBy(es[i], Meaning(es[i]).value)
    {
      MeaningIsGiven(es[i]);
    }
  }

  /** GROUP BY over a list of entries: which lists are taken, and that they give one set for every
      pick of one set of each entry. */
  lemma CrossIsProduct(es: seq<Entry>)
    ensures CrossAll([{}], es).Done? <==> AllTaken(es)
    ensures CrossAll([{}], es).Done? ==>
      && |CrossAll([{}], es).value| == Total(es)
      && exists ms :: EachGiven(es, ms) && IsProduct(CrossAll([{}], es).value, ms)
  {
    AllTakenFromStart(es);
    if AllTaken(es) {
      AllMeaningsGiven(es);
      ProductFromStart(es, MeaningsOf(es));
    }
  }

  /** A single entry gives its own sets and no others. */
  lemma AloneIsGiven(e: Entry)
    ensures CrossAll([{}], [e]).Done? ==> GivenBy(e, CrossAll([{}], [e]).value)
  {
    MeaningIsGiven(e);
    if CrossAll([{}], [e]).Done? {
      CrossAlone(e);
    }
  }

  lemma CrossAlone(e: Entry)
    requires CrossAll([{}], [e]).Done?
    ensures CrossAll([{}], [e]) == Meaning(e)
  {
    var ms, none: seq<set<Name>> := Meaning(e).value, [{}];
    CrossWithNone(ms);
    assert [e][0] == e && [e][1..] == [];
    assert CrossAll(Cross(none, ms), []) == Done(Cross(none, ms));
  }

  lemma CrossWithNone(ms: seq<set<Name>>)
    ensures Cross([{}], ms) == ms
  {
    var none: seq<set<Name>> := [{}];
    assert none[..0] == [] && Cross([], ms) == [];
    assert forall j :: 0 <= j < |ms| ==> {} + ms[j] == ms[j];
    assert EachWith({}, ms) == ms;
    assert Cross(none, ms) == [] + EachWith({}, ms);
  }

  /** The sets of names a list of entries groups by: a single entry's own; of several, one set for
      every pick of one set of each. */
  ghost predicate GroupsBy(es: seq<Entry>, sets: seq<set<Name>>) {
    && |sets| == Total(es)
    && (|es| == 1 ==> GivenBy(es[0], sets))
    && exists ms :: EachGiven(es, ms) && IsProduct(sets, ms)
  }

  lemma CrossGroups(es: seq<Entry>)
    ensures CrossAll([{}], es).Done? <==> AllTaken(es)
    ensures CrossAll([{}], es).Done? ==> GroupsBy(es, CrossAll([{}], es).value)
  {
    CrossIsProduct(es);
    if |es| == 1 {
      assert es == [es[0]];
      AloneIsGiven(es[0]);
    }
  }
}
