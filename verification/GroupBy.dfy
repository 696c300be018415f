/** GROUP BY: entries into grouping sets over a list of distinct group expressions
    (parser/transform_select.go:442-589). */
module GroupBy {
  import opened GroupingSets
  import opened GroupMeaning

  // ----- index sets and what they name -----

  predicate Distinct(exprs: seq<Name>) { forall i, j :: 0 <= i < j < |exprs| ==> exprs[i] != exprs[j] }

  predicate InRange(s: IndexSet, exprs: seq<Name>) { forall k :: 0 <= k < |s| ==> s[k] < |exprs| }

  ghost function Named(s: IndexSet, exprs: seq<Name>): set<Name> {
    set k | 0 <= k < |s| && s[k] < |exprs| :: exprs[s[k]]
  }

  lemma NamedJoin(a: IndexSet, b: IndexSet, exprs: seq<Name>)
    ensures Named(a + b, exprs) == Named(a, exprs) + Named(b, exprs)
  {
    var ab := a + b;
    forall x | x in Named(a, exprs) + Named(b, exprs)
      ensures x in Named(ab, exprs)
    {
      if x in Named(a, exprs) {
        var k :| 0 <= k < |a| && a[k] < |exprs| && exprs[a[k]] == x;
        assert ab[k] == a[k];
      } else {
        var k :| 0 <= k < |b| && b[k] < |exprs| && exprs[b[k]] == x;
        assert ab[|a| + k] == b[k];
      }
    }
  }

  /** What a list names depends on its elements alone. */
  lemma NamedByElements(a: IndexSet, b: IndexSet, exprs: seq<Name>)
    requires Elements(a) == Elements(b)
    ensures Named(a, exprs) == Named(b, exprs) && (InRange(a, exprs) ==> InRange(b, exprs))
  {
    NamedWithin(a, b, exprs);
    NamedWithin(b, a, exprs);
    forall k | 0 <= k < |b| && InRange(a, exprs)
      ensures b[k] < |exprs|
    {
      assert b[k] in Elements(a);
    }
  }

  lemma NamedWithin(a: IndexSet, b: IndexSet, exprs: seq<Name>)
    requires Elements(a) <= Elements(b)
    ensures Named(a, exprs) <= Named(b, exprs)
  {
    forall x | x in Named(a, exprs)
      ensures x in Named(b, exprs)
    {
      var k :| 0 <= k < |a| && a[k] < |exprs| && exprs[a[k]] == x;
      assert a[k] in Elements(b);
    }
  }

  /** Index sets that name the given sets. */
  ghost predicate Denotes(sets: seq<IndexSet>, names: seq<set<Name>>, exprs: seq<Name>) {
    |sets| == |names| && forall k :: 0 <= k < |sets| ==> Stands(sets[k], names[k], exprs)
  }

  ghost predicate Stands(s: IndexSet, names: set<Name>, exprs: seq<Name>) {
    StrictlyIncreasing(s) && InRange(s, exprs) && Named(s, exprs) == names
  }

  ghost function NamedSets(sets: seq<IndexSet>, exprs: seq<Name>): seq<set<Name>> {
    seq(|sets|, k requires 0 <= k < |sets| => Named(sets[k], exprs))
  }

  lemma NamedAsDenoted(sets: seq<IndexSet>, names: seq<set<Name>>, exprs: seq<Name>)
    requires Denotes(sets, names, exprs)
    ensures NamedSets(sets, exprs) == names
  {
    assert forall k :: 0 <= k < |sets| ==> Stands(sets[k], names[k], exprs);
  }

  lemma StillStands(s: IndexSet, names: set<Name>, exprs: seq<Name>, more: seq<Name>)
    requires Stands(s, names, exprs) && exprs <= more
    ensures Stands(s, names, more)
  {
    assert forall k :: 0 <= k < |s| ==> exprs[s[k]] == more[s[k]];
  }

  lemma StillDenotes(sets: seq<IndexSet>, names: seq<set<Name>>, exprs: seq<Name>, more: seq<Name>)
    requires Denotes(sets, names, exprs) && exprs <= more
    ensures Denotes(sets, names, more)
  {
    forall k | 0 <= k < |sets|
      ensures Stands(sets[k], names[k], more)
    {
      StillStands(sets[k], names[k], exprs, more);
    }
  }

  // ----- the group list -----

  /** The list with a name added, unless it is there. */
  function Added(exprs: seq<Name>, name: Name): seq<Name> {
    if name in exprs then exprs else exprs + [name]
  }

  function AllAdded(exprs: seq<Name>, names: seq<Name>): seq<Name>
    decreases |names|
  {
    if names == [] then exprs else AllAdded(Added(exprs, names[0]), names[1..])
  }

  lemma {:induction false} AddingKeeps(exprs: seq<Name>, names: seq<Name>)
    requires Distinct(exprs)
    ensures Distinct(AllAdded(exprs, names)) && exprs <= AllAdded(exprs, names)
    ensures forall x :: x in AllAdded(exprs, names) <==> x in exprs || x in names
    decreases |names|
  {
    if names != [] {
      AddingKeeps(Added(exprs, names[0]), names[1..]);
      assert names == [names[0]] + names[1..];
    }
  }

  lemma {:induction false} AddedTwice(exprs: seq<Name>, a: seq<Name>, b: seq<Name>)
    ensures AllAdded(AllAdded(exprs, a), b) == AllAdded(exprs, a + b)
    decreases |a|
  {
    if a == [] {
      assert a + b == b;
    } else {
      AddedTwice(Added(exprs, a[0]), a[1..], b);
      assert (a + b)[1..] == a[1..] + b;
    }
  }

  lemma OneMoreAdded(exprs: seq<Name>, row: seq<Name>, k: nat)
    requires k < |row|
    ensures AllAdded(exprs, row[..k + 1]) == Added(AllAdded(exprs, row[..k]), row[k])
  {
    AddedTwice(exprs, row[..k], [row[k]]);
    assert row[..k + 1] == row[..k] + [row[k]];
    var so := AllAdded(exprs, row[..k]);
    assert AllAdded(so, [row[k]]) == AllAdded(Added(so, row[k]), []);
  }

  /** Every expression of an entry, in order. */
  function Mentioned(e: Entry): seq<Name>
    decreases e, 1
  {
    match e
    case EmptyItem => []
    case Base(item) => Names(item)
    case Cube(units) => NamesOfAll(units)
    case Rollup(units) => NamesOfAll(units)
    case Sets(entries) => MentionedByAll(entries)
  }

  function NamesOfAll(items: seq<Item>): seq<Name> {
    if items == [] then [] else NamesOfAll(items[..|items| - 1]) + Names(items[|items| - 1])
  }

  function MentionedByAll(es: seq<Entry>): seq<Name>
    decreases es, 0
  {
    if es == [] then [] else Mentioned(es[0]) + MentionedByAll(es[1..])
  }

  lemma OneMoreUnit(exprs: seq<Name>, items: seq<Item>, k: nat)
    requires k < |items|
    ensures AllAdded(exprs, NamesOfAll(items[..k + 1]))
      == AllAdded(AllAdded(exprs, NamesOfAll(items[..k])), Names(items[k]))
    ensures Units(items[..k + 1]) == Units(items[..k]) + [Unit(items[k])]
  {
    AddedTwice(exprs, NamesOfAll(items[..k]), Names(items[k]));
    assert items[..k + 1][..k] == items[..k];
  }

  // ----- names of joined units -----

  lemma {:induction false} JoinedNames(units: seq<IndexSet>, names: seq<set<Name>>, exprs: seq<Name>, c: seq<nat>)
    requires Denotes(units, names, exprs) && forall k :: 0 <= k < |c| ==> c[k] < |units|
    ensures InRange(Joined(units, c), exprs) && Named(Joined(units, c), exprs) == UnionOf(names, c)
  {
    if c != [] {
      JoinedNames(units, names, exprs, c[1..]);
      NamedJoin(units[c[0]], Joined(units, c[1..]), exprs);
      assert Stands(units[c[0]], names[c[0]], exprs);
    }
  }

  lemma {:induction false} AllJoinedNames(units: seq<IndexSet>, names: seq<set<Name>>, exprs: seq<Name>)
    requires Denotes(units, names, exprs)
    ensures InRange(AllJoined(units), exprs) && Named(AllJoined(units), exprs) == UnionAll(names)
  {
    if units != [] {
      var n := |units| - 1;
      AllJoinedNames(units[..n], names[..n], exprs);
      NamedJoin(AllJoined(units[..n]), units[n], exprs);
      assert Stands(units[n], names[n], exprs);
    }
  }

  /** Raw index lists that name the given sets. */
  ghost predicate Lists(raw: seq<IndexSet>, names: seq<set<Name>>, exprs: seq<Name>) {
    |raw| == |names| && forall k :: 0 <= k < |raw| ==> InRange(raw[k], exprs) && Named(raw[k], exprs) == names[k]
  }

  lemma CubeLists(units: seq<IndexSet>, names: seq<set<Name>>, exprs: seq<Name>)
    requires Denotes(units, names, exprs)
    ensures Lists(Walked([], units, 0), CubeMeaning(names), exprs)
  {
    WalkIsEveryChoice([], units, 0);
    var cs, w := Choices(0, |units|), Walked([], units, 0);
    forall k | 0 <= k < |w|
      ensures InRange(w[k], exprs) && Named(w[k], exprs) == CubeMeaning(names)[k]
    {
      JoinedNames(units, names, exprs, cs[k]);
      assert [] + Joined(units, cs[k]) == Joined(units, cs[k]);
    }
  }

  lemma RollupLists(units: seq<IndexSet>, names: seq<set<Name>>, exprs: seq<Name>, out: seq<IndexSet>)
    requires Denotes(units, names, exprs)
    requires |out| == |units| + 1 && forall k :: 0 <= k <= |units| ==> out[k] == AllJoined(units[..k])
    ensures Lists(out, RollupMeaning(names), exprs)
  {
    forall k | 0 <= k < |out|
      ensures InRange(out[k], exprs) && Named(out[k], exprs) == RollupMeaning(names)[k]
    {
      AllJoinedNames(units[..k], names[..k], exprs);
    }
  }

  method NormalizeSets(raw: seq<IndexSet>, ghost names: seq<set<Name>>, ghost exprs: seq<Name>)
    returns (sets: seq<IndexSet>)
    requires Lists(raw, names, exprs)
    ensures Denotes(sets, names, exprs)
  {
    sets := raw;
    for i := 0 to |raw|
      invariant |sets| == |raw| && sets[i..] == raw[i..]
      invariant forall k :: 0 <= k < i ==> Stands(sets[k], names[k], exprs)
    {
      var s := NormalizeSet(sets[i]);
      assert sets[i] == raw[i];
      NamedByElements(raw[i], s, exprs);
      sets := sets[i := s];
    }
  }

  // ----- the transformer -----

  class SelectNode {
    var groupExpressions: seq<Name>
    var groupSets: seq<IndexSet>
    var forceAggregates: bool

    constructor ()
      ensures groupExpressions == [] && groupSets == [] && !forceAggregates
    {
      groupExpressions, groupSets, forceAggregates := [], [], false;
    }

    /** addGroupExpression: the index of an expression, new at the end if it was not there. */
    method AddGroupExpression(name: Name) returns (i: nat)
      requires Distinct(groupExpressions)
      modifies this`groupExpressions
      ensures groupExpressions == Added(old(groupExpressions), name) && Distinct(groupExpressions)
      ensures i < |groupExpressions| && groupExpressions[i] == name
    {
      for k := 0 to |groupExpressions|
        invariant name !in groupExpressions[..k]
      {
        if groupExpressions[k] == name {
          return k;
        }
        assert groupExpressions[..k + 1] == groupExpressions[..k] + [groupExpressions[k]];
      }
      assert groupExpressions[..|groupExpressions|] == groupExpressions;
      groupExpressions := groupExpressions + [name];
      return |groupExpressions| - 1;
    }

    /** groupByUnit. */
    method GroupByUnit(item: Item) returns (s: IndexSet)
      requires Distinct(groupExpressions)
      modifies this`groupExpressions
      ensures Distinct(groupExpressions) && old(groupExpressions) <= groupExpressions
      ensures groupExpressions == AllAdded(old(groupExpressions), Names(item))
      ensures Stands(s, Unit(item), groupExpressions)
    {
      var row := item.row;
      if |row| == 0 {
        var i := AddGroupExpression(item.name);
        assert Names(item) == [item.name];
        assert AllAdded(old(groupExpressions), [item.name]) == AllAdded(Added(old(groupExpressions), item.name), []);
        s := [i];
        NamesRow(s, [item.name], groupExpressions);
        return;
      }
      s := AddRow(row);
      ghost var raw := s;
      NamesRow(s, row, groupExpressions);
      s := NormalizeSet(s);
      NamedByElements(raw, s, groupExpressions);
    }

    /** The index of every expression of a row. */
    method AddRow(row: seq<Name>) returns (s: IndexSet)
      requires Distinct(groupExpressions)
      modifies this`groupExpressions
      ensures Distinct(groupExpressions) && old(groupExpressions) <= groupExpressions
      ensures groupExpressions == AllAdded(old(groupExpressions), row)
      ensures Indexes(s, row, groupExpressions)
    {
      s := [];
      for k := 0 to |row|
        invariant Distinct(groupExpressions) && old(groupExpressions) <= groupExpressions
        invariant groupExpressions == AllAdded(old(groupExpressions), row[..k])
        invariant Indexes(s, row[..k], groupExpressions)
      {
        ghost var before := groupExpressions;
        OneMoreAdded(old(groupExpressions), row, k);
        var i := AddGroupExpression(row[k]);
        OneMoreIndex(s, row, k, i, before, groupExpressions);
        s := s + [i];
      }
      assert row[..|row|] == row;
    }

    method GroupByUnits(items: seq<Item>) returns (units: seq<IndexSet>)
      requires Distinct(groupExpressions)
      modifies this`groupExpressions
      ensures Distinct(groupExpressions) && old(groupExpressions) <= groupExpressions
      ensures groupExpressions == AllAdded(old(groupExpressions), NamesOfAll(items))
      ensures Denotes(units, Units(items), groupExpressions)
    {
      units := [];
      assert NamesOfAll(items[..0]) == [];
      for k := 0 to |items|
        invariant Distinct(groupExpressions) && old(groupExpressions) <= groupExpressions
        invariant groupExpressions == AllAdded(old(groupExpressions), NamesOfAll(items[..k]))
        invariant Denotes(units, Units(items[..k]), groupExpressions)
      {
        ghost var before := groupExpressions;
        OneMoreUnit(old(groupExpressions), items, k);
        var u := GroupByUnit(items[k]);
        StillDenotes(units, Units(items[..k]), before, groupExpressions);
        units := units + [u];
      }
      assert items[..|items|] == items;
    }

    /** transformGroupByExpressionEntry: the sets an entry means, over a group list that grows by
        the entry's expressions. */
    method TransformEntry(e: Entry) returns (r: Outcome<seq<IndexSet>>)
      requires Distinct(groupExpressions)
      modifies this`groupExpressions
      ensures Distinct(groupExpressions) && old(groupExpressions) <= groupExpressions
      ensures Yields(r, Meaning(e), groupExpressions)
      ensures r.Done? ==> groupExpressions == AllAdded(old(groupExpressions), Mentioned(e))
      decreases e, 1
    {
      match e
      case EmptyItem =>
        assert Named([], groupExpressions) == {};
        return Done([[]]);
      case Base(item) =>
        var s := GroupByUnit(item);
        return Done([s]);
      case Cube(items) =>
        var units := GroupByUnits(items);
        if |units| == 0 {
          return NoColumns;
        }
        var within := CheckCubes(|units|);
        if !within {
          return TooMany;
        }
        var raw := CubeSets(units);
        CubeLists(units, Units(items), groupExpressions);
        var sets := NormalizeSets(raw, CubeMeaning(Units(items)), groupExpressions);
        return Done(sets);
      case Rollup(items) =>
        var units := GroupByUnits(items);
        if |units| == 0 {
          return NoColumns;
        }
        var raw := RollupSets(units);
        RollupLists(units, Units(items), groupExpressions, raw);
        var sets := NormalizeSets(raw, RollupMeaning(Units(items)), groupExpressions);
        return Done(sets);
      case Sets(entries) => r := TransformEntries(entries);
    }

    /** GROUPING SETS: the sets of its entries, one list after another. */
    method TransformEntries(entries: seq<Entry>) returns (r: Outcome<seq<IndexSet>>)
      requires Distinct(groupExpressions)
      modifies this`groupExpressions
      ensures Distinct(groupExpressions) && old(groupExpressions) <= groupExpressions
      ensures Yields(r, MeaningOfAll(entries), groupExpressions)
      ensures r.Done? ==> groupExpressions == AllAdded(old(groupExpressions), MentionedByAll(entries))
      decreases entries, 0
    {
      if |entries| == 0 {
        return Done([]);
      }
      var first := TransformEntry(entries[0]);
      if !first.Done? {
        return first;
      }
      ghost var middle := groupExpressions;
      var rest := TransformEntries(entries[1..]);
      if !rest.Done? {
        return rest;
      }
      AddedTwice(old(groupExpressions), Mentioned(entries[0]), MentionedByAll(entries[1..]));
      StillDenotes(first.value, Meaning(entries[0]).value, middle, groupExpressions);
      return Done(first.value + rest.value);
    }

    /** transformGroupBy over a list of entries: the cross product, or the error. */
    method CrossEntries(entries: seq<Entry>) returns (r: Outcome<seq<IndexSet>>)
      requires Distinct(groupExpressions)
      modifies this`groupExpressions
      ensures Distinct(groupExpressions) && old(groupExpressions) <= groupExpressions
      ensures Yields(r, CrossAll([{}], entries), groupExpressions)
      ensures r.Done? ==> groupExpressions == AllAdded(old(groupExpressions), MentionedByAll(entries))
    {
      var sets: seq<IndexSet> := [[]];
      ghost var names: seq<set<Name>> := [{}];
      ghost var start := groupExpressions;
      assert Named([], groupExpressions) == {};
      var i := 0;
      while i < |entries|
        invariant i <= |entries| && Distinct(groupExpressions) && old(groupExpressions) <= groupExpressions
        invariant Denotes(sets, names, groupExpressions)
        invariant CrossAll(names, entries[i..]) == CrossAll([{}], entries)
        invariant AllAdded(groupExpressions, MentionedByAll(entries[i..])) == AllAdded(start, MentionedByAll(entries))
      {
        ghost var before := groupExpressions;
        NextEntry(names, entries, i);
        var entrySets := TransformEntry(entries[i]);
        if !entrySets.Done? {
          return entrySets;
        }
        if |sets| * |entrySets.value| > MAX_GROUPING_SETS {
          return TooMany;
        }
        ghost var ys := Meaning(entries[i]).value;
        AddedTwice(before, Mentioned(entries[i]), MentionedByAll(entries[i + 1..]));
        StillDenotes(sets, names, before, groupExpressions);
        sets := CombineAll(sets, entrySets.value, names, ys, groupExpressions);
        names := Cross(names, ys);
        i := i + 1;
      }
      return Done(sets);
    }

    /** transformGroupBy. */
    method TransformGroupBy(all: bool, entries: seq<Entry>) returns (r: Outcome<()>)
      requires Distinct(groupExpressions)
      modifies this
      ensures
        if all || IsLoneStar(entries) then
          r == Done(()) && forceAggregates && groupExpressions == old(groupExpressions) && groupSets == old(groupSets)
        else
          && forceAggregates == old(forceAggregates) && Distinct(groupExpressions)
          && (r.TooMany? <==> CrossAll([{}], entries).TooMany?)
          && (r.NoColumns? <==> CrossAll([{}], entries).NoColumns?)
          && (r.Done? ==>
               && Denotes(groupSets, CrossAll([{}], entries).value, groupExpressions)
               && groupExpressions == AllAdded(old(groupExpressions), MentionedByAll(entries))
               && |groupSets| <= MAX_GROUPING_SETS)
          && (r.Done? <==> AllTaken(entries))
          && (r.Done? ==> GroupsBy(entries, NamedSets(groupSets, groupExpressions)))
    {
      if all {
        forceAggregates := true;
        return Done(());
      }
      if |entries| == 1 && entries[0].Base? && entries[0].item.bareStar {
        forceAggregates := true;
        return Done(());
      }
      var sets := CrossEntries(entries);
      CrossStaysBelowCap([{}], entries);
      CrossGroups(entries);
      match sets
      case TooMany => return TooMany;
      case NoColumns => return NoColumns;
      case Done(value) =>
        groupSets := value;
        NamedAsDenoted(value, CrossAll([{}], entries).value, groupExpressions);
        return Done(());
    }
  }

  lemma NextEntry(acc: seq<set<Name>>, entries: seq<Entry>, i: nat)
    requires i < |entries|
    ensures MentionedByAll(entries[i..]) == Mentioned(entries[i]) + MentionedByAll(entries[i + 1..])
    ensures CrossAll(acc, entries[i..]) ==
      match Meaning(entries[i])
      case Done(ys) => if |acc| * |ys| > MAX_GROUPING_SETS then TooMany else CrossAll(Cross(acc, ys), entries[i + 1..])
      case TooMany => TooMany
      case NoColumns => NoColumns
  {
    assert entries[i..][1..] == entries[i + 1..] && entries[i..][0] == entries[i];
  }

  predicate IsLoneStar(entries: seq<Entry>) {
    |entries| == 1 && entries[0].Base? && entries[0].item.bareStar
  }

  /** The sets of a meaning, or the same error. */
  ghost predicate Yields(r: Outcome<seq<IndexSet>>, m: Outcome<seq<set<Name>>>, exprs: seq<Name>) {
    match r
    case Done(sets) => m.Done? && Denotes(sets, m.value, exprs)
    case TooMany => m.TooMany?
    case NoColumns => m.NoColumns?
  }

  /** Where each expression of a row stands. */
  ghost predicate Indexes(s: IndexSet, row: seq<Name>, exprs: seq<Name>) {
    |s| == |row| && InRange(s, exprs) && forall j :: 0 <= j < |s| ==> exprs[s[j]] == row[j]
  }

  lemma OneMoreIndex(s: IndexSet, row: seq<Name>, k: nat, i: nat, exprs: seq<Name>, more: seq<Name>)
    requires k < |row| && Indexes(s, row[..k], exprs) && exprs <= more
    requires i < |more| && more[i] == row[k]
    ensures Indexes(s + [i], row[..k + 1], more)
  {
    var longer := s + [i];
    forall j | 0 <= j < |longer|
      ensures longer[j] < |more| && more[longer[j]] == row[..k + 1][j]
    {
      assert j < k ==> longer[j] == s[j] && exprs[s[j]] == row[..k][j];
    }
  }

  lemma NamesRow(s: IndexSet, row: seq<Name>, exprs: seq<Name>)
    requires Indexes(s, row, exprs)
    ensures Named(s, exprs) == Elements(row)
  {
    forall x | x in Elements(row)
      ensures x in Named(s, exprs)
    {
      var j :| 0 <= j < |row| && row[j] == x;
      assert exprs[s[j]] == x;
    }
  }

  /** checkGroupingSetMax as CUBE doubles: within the cap exactly when 2^n is. */
  method CheckCubes(n: nat) returns (within: bool)
    ensures within <==> Power2(n) <= MAX_GROUPING_SETS
  {
    var combinations := 1;
    for i := 0 to n
      invariant combinations == Power2(i)
    {
      combinations := combinations * 2;
      if combinations > MAX_GROUPING_SETS {
        Power2Grows(i + 1, n);
        return false;
      }
    }
    assert Power2(0) == 1;
    return combinations <= MAX_GROUPING_SETS;
  }

  /** The merged sets, every base with every set of the entry. */
  method CombineAll(sets: seq<IndexSet>, entrySets: seq<IndexSet>, ghost xs: seq<set<Name>>, ghost ys: seq<set<Name>>,
                    ghost exprs: seq<Name>)
    returns (combined: seq<IndexSet>)
    requires Denotes(sets, xs, exprs) && Denotes(entrySets, ys, exprs)
    ensures Denotes(combined, Cross(xs, ys), exprs)
  {
    combined := [];
    for i := 0 to |sets|
      invariant Denotes(combined, Cross(xs[..i], ys), exprs)
    {
      var row := [];
      for j := 0 to |entrySets|
        invariant |row| == j && forall k :: 0 <= k < j ==> Stands(row[k], xs[i] + ys[k], exprs)
      {
        var merged := MergeSet(sets[i], entrySets[j]);
        Merged(sets[i], entrySets[j], merged, exprs);
        assert Stands(sets[i], xs[i], exprs) && Stands(entrySets[j], ys[j], exprs);
        row := row + [merged];
      }
      assert xs[..i + 1][..i] == xs[..i];
      combined := combined + row;
    }
    assert xs[..|sets|] == xs;
  }

  lemma Merged(a: IndexSet, b: IndexSet, merged: IndexSet, exprs: seq<Name>)
    requires InRange(a, exprs) && InRange(b, exprs) && StrictlyIncreasing(merged)
    requires Elements(merged) == Elements(a) + Elements(b)
    ensures Stands(merged, Named(a, exprs) + Named(b, exprs), exprs)
  {
    ElementsOfJoin(a, b);
    NamedByElements(a + b, merged, exprs);
    NamedJoin(a, b, exprs);
  }
}
