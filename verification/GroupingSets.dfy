/** Grouping sets: normalising, and expanding CUBE and ROLLUP over slices that may share their
    arrays (parser/transform_select.go:484-499, 591-623). */
module GroupingSets {

  // A grouping set: indexes into the list of group expressions.
  type IndexSet = seq<nat>

  predicate StrictlyIncreasing(s: IndexSet) { forall i, j :: 0 <= i < j < |s| ==> s[i] < s[j] }

  ghost function Elements<T>(s: seq<T>): set<T> { set x | x in s }

  lemma ElementsOfJoin<T>(a: seq<T>, b: seq<T>)
    ensures Elements(a + b) == Elements(a) + Elements(b)
  {
  }

  /** A set has one strictly increasing listing. */
  lemma {:induction false} OneListing(a: IndexSet, b: IndexSet)
    requires StrictlyIncreasing(a) && StrictlyIncreasing(b) && Elements(a) == Elements(b)
    ensures a == b
  {
    if a != [] {
      assert a[0] in Elements(b);
    }
    if b != [] {
      assert b[0] in Elements(a);
    }
    if a != [] && b != [] {
      assert a[0] == b[0];
      TailElements(a);
      TailElements(b);
      OneListing(a[1..], b[1..]);
      assert a == [a[0]] + a[1..] && b == [b[0]] + b[1..];
    }
  }

  lemma TailElements(a: IndexSet)
    requires StrictlyIncreasing(a) && a != []
    ensures StrictlyIncreasing(a[1..]) && Elements(a[1..]) == Elements(a) - {a[0]}
  {
    assert a == [a[0]] + a[1..];
    ElementsOfJoin([a[0]], a[1..]);
    assert forall x :: x in a[1..] ==> x > a[0];
  }

  // ----- normalizeSet -----

  predicate Ascending(s: IndexSet) { forall i, j :: 0 <= i < j < |s| ==> s[i] <= s[j] }

  function Insert(x: nat, s: IndexSet): IndexSet {
    if s == [] || x <= s[0] then [x] + s else [s[0]] + Insert(x, s[1..])
  }

  /** sort.Ints. */
  function Sort(s: IndexSet): IndexSet {
    if s == [] then [] else Insert(s[0], Sort(s[1..]))
  }

  lemma {:induction false} InsertHolds(x: nat, s: IndexSet)
    ensures Elements(Insert(x, s)) == Elements([x]) + Elements(s)
  {
    if s == [] || x <= s[0] {
      ElementsOfJoin([x], s);
    } else {
      InsertHolds(x, s[1..]);
      ElementsOfJoin([s[0]], Insert(x, s[1..]));
      ElementsOfJoin([s[0]], s[1..]);
      assert s == [s[0]] + s[1..];
    }
  }

  lemma {:induction false} InsertAscends(x: nat, s: IndexSet)
    requires Ascending(s)
    ensures Ascending(Insert(x, s))
  {
    if s != [] && x > s[0] {
      var t := Insert(x, s[1..]);
      InsertAscends(x, s[1..]);
      InsertHolds(x, s[1..]);
      forall k | 0 <= k < |t|
        ensures s[0] <= t[k]
      {
        assert t[k] in Elements([x]) + Elements(s[1..]);
      }
    }
  }

  lemma {:induction false} SortKeeps(s: IndexSet)
    ensures Ascending(Sort(s)) && Elements(Sort(s)) == Elements(s)
  {
    if s != [] {
      SortKeeps(s[1..]);
      InsertHolds(s[0], Sort(s[1..]));
      InsertAscends(s[0], Sort(s[1..]));
      ElementsOfJoin([s[0]], s[1..]);
      assert s == [s[0]] + s[1..];
    }
  }

  /** normalizeSet: the same elements, strictly increasing. */
  method NormalizeSet(s: IndexSet) returns (out: IndexSet)
    ensures StrictlyIncreasing(out) && Elements(out) == Elements(s)
  {
    var sorted := Sort(s);
    SortKeeps(s);
    out := [];
    for i := 0 to |sorted|
      invariant StrictlyIncreasing(out) && Elements(out) == Elements(sorted[..i])
      invariant forall x :: x in out ==> i > 0 && x <= sorted[i - 1]
    {
      assert sorted[..i + 1] == sorted[..i] + [sorted[i]];
      assert forall k :: 0 <= k < |out| ==> out[k] in out;
      ElementsOfJoin(out, [sorted[i]]);
      ElementsOfJoin(sorted[..i], [sorted[i]]);
      if i == 0 || sorted[i] != sorted[i - 1] {
        out := out + [sorted[i]];
      }
    }
    assert sorted[..|sorted|] == sorted;
  }

  /** mergeSet: the union. */
  method MergeSet(a: IndexSet, b: IndexSet) returns (out: IndexSet)
    ensures StrictlyIncreasing(out) && Elements(out) == Elements(a) + Elements(b)
  {
    ElementsOfJoin(a, b);
    out := NormalizeSet(a + b);
  }

  // ----- slices -----

  /** The first `len` cells of an array that other slices may share. */
  datatype Slice = Slice(cells: array<nat>, len: nat)

  ghost predicate Fits(s: Slice)
    reads s.cells
  {
    s.len <= s.cells.Length
  }

  function Contents(s: Slice): IndexSet
    requires Fits(s)
    reads s.cells
  {
    s.cells[..s.len]
  }

  /** A larger array with the slice's contents in front; how much room it has beyond what is asked
      for is anybody's guess, each time anew. */
  method Enlarge(s: Slice, n: nat) returns (cells: array<nat>)
    requires Fits(s) && s.len <= n
    ensures fresh(cells) && n <= cells.Length && cells[..s.len] == Contents(s)
  {
    var spare: nat :| spare >= 0;
    cells := new nat[n + spare];
    for k := 0 to s.len
      invariant cells[..k] == s.cells[..k]
    {
      cells[k] := s.cells[k];
    }
  }

  /** xs written into the cells from `at` on. */
  method Fill(cells: array<nat>, at: nat, xs: IndexSet)
    requires at + |xs| <= cells.Length
    modifies cells
    ensures cells[..at] == old(cells[..at]) && cells[at..at + |xs|] == xs
    ensures forall k :: at + |xs| <= k < cells.Length ==> cells[k] == old(cells[k])
  {
    for k := 0 to |xs|
      invariant forall j :: 0 <= j < k ==> cells[at + j] == xs[j]
      invariant forall j :: 0 <= j < at || at + k <= j < cells.Length ==> cells[j] == old(cells[j])
    {
      cells[at + k] := xs[k];
    }
  }

  /** append(s, xs...): in place when the array has room, else in a larger copy. */
  method Append(s: Slice, xs: IndexSet) returns (r: Slice)
    requires Fits(s)
    modifies s.cells
    ensures Fits(r) && (r.cells == s.cells || fresh(r.cells)) && r.len >= s.len
    ensures Contents(r) == old(Contents(s)) + xs
    ensures Contents(s) == old(Contents(s))
    ensures r.cells == s.cells ==> forall k :: r.len <= k < s.cells.Length ==> s.cells[k] == old(s.cells[k])
  {
    var n := s.len + |xs|;
    var target := s.cells;
    if n > s.cells.Length {
      target := Enlarge(s, n);
    }
    Fill(target, s.len, xs);
    r := Slice(target, n);
    InTwo(target[..], s.len, n);
  }

  lemma InTwo(s: IndexSet, cut: nat, n: nat)
    requires cut <= n <= |s|
    ensures s[..n] == s[..cut] + s[cut..n]
  {
  }

  // ----- CUBE -----

  /** The walk from `from` with a prefix: the prefix, then every further choice. */
  function Walked(prefix: IndexSet, units: seq<IndexSet>, from: nat): seq<IndexSet>
    requires from <= |units|
    decreases |units| - from, 1
  {
    [prefix] + WalkedFrom(prefix, units, from)
  }

  function WalkedFrom(prefix: IndexSet, units: seq<IndexSet>, i: nat): seq<IndexSet>
    requires i <= |units|
    decreases |units| - i, 0
  {
    if i == |units| then [] else Walked(prefix + units[i], units, i + 1) + WalkedFrom(prefix, units, i + 1)
  }

  class CubeWalker {
    const units: seq<IndexSet>
    var out: seq<IndexSet>

    constructor (units: seq<IndexSet>)
      ensures this.units == units && out == []
    {
      this.units, out := units, [];
    }

    /** walk: siblings reuse the array their prefix lives in, and still every set comes out
        as if each call had its own copy. */
    method Walk(prefix: Slice, from: nat)
      requires from <= |units| && Fits(prefix)
      modifies this, prefix.cells
      ensures out == old(out) + Walked(old(Contents(prefix)), units, from)
      ensures Fits(prefix) && Contents(prefix) == old(Contents(prefix))
      decreases |units| - from
    {
      ghost var p := Contents(prefix);
      out := out + [Contents(prefix)];
      ghost var all := out + WalkedFrom(p, units, from);
      for i := from to |units|
        invariant Contents(prefix) == p && out + WalkedFrom(p, units, i) == all
      {
        var longer := Append(prefix, units[i]);
        ghost var before := out;
        Walk(longer, i + 1);
        assert Contents(prefix) == p by {
          if longer.cells == prefix.cells {
            assert Contents(prefix) == Contents(longer)[..prefix.len];
          }
        }
        assert out + WalkedFrom(p, units, i + 1) == before + WalkedFrom(p, units, i);
      }
      assert WalkedFrom(p, units, |units|) == [];
      assert out == all == old(out) + ([p] + WalkedFrom(p, units, from));
    }
  }

  /** cubeSets. */
  method CubeSets(units: seq<IndexSet>) returns (out: seq<IndexSet>)
    ensures out == Walked([], units, 0)
  {
    var w := new CubeWalker(units);
    var empty := new nat[0];
    w.Walk(Slice(empty, 0), 0);
    out := w.out;
  }

  /** The choices of indexes from `from` below n, as lists. */
  function Choices(from: nat, n: nat): (r: seq<seq<nat>>)
    requires from <= n
    ensures r != [] && r[0] == []
    decreases n - from, 1
  {
    [[]] + NonEmptyChoices(from, n)
  }

  function NonEmptyChoices(i: nat, n: nat): seq<seq<nat>>
    requires i <= n
    decreases n - i, 0
  {
    if i == n then [] else EachAfter(i, Choices(i + 1, n)) + NonEmptyChoices(i + 1, n)
  }

  function EachAfter(i: nat, cs: seq<seq<nat>>): (r: seq<seq<nat>>)
    ensures |r| == |cs| && forall k :: 0 <= k < |cs| ==> r[k] == [i] + cs[k]
  {
    seq(|cs|, k requires 0 <= k < |cs| => [i] + cs[k])
  }

  /** Choices of indexes from i on, the first of them at i or later. */
  predicate ChoiceFrom(c: seq<nat>, i: nat, n: nat) {
    StrictlyIncreasing(c) && forall k :: 0 <= k < |c| ==> i <= c[k] < n
  }

  /** Order of the listing: a list before its extensions, then by the first difference. */
  predicate Before(a: seq<nat>, b: seq<nat>) {
    if a == [] then b != []
    else b != [] && (a[0] < b[0] || (a[0] == b[0] && Before(a[1..], b[1..])))
  }

  predicate Listed(cs: seq<seq<nat>>) { forall i, j :: 0 <= i < j < |cs| ==> Before(cs[i], cs[j]) }

  lemma {:induction false} BeforeIsStrict(a: seq<nat>)
    ensures !Before(a, a)
  {
    if a != [] {
      BeforeIsStrict(a[1..]);
    }
  }

  function Power2(k: nat): nat { if k == 0 then 1 else 2 * Power2(k - 1) }

  /** Every choice once: 2^(n - from) lists in the order above, all and only the choices. */
  lemma {:induction false} ChoicesComplete(from: nat, n: nat)
    requires from <= n
    ensures |Choices(from, n)| == Power2(n - from)
    ensures Listed(Choices(from, n))
    ensures forall c :: c in Choices(from, n) <==> ChoiceFrom(c, from, n)
    decreases n - from, 1
  {
    NonEmptyComplete(from, n);
    var cs, rest := Choices(from, n), NonEmptyChoices(from, n);
    forall i, j | 0 <= i < j < |cs|
      ensures Before(cs[i], cs[j])
    {
      assert cs[j] == rest[j - 1] && cs[j] in rest;
      if i > 0 {
        assert cs[i] == rest[i - 1];
      }
    }
    forall c
      ensures c in cs <==> ChoiceFrom(c, from, n)
    {
      assert c in cs <==> c == [] || c in rest;
    }
  }

  lemma {:induction false} NonEmptyComplete(i: nat, n: nat)
    requires i <= n
    ensures |NonEmptyChoices(i, n)| == Power2(n - i) - 1
    ensures Listed(NonEmptyChoices(i, n))
    ensures forall c :: c in NonEmptyChoices(i, n) <==> c != [] && ChoiceFrom(c, i, n)
    decreases n - i, 0
  {
    if i == n {
      forall c: seq<nat>
        ensures c != [] ==> !ChoiceFrom(c, n, n)
      {
        var first := if c == [] then 0 else c[0];
      }
    } else {
      var tails := Choices(i + 1, n);
      ChoicesComplete(i + 1, n);
      NonEmptyComplete(i + 1, n);
      var with, without := EachAfter(i, tails), NonEmptyChoices(i + 1, n);
      ListedAfter(i, tails);
      assert Listed(with + without) by {
        ListedTogether(i, with, without);
      }
      forall c
        ensures c in with + without <==> c != [] && ChoiceFrom(c, i, n)
      {
        FirstChosen(c, i, n, tails);
      }
    }
  }

  lemma ListedAfter(i: nat, cs: seq<seq<nat>>)
    requires Listed(cs)
    ensures Listed(EachAfter(i, cs))
  {
    var r := EachAfter(i, cs);
    forall a, b | 0 <= a < b < |r|
      ensures Before(r[a], r[b])
    {
      assert r[a][1..] == cs[a] && r[b][1..] == cs[b];
    }
  }

  lemma ListedTogether(i: nat, a: seq<seq<nat>>, b: seq<seq<nat>>)
    requires Listed(a) && Listed(b)
    requires forall c :: c in a ==> c != [] && c[0] == i
    requires forall c :: c in b ==> c != [] && c[0] > i
    ensures Listed(a + b)
  {
    var r := a + b;
    forall x, y | 0 <= x < y < |r|
      ensures Before(r[x], r[y])
    {
      if x < |a| {
        assert r[x] in a;
        if y >= |a| {
          assert r[y] in b;
        }
      }
    }
  }

  /** A non-empty choice takes index i first, or starts later. */
  lemma FirstChosen(c: seq<nat>, i: nat, n: nat, tails: seq<seq<nat>>)
    requires i < n && forall t :: t in tails <==> ChoiceFrom(t, i + 1, n)
    ensures c != [] && ChoiceFrom(c, i, n) <==> c in EachAfter(i, tails) || (c != [] && ChoiceFrom(c, i + 1, n))
  {
    if c != [] && ChoiceFrom(c, i, n) && c[0] == i {
      assert ChoiceFrom(c[1..], i + 1, n);
      assert c[1..] in tails;
      var k :| 0 <= k < |tails| && tails[k] == c[1..];
      assert EachAfter(i, tails)[k] == c;
    }
    if c in EachAfter(i, tails) {
      var k :| 0 <= k < |tails| && EachAfter(i, tails)[k] == c;
      assert tails[k] in tails;
    }
  }

  /** The units a choice names, joined. */
  function Joined(units: seq<IndexSet>, c: seq<nat>): IndexSet
    requires forall k :: 0 <= k < |c| ==> c[k] < |units|
  {
    if c == [] then [] else units[c[0]] + Joined(units, c[1..])
  }

  /** CUBE lists the union of every choice of units once, in the order above. */
  lemma {:induction false} WalkIsEveryChoice(prefix: IndexSet, units: seq<IndexSet>, from: nat)
    requires from <= |units|
    ensures
      var cs, w := Choices(from, |units|), Walked(prefix, units, from);
      && |w| == |cs|
      && forall k :: 0 <= k < |cs| ==> ChoiceFrom(cs[k], from, |units|) && w[k] == prefix + Joined(units, cs[k])
    decreases |units| - from, 1
  {
    WalkIsEveryNonEmptyChoice(prefix, units, from);
    var cs := Choices(from, |units|);
    forall k | 0 <= k < |cs|
      ensures ChoiceFrom(cs[k], from, |units|) && Walked(prefix, units, from)[k] == prefix + Joined(units, cs[k])
    {
      if k == 0 {
        assert prefix + [] == prefix;
      } else {
        assert cs[k] == NonEmptyChoices(from, |units|)[k - 1];
      }
    }
  }

  lemma {:induction false} WalkIsEveryNonEmptyChoice(prefix: IndexSet, units: seq<IndexSet>, i: nat)
    requires i <= |units|
    ensures
      var cs, w := NonEmptyChoices(i, |units|), WalkedFrom(prefix, units, i);
      && |w| == |cs|
      && forall k :: 0 <= k < |cs| ==> ChoiceFrom(cs[k], i, |units|) && w[k] == prefix + Joined(units, cs[k])
    decreases |units| - i, 0
  {
    if i < |units| {
      var tails := Choices(i + 1, |units|);
      WalkIsEveryChoice(prefix + units[i], units, i + 1);
      WalkIsEveryNonEmptyChoice(prefix, units, i + 1);
      var with := EachAfter(i, tails);
      forall k | 0 <= k < |with|
        ensures ChoiceFrom(with[k], i, |units|)
        ensures Walked(prefix + units[i], units, i + 1)[k] == prefix + Joined(units, with[k])
      {
        assert with[k] == [i] + tails[k];
        UnitFirst(prefix, units, i, tails[k]);
      }
    }
  }

  lemma UnitFirst(prefix: IndexSet, units: seq<IndexSet>, i: nat, tail: seq<nat>)
    requires i < |units| && ChoiceFrom(tail, i + 1, |units|)
    ensures ChoiceFrom([i] + tail, i, |units|)
    ensures prefix + Joined(units, [i] + tail) == prefix + units[i] + Joined(units, tail)
  {
    assert ([i] + tail)[1..] == tail;
    assert prefix + (units[i] + Joined(units, tail)) == prefix + units[i] + Joined(units, tail);
  }

  // ----- ROLLUP -----

  function AllJoined(units: seq<IndexSet>): IndexSet {
    if units == [] then [] else AllJoined(units[..|units| - 1]) + units[|units| - 1]
  }

  /** rollupSets: the joined prefixes of the units, from none to all. */
  method RollupSets(units: seq<IndexSet>) returns (out: seq<IndexSet>)
    ensures |out| == |units| + 1 && forall k :: 0 <= k <= |units| ==> out[k] == AllJoined(units[..k])
  {
    out := [[]];
    var empty := new nat[0];
    var prefix := Slice(empty, 0);
    for i := 0 to |units|
      invariant fresh(prefix.cells) && Fits(prefix) && Contents(prefix) == AllJoined(units[..i])
      invariant |out| == i + 1 && forall k :: 0 <= k <= i ==> out[k] == AllJoined(units[..k])
    {
      prefix := Append(prefix, units[i]);
      assert units[..i + 1][..i] == units[..i];
      out := out + [Contents(prefix)];
    }
  }
}
