/** Statement parameters: numbering them and naming them (parser/transform.go:133-171,
    ast/expr.go:95-137). */
module Parameters {
  import opened Decimal

  const INT64_MAX := 0x7FFF_FFFF_FFFF_FFFF
  const INT64_MIN := -INT64_MAX - 1

  type Int64 = i: int | INT64_MIN <= i <= INT64_MAX

  /** ?, ?n or $n, and $name. */
  datatype Use = Anonymous | Explicit(n: Int64) | Named(name: string)

  // ----- itoa -----

  /** What itoa gives: negating the smallest integer leaves it negative, and no digit is written. */
  function Itoa(n: Int64): string {
    if n == INT64_MIN then "-" else IntegerString(n)
  }

  /** The text of a number reads as its value, but for the smallest. */
  lemma ItoaReads(n: Int64)
    ensures n >= 0 ==> NoLeadingZero(Itoa(n)) && Value(Itoa(n)) == n
    ensures INT64_MIN < n < 0 ==> Itoa(n)[0] == '-' && NoLeadingZero(Itoa(n)[1..]) && Value(Itoa(n)[1..]) == -n
    ensures n == INT64_MIN ==> Itoa(n) == "-"
  {
    if n >= 0 {
      ValueOfNumeral(n);
      NumeralStartsClean(n);
    } else if n != INT64_MIN {
      ValueOfNumeral(-n);
      NumeralStartsClean(-n);
      assert Itoa(n)[1..] == Numeral(-n);
    }
  }

  lemma ItoaInjective(a: Int64, b: Int64)
    requires Itoa(a) == Itoa(b)
    ensures a == b
  {
    if a != INT64_MIN {
      LongerThanSign(a);
    }
    if b != INT64_MIN {
      LongerThanSign(b);
    }
    if a != INT64_MIN && b != INT64_MIN {
      RenderingsDiffer(a, b);
    }
  }

  lemma LongerThanSign(n: Int64)
    requires n != INT64_MIN
    ensures Itoa(n) != "-"
  {
    if n < 0 {
      assert |Itoa(n)| == 1 + |Numeral(-n)|;
    } else {
      assert IsDigit(Numeral(n)[0]);
    }
  }

  function Negate64(n: Int64): Int64 { if n == INT64_MIN then n else -n }

  /** Digits from the right, into a fixed buffer. */
  method RenderItoa(number: Int64) returns (s: string)
    ensures s == Itoa(number)
  {
    var n: Int64 := number;
    if n == 0 {
      return "0";
    }
    var neg := n < 0;
    if neg {
      n := Negate64(n);
    }
    var buf := new char[24];
    var i := WriteDigits(buf, n);
    if neg {
      i := PutBefore(buf, i, '-');
    }
    return buf[i..];
  }

  method WriteDigits(buf: array<char>, number: Int64) returns (i: nat)
    requires buf.Length == 24
    modifies buf
    ensures 0 < i <= 24 && buf[i..] == if number > 0 then Numeral(number) else ""
  {
    var n := number;
    i := 24;
    ghost var digits := if n > 0 then Numeral(n) else "";
    if n > 0 {
      assert Pow10(9) == 1_000_000_000 && Pow10(14) == 100_000_000_000_000 && Pow10(19) == 10_000_000_000_000_000_000;
      NumeralLength(n, 19);
    }
    while n > 0
      invariant 24 - |digits| <= i <= 24
      invariant digits == (if n > 0 then Numeral(n) else "") + buf[i..]
      decreases n
    {
      DigitMoved(n, buf[i..]);
      i := PutBefore(buf, i, DigitChar(n % 10));
      n := n / 10;
    }
  }

  method PutBefore(buf: array<char>, i: nat, c: char) returns (j: nat)
    requires 0 < i <= buf.Length
    modifies buf
    ensures j == i - 1 && buf[j..] == [c] + old(buf[i..])
  {
    j := i - 1;
    buf[j] := c;
  }

  lemma DigitMoved(n: nat, rest: string)
    requires n > 0
    ensures (if n / 10 > 0 then Numeral(n / 10) else "") + ([DigitChar(n % 10)] + rest) == Numeral(n) + rest
  {
  }

  // ----- registerParam -----

  datatype Registry = Registry(count: Int64, seen: map<string, Int64>, order: seq<string>)

  const EMPTY := Registry(0, map[], [])

  function Increment(n: Int64): Int64 { if n == INT64_MAX then INT64_MIN else n + 1 }

  function NumberFor(r: Registry, u: Use): Int64 {
    match u
    case Anonymous => Increment(r.count)
    case Explicit(n) => n
    case Named(name) => if name in r.seen then r.seen[name] else Increment(r.count)
  }

  function CountAfter(r: Registry, u: Use): Int64 {
    match u
    case Anonymous => Increment(r.count)
    case Explicit(n) => if n > r.count then n else r.count
    case Named(name) => if name in r.seen then r.count else Increment(r.count)
  }

  function IdentifierOf(u: Use, number: Int64): string {
    if u.Named? then u.name else Itoa(number)
  }

  function Registered(r: Registry, u: Use): Registry {
    var number := NumberFor(r, u);
    var id := IdentifierOf(u, number);
    if id in r.seen then r.(count := CountAfter(r, u))
    else Registry(CountAfter(r, u), r.seen[id := number], r.order + [id])
  }

  class Parameter {
    const use: Use
    var number: Int64

    constructor (use: Use)
      ensures this.use == use && (use.Explicit? ==> number == use.n)
    {
      this.use, number := use, if use.Explicit? then use.n else 0;
    }

    method Identifier() returns (id: string)
      ensures id == IdentifierOf(use, number)
    {
      if use.Named? {
        return use.name;
      }
      id := RenderItoa(number);
    }
  }

  class TransformContext {
    var paramCount: Int64
    var paramSeen: map<string, Int64>
    var paramOrder: seq<string>
    var hasPosition: bool
    var hasNamed: bool

    constructor ()
      ensures Contents() == EMPTY && !hasPosition && !hasNamed
    {
      paramCount, paramSeen, paramOrder, hasPosition, hasNamed := 0, map[], [], false, false;
    }

    function Contents(): Registry
      reads this
    {
      Registry(paramCount, paramSeen, paramOrder)
    }

    method RegisterParam(p: Parameter)
      requires p.use.Explicit? ==> p.number == p.use.n
      modifies this, p
      ensures p.number == NumberFor(old(Contents()), p.use)
      ensures Contents() == Registered(old(Contents()), p.use)
      ensures hasPosition == (old(hasPosition) || !p.use.Named?) && hasNamed == (old(hasNamed) || p.use.Named?)
    {
      match p.use {
        case Anonymous =>
          hasPosition := true;
          paramCount := Increment(paramCount);
          p.number := paramCount;
        case Explicit(_) =>
          hasPosition := true;
          if p.number > paramCount {
            paramCount := p.number;
          }
        case Named(name) =>
          hasNamed := true;
          if name in paramSeen {
            p.number := paramSeen[name];
          } else {
            paramCount := Increment(paramCount);
            p.number := paramCount;
          }
      }
      var id := p.Identifier();
      if id !in paramSeen {
        paramSeen := paramSeen[id := p.number];
        paramOrder := paramOrder + [id];
      }
    }
  }

  // ----- whole runs -----

  /** The registry after registering us in order. */
  function After(us: seq<Use>): Registry {
    if us == [] then EMPTY else Registered(After(us[..|us| - 1]), us[|us| - 1])
  }

  /** The number the i-th parameter gets. */
  function NumberAt(us: seq<Use>, i: nat): Int64
    requires i < |us|
  {
    NumberFor(After(us[..i]), us[i])
  }

  function IdAt(us: seq<Use>, i: nat): string
    requires i < |us|
  {
    IdentifierOf(us[i], NumberAt(us, i))
  }

  ghost predicate OrderMatches(r: Registry) {
    && (forall i, j :: 0 <= i < j < |r.order| ==> r.order[i] != r.order[j])
    && (forall x :: x in r.order <==> x in r.seen)
  }

  /** The first k parameters include one of this identifier. */
  predicate UsedBefore(us: seq<Use>, k: nat, id: string)
    requires k <= |us|
  {
    exists i :: 0 <= i < k && IdAt(us, i) == id
  }

  /** The order of first use lists every identifier used once, whatever is registered, and each
      before those used only later. */
  lemma {:induction false} OrderIsFirstUse(us: seq<Use>)
    ensures OrderMatches(After(us))
    ensures forall x :: x in After(us).order <==> UsedBefore(us, |us|, x)
    ensures forall a, b :: 0 <= a < b < |After(us).order| ==>
      UsedEarlier(us, |us|, After(us).order[a], After(us).order[b])
  {
    OrderUpTo(us, |us|);
    assert us[..|us|] == us;
  }

  /** A registry as the first n parameters leave it. */
  ghost predicate InOrderOfUse(us: seq<Use>, n: nat, r: Registry)
    requires n <= |us|
  {
    && OrderMatches(r) && (forall x :: x in r.order <==> UsedBefore(us, n, x))
    && forall a, b :: 0 <= a < b < |r.order| ==> UsedEarlier(us, n, r.order[a], r.order[b])
  }

  lemma {:induction false} OrderUpTo(us: seq<Use>, n: nat)
    requires n <= |us|
    ensures InOrderOfUse(us, n, After(us[..n]))
    decreases n
  {
    if n > 0 {
      OrderUpTo(us, n - 1);
      OrderGrows(us, n - 1);
      OneMoreUse(us, n, After(us[..n - 1]), After(us[..n]));
    }
  }

  lemma {:induction false} OneMoreUse(us: seq<Use>, n: nat, r: Registry, next: Registry)
    requires 0 < n <= |us| && InOrderOfUse(us, n - 1, r)
    requires forall x :: x in next.seen <==> x in r.seen || x == IdAt(us, n - 1)
    requires next.order == if IdAt(us, n - 1) in r.seen then r.order else r.order + [IdAt(us, n - 1)]
    ensures InOrderOfUse(us, n, next)
  {
    OrderStillMatches(r, next, IdAt(us, n - 1));
    UsedOneMore(us, n - 1);
    EarlierGrows(us, n, r.order, next.order);
  }

  lemma {:induction false} OrderStillMatches(r: Registry, next: Registry, id: string)
    requires OrderMatches(r) && (forall x :: x in next.seen <==> x in r.seen || x == id)
    requires next.order == if id in r.seen then r.order else r.order + [id]
    ensures OrderMatches(next) && forall x :: x in next.order <==> x in r.order || x == id
  {
    if id !in r.seen {
      forall i, j | 0 <= i < j < |next.order|
        ensures next.order[i] != next.order[j]
      {
        assert next.order[i] in r.order;
      }
    }
  }

  /** A registration records its identifier, last in the order unless it has its place. */
  lemma {:induction false} OrderGrows(us: seq<Use>, k: nat)
    requires k < |us|
    ensures
      var r, n, id := After(us[..k]), After(us[..k + 1]), IdAt(us, k);
      && (forall x :: x in n.seen <==> x in r.seen || x == id)
      && n.order == if id in r.seen then r.order else r.order + [id]
  {
    StepOf(us, k);
  }

  lemma {:induction false} EarlierGrows(us: seq<Use>, n: nat, before: seq<string>, order: seq<string>)
    requires 0 < n <= |us| && forall x :: x in before ==> UsedBefore(us, n - 1, x)
    requires order == before || (order == before + [IdAt(us, n - 1)] && !UsedBefore(us, n - 1, IdAt(us, n - 1)))
    requires forall a, b :: 0 <= a < b < |before| ==> UsedEarlier(us, n - 1, before[a], before[b])
    ensures forall a, b :: 0 <= a < b < |order| ==> UsedEarlier(us, n, order[a], order[b])
  {
    forall a, b | 0 <= a < b < |order|
      ensures UsedEarlier(us, n, order[a], order[b])
    {
      if b < |before| {
        assert UsedEarlier(us, n - 1, before[a], before[b]);
      } else {
        assert before[a] in before && UsedBefore(us, n - 1, before[a]);
      }
    }
  }

  /** At some time among the first n parameters one identifier has been used and the other not. */
  predicate UsedEarlier(us: seq<Use>, n: nat, x: string, y: string)
    requires n <= |us|
  {
    exists k :: 0 <= k < n && UsedBefore(us, k, x) && !UsedBefore(us, k, y)
  }

  lemma UsedOneMore(us: seq<Use>, k: nat)
    requires k < |us|
    ensures forall x :: UsedBefore(us, k + 1, x) <==> UsedBefore(us, k, x) || x == IdAt(us, k)
  {
    forall x
      ensures UsedBefore(us, k + 1, x) <==> UsedBefore(us, k, x) || x == IdAt(us, k)
    {
      if UsedBefore(us, k, x) {
        var i :| 0 <= i < k && IdAt(us, i) == x;
        assert 0 <= i < k + 1;
      }
    }
  }

  /** What is recorded stays recorded. */
  lemma {:induction false} RecordsStay(us: seq<Use>, k: nat, id: string)
    requires k <= |us| && id in After(us[..k]).seen
    ensures id in After(us).seen && After(us).seen[id] == After(us[..k]).seen[id]
    decreases |us| - k
  {
    if k == |us| {
      assert us[..k] == us;
    } else {
      StepOf(us, k);
      RecordsStay(us, k + 1, id);
    }
  }

  lemma StepOf(us: seq<Use>, k: nat)
    requires k < |us|
    ensures After(us[..k + 1]) == Registered(After(us[..k]), us[k])
  {
    assert us[..k + 1][..k] == us[..k];
  }

  // ----- numbers against records -----

  /** The i-th parameter's number is the recorded index of its identifier. */
  predicate Recorded(us: seq<Use>, i: nat)
    requires i < |us|
  {
    IdAt(us, i) in After(us).seen && After(us).seen[IdAt(us, i)] == NumberAt(us, i)
  }

  predicate AllRecorded(us: seq<Use>) { forall i :: 0 <= i < |us| ==> Recorded(us, i) }

  /** A name that spells the number a later positional parameter gets, at another number. */
  predicate Clash(us: seq<Use>, i: nat, j: nat)
    requires i < |us| && j < |us|
  {
    && us[i].Named? && !us[j].Named? && us[i].name == Itoa(NumberAt(us, j))
    && NumberAt(us, i) != NumberAt(us, j)
  }

  predicate NoClash(us: seq<Use>) { forall i, j :: 0 <= i < j < |us| ==> !Clash(us, i, j) }

  /** What is recorded after a registration was recorded before it or by it. */
  lemma {:induction false} RecordedNow(us: seq<Use>, k: nat, id: string)
    requires k < |us| && id in After(us[..k + 1]).seen
    ensures id in After(us[..k]).seen ==> After(us[..k + 1]).seen[id] == After(us[..k]).seen[id]
    ensures id !in After(us[..k]).seen ==> id == IdAt(us, k) && After(us[..k + 1]).seen[id] == NumberAt(us, k)
  {
    StepOf(us, k);
  }

  /** Whatever is recorded was recorded by a parameter. */
  lemma {:induction false} RecorderOf(us: seq<Use>, k: nat, id: string) returns (f: nat)
    requires k <= |us| && id in After(us[..k]).seen
    ensures f < k && IdAt(us, f) == id && After(us[..k]).seen[id] == NumberAt(us, f)
    decreases k
  {
    assert k > 0;
    RecordedNow(us, k - 1, id);
    if id in After(us[..k - 1]).seen {
      f := RecorderOf(us, k - 1, id);
    } else {
      f := k - 1;
    }
  }

  /** The parameter that recorded the i-th one's identifier. */
  lemma FirstRecorder(us: seq<Use>, i: nat) returns (f: nat)
    requires i < |us|
    ensures f <= i && IdAt(us, f) == IdAt(us, i)
    ensures IdAt(us, i) in After(us).seen && After(us).seen[IdAt(us, i)] == NumberAt(us, f)
  {
    var id := IdAt(us, i);
    OwnIdentifier(us, i);
    f := RecorderOf(us, i + 1, id);
    RecordsStay(us, i + 1, id);
  }

  /** A parameter's identifier is recorded when it has been registered. */
  lemma OwnIdentifier(us: seq<Use>, i: nat)
    requires i < |us|
    ensures IdAt(us, i) in After(us[..i + 1]).seen
  {
    StepOf(us, i);
  }

  /** A parameter that is not the first of its identifier is recorded if it has the first one's
      number; a name always has. */
  lemma NamedIsRecorded(us: seq<Use>, i: nat)
    requires i < |us| && us[i].Named?
    ensures Recorded(us, i)
  {
    StepOf(us, i);
    RecordsStay(us, i + 1, us[i].name);
  }

  lemma PositionalIsRecorded(us: seq<Use>, j: nat)
    requires j < |us| && !us[j].Named? && forall i :: 0 <= i < j ==> !Clash(us, i, j)
    ensures Recorded(us, j)
  {
    var f := FirstRecorder(us, j);
    if f < j {
      assert !Clash(us, f, j);
      if !us[f].Named? {
        ItoaInjective(NumberAt(us, f), NumberAt(us, j));
      }
    }
  }

  /** Over every run: every number is the recorded index of its identifier exactly when no name
      spells a later positional number that is not its own. */
  lemma AllRecordedIff(us: seq<Use>)
    ensures AllRecorded(us) <==> NoClash(us)
  {
    if AllRecorded(us) {
      forall i, j | 0 <= i < j < |us|
        ensures !Clash(us, i, j)
      {
        assert Recorded(us, i) && Recorded(us, j);
      }
    }
    if NoClash(us) {
      forall i | 0 <= i < |us|
        ensures Recorded(us, i)
      {
        if us[i].Named? {
          NamedIsRecorded(us, i);
        } else {
          PositionalIsRecorded(us, i);
        }
      }
    }
  }

  /** The same said of identifiers: parameters of one identifier have one number. */
  lemma SameIdentifierSameNumber(us: seq<Use>)
    ensures AllRecorded(us) <==>
      forall i, j :: 0 <= i < |us| && 0 <= j < |us| && IdAt(us, i) == IdAt(us, j) ==> NumberAt(us, i) == NumberAt(us, j)
  {
    if AllRecorded(us) {
      forall i, j | 0 <= i < |us| && 0 <= j < |us| && IdAt(us, i) == IdAt(us, j)
        ensures NumberAt(us, i) == NumberAt(us, j)
      {
        assert Recorded(us, i) && Recorded(us, j);
      }
    } else {
      var i :| 0 <= i < |us| && !Recorded(us, i);
      var f := FirstRecorder(us, i);
    }
  }

  // ----- the counter -----

  /** A ? or the first use of a name. */
  predicate Fresh(us: seq<Use>, k: nat)
    requires k < |us|
  {
    us[k].Anonymous? || (us[k].Named? && us[k].name !in After(us[..k]).seen)
  }

  /** No fresh parameter before k finds the counter at the end of its range. */
  predicate NeverWraps(us: seq<Use>, k: nat)
    requires k <= |us|
  {
    forall j :: 0 <= j < k && Fresh(us, j) ==> After(us[..j]).count < INT64_MAX
  }

  /** The counter is at least every number of the first k, and zero or one of them. */
  predicate Covers(us: seq<Use>, k: nat, r: Registry)
    requires k <= |us|
  {
    && r.count >= 0
    && (forall id :: id in r.seen ==> r.seen[id] <= r.count)
    && (forall i :: 0 <= i < k ==> NumberAt(us, i) <= r.count)
    && (r.count > 0 ==> exists i :: 0 <= i < k && NumberAt(us, i) == r.count)
  }

  /** So it is while it does not wrap. */
  lemma {:induction false} CounterCovers(us: seq<Use>, k: nat)
    requires k <= |us| && NeverWraps(us, k)
    ensures Covers(us, k, After(us[..k]))
    decreases k
  {
    if k > 0 {
      CounterCovers(us, k - 1);
      StepOf(us, k - 1);
      OneMoreCovered(us, k - 1, After(us[..k - 1]), NumberAt(us, k - 1));
    }
  }

  lemma OneMoreCovered(us: seq<Use>, k: nat, r: Registry, number: Int64)
    requires k < |us| && Covers(us, k, r) && number == NumberAt(us, k) == NumberFor(r, us[k])
    requires us[k].Anonymous? || (us[k].Named? && us[k].name !in r.seen) ==> r.count < INT64_MAX
    ensures Covers(us, k + 1, Registered(r, us[k]))
  {
    var after := Registered(r, us[k]).count;
    if after == number {
      assert exists i :: i == k && NumberAt(us, i) == after;
    } else if after > 0 {
      var i :| 0 <= i < k && NumberAt(us, i) == r.count;
    }
  }

  lemma {:induction false} FirstWrap(us: seq<Use>, k: nat) returns (j: nat)
    requires k <= |us| && !NeverWraps(us, k)
    ensures j < k && NeverWraps(us, j) && Fresh(us, j) && After(us[..j]).count == INT64_MAX
    decreases k
  {
    if NeverWraps(us, k - 1) {
      j := k - 1;
    } else {
      j := FirstWrap(us, k - 1);
    }
  }

  /** Where the counter first wraps, the largest number was given before and the smallest is now. */
  lemma WrapShows(us: seq<Use>) returns (i: nat, j: nat)
    requires !NeverWraps(us, |us|)
    ensures i < j < |us| && Fresh(us, j) && NumberAt(us, i) == INT64_MAX && NumberAt(us, j) == INT64_MIN
    ensures After(us[..j + 1]).count == INT64_MIN
  {
    j := FirstWrap(us, |us|);
    CounterCovers(us, j);
    StepOf(us, j);
    i :| 0 <= i < j && NumberAt(us, i) == After(us[..j]).count;
  }

  /** Over every run: each ? and each new name gets a number above every number before it,
      exactly when the counter never wraps. */
  lemma FreshIsLargerIff(us: seq<Use>)
    ensures NeverWraps(us, |us|) <==>
      forall i, j :: 0 <= i < j < |us| && Fresh(us, j) ==> NumberAt(us, i) < NumberAt(us, j)
  {
    if NeverWraps(us, |us|) {
      forall i, j | 0 <= i < j < |us| && Fresh(us, j)
        ensures NumberAt(us, i) < NumberAt(us, j)
      {
        CounterCovers(us, j);
      }
    } else {
      var i, j := WrapShows(us);
    }
  }

  /** While the counter does not wrap, a fresh number is the next one: all before it are smaller,
      and the one just below it, unless that is zero, was given. */
  lemma FreshIsNext(us: seq<Use>, k: nat)
    requires k < |us| && Fresh(us, k) && NeverWraps(us, k + 1)
    ensures NumberAt(us, k) >= 1 && forall i :: 0 <= i < k ==> NumberAt(us, i) < NumberAt(us, k)
    ensures NumberAt(us, k) > 1 ==> exists i :: 0 <= i < k && NumberAt(us, i) + 1 == NumberAt(us, k)
  {
    CounterCovers(us, k);
  }

  /** An explicit parameter has its own number; a name used again the number of its first use, or
      of what was recorded under it. */
  lemma GivenNumbers(us: seq<Use>, k: nat)
    requires k < |us|
    ensures us[k].Explicit? ==> NumberAt(us, k) == us[k].n
    ensures us[k].Named? && UsedBefore(us, k, us[k].name) ==>
      exists f :: 0 <= f < k && IdAt(us, f) == us[k].name && NumberAt(us, f) == NumberAt(us, k)
  {
    OrderUpTo(us, k);
    if us[k].Named? && UsedBefore(us, k, us[k].name) {
      var f := RecorderOf(us, k, us[k].name);
    }
  }

  /** The explicit numbers a parameter may have. */
  predicate PositiveNumbers(us: seq<Use>) { forall i :: 0 <= i < |us| && us[i].Explicit? ==> us[i].n > 0 }

  /** The counter is the largest of the first k numbers. */
  predicate CountsLargest(us: seq<Use>, k: nat)
    requires k <= |us|
  {
    && (forall i :: 0 <= i < k ==> NumberAt(us, i) <= After(us[..k]).count)
    && (k > 0 ==> exists i :: 0 <= i < k && NumberAt(us, i) == After(us[..k]).count)
  }

  /** Over every run: the counter is always the largest number given, exactly when it never wraps. */
  lemma CountIsLargestIff(us: seq<Use>)
    requires PositiveNumbers(us)
    ensures NeverWraps(us, |us|) <==> forall k :: 0 <= k <= |us| ==> CountsLargest(us, k)
  {
    if NeverWraps(us, |us|) {
      forall k | 0 <= k <= |us|
        ensures CountsLargest(us, k)
      {
        CounterCovers(us, k);
        if k > 0 {
          FirstNumberCounts(us, k);
        }
      }
    } else {
      var i, j := WrapShows(us);
      assert !CountsLargest(us, j + 1);
    }
  }

  lemma FirstNumberCounts(us: seq<Use>, k: nat)
    requires PositiveNumbers(us) && 0 < k <= |us| && NeverWraps(us, k)
    ensures After(us[..k]).count > 0
  {
    CounterCovers(us, k);
    assert us[..0] == [];
    assert NumberAt(us, 0) > 0;
  }

  /** A name that spells a number takes that number's place. */
  lemma NumeralNameClashes()
    ensures
      var us := [Named("2"), Explicit(2)];
      && NumberAt(us, 1) == 2 && IdAt(us, 1) == "2" && After(us).seen["2"] == 1
      && Clash(us, 0, 1) && !AllRecorded(us)
  {
    var us := [Named("2"), Explicit(2)];
    assert us[..0] == [] && us[..1] == [Named("2")] && us[..2] == us;
    assert After(us[..1]) == Registered(EMPTY, Named("2"));
    assert Numeral(2) == "2";
    StepOf(us, 1);
    assert !Recorded(us, 1);
  }

  /** The counter wraps after the largest explicit number: the next ? gets the smallest. */
  lemma CounterWraps()
    ensures
      var us := [Explicit(INT64_MAX), Anonymous];
      !NeverWraps(us, 2) && NumberAt(us, 1) == INT64_MIN
  {
    var us := [Explicit(INT64_MAX), Anonymous];
    assert us[..0] == [] && us[..1] == [Explicit(INT64_MAX)];
    assert After(us[..1]) == Registered(EMPTY, Explicit(INT64_MAX));
  }
}
