/** ANY and ALL: comparisons and regular expressions over the rows of a query or a list
    (parser/transform_expr.go:617-650, 722-844). */
module AnyAll {
  import opened SqlExpressions

  datatype Outcome = Done(e: Expr) | NotAComparison | Unsupported(op: string)

  function Negated(op: CmpOp): CmpOp {
    match op
    case Equal => NotEqual
    case NotEqual => Equal
    case LessThan => GreaterOrEqual
    case GreaterThan => LessOrEqual
    case LessOrEqual => GreaterThan
    case GreaterOrEqual => LessThan
  }

  datatype Maybe = Is(op: CmpOp) | IsNot

  function ComparisonOf(text: string): Maybe {
    if text == "=" || text == "==" then Is(Equal)
    else if text == "!=" || text == "<>" then Is(NotEqual)
    else if text == "<" then Is(LessThan)
    else if text == ">" then Is(GreaterThan)
    else if text == "<=" then Is(LessOrEqual)
    else if text == ">=" then Is(GreaterOrEqual)
    else IsNot
  }

  /** The regular-expression operators: negated or not, case-insensitive or not. */
  datatype RegexOp = Regex(negated: bool, insensitive: bool)

  predicate IsRegexOp(text: string) { text == "~" || text == "~*" || text == "!~" || text == "!~*" }

  function RegexOf(text: string): RegexOp
    requires IsRegexOp(text)
  {
    Regex(text == "!~" || text == "!~*", text == "~*" || text == "!~*")
  }

  function SourceOf(rhs: Expr): Source {
    if rhs.Scalar? then FromQuery(rhs.q) else Unnest(rhs)
  }

  /** transformAnyAll. */
  function TransformAnyAll(input: Expr, text: string, all: bool, rhs: Expr): Outcome {
    match ComparisonOf(text)
    case Is(op) =>
      if all then Done(Not(AnySubquery(input, Negated(op), SourceOf(rhs))))
      else Done(AnySubquery(input, op, SourceOf(rhs)))
    case IsNot =>
      if rhs.Scalar? then NotAComparison
      else if IsRegexOp(text) then Done(RegexAnyAll(input, rhs, RegexOf(text), all))
      else Unsupported(text)
  }

  const PATTERN := "__regex_pattern"
  const MATCH := "__regex_match"

  function MatchLambda(input: Expr, op: RegexOp): Expr {
    var args := [input, Column(PATTERN)] + (if op.insensitive then [Constant(Text("i"))] else []);
    var call := Call(RegexpMatches, args);
    Lambda(PATTERN, if op.negated then Not(call) else call)
  }

  /** regexAnyAll: true if some match decides, else NULL if some match is unknown, else the
      other truth value. */
  function RegexAnyAll(input: Expr, list: Expr, op: RegexOp, all: bool): Expr {
    RegexCase(Call(ListTransform, [list, MatchLambda(input, op)]), all)
  }

  function RegexCase(transformed: Expr, all: bool): Expr {
    var contains := Call(ListContains, [transformed, Constant(Bool(!all))]);
    Case([Check(contains, Constant(Bool(!all))), Check(AnyNull(transformed), Constant(Null))], Constant(Bool(all)))
  }

  function AnyNull(transformed: Expr): Expr {
    var filtered := Call(ListFilter, [transformed, Lambda(MATCH, IsNull(Column(MATCH)))]);
    Comparison(GreaterThan, Call(Len, [filtered]), Constant(Int(0)))
  }

  // ----- what ANY and ALL mean -----

  function MatchOne(w: World, op: RegexOp, x: Val, element: Val): Val {
    var m := Matches(w, x, element, op.insensitive);
    if op.negated then NotV(m) else m
  }

  function ElementsOf(w: World, env: Env, rhs: Expr): seq<Val> {
    if rhs.Scalar? then RowsOf(w, env, rhs.q) else Unnested(Eval(w, env, rhs))
  }

  /** x compared with every element: unknown where either is NULL. */
  function ComparedBy(x: Val, elements: seq<Val>, holds: (Val, Val) -> bool): (r: seq<Val>)
    ensures |r| == |elements|
    ensures forall i :: 0 <= i < |elements| ==>
      r[i] == if x == Null || elements[i] == Null then Null else Bool(holds(x, elements[i]))
  {
    seq(|elements|, i requires 0 <= i < |elements| =>
      if x == Null || elements[i] == Null then Null else Bool(holds(x, elements[i])))
  }

  /** x matched with every element: unknown where either is no text. */
  function MatchedBy(x: Val, elements: seq<Val>, matches: (string, string) -> bool): (r: seq<Val>)
    ensures |r| == |elements|
    ensures forall i :: 0 <= i < |elements| ==>
      r[i] == if x.Text? && elements[i].Text? then Bool(matches(x.s, elements[i].s)) else Null
  {
    seq(|elements|, i requires 0 <= i < |elements| =>
      if x.Text? && elements[i].Text? then Bool(matches(x.s, elements[i].s)) else Null)
  }

  /** The operator is accepted, and its rewriting is the disjunction, or for ALL the conjunction,
      of what holds of the left side's value and each element. */
  predicate Compares(w: World, env: Env, input: Expr, text: string, all: bool, rhs: Expr, holds: (Val, Val) -> bool) {
    var o := TransformAnyAll(input, text, all, rhs);
    o.Done? && Eval(w, env, o.e) == Quantified(all, ComparedBy(Eval(w, env, input), ElementsOf(w, env, rhs), holds))
  }

  predicate MatchesBy(
      w: World, env: Env, input: Expr, text: string, all: bool, rhs: Expr, matches: (string, string) -> bool) {
    var o := TransformAnyAll(input, text, all, rhs);
    o.Done? && Eval(w, env, o.e) == Quantified(all, MatchedBy(Eval(w, env, input), ElementsOf(w, env, rhs), matches))
  }

  // ----- comparisons -----

  /** NOT ANY with the negated operator is ALL. */
  lemma NegatedAnyIsAll(w: World, op: CmpOp, x: Val, rows: seq<Val>)
    requires Ordered(w)
    ensures NotV(AnyOf(Compared(w, Negated(op), x, rows))) == AllOf(Compared(w, op, x, rows))
  {
    var yes, no := Compared(w, op, x, rows), Compared(w, Negated(op), x, rows);
    forall i | 0 <= i < |rows|
      ensures no[i] == NotV(yes[i]) && (yes[i] == Null || yes[i] == Bool(true) || yes[i] == Bool(false))
    {
      NegationIsExact(w, op, x, rows[i]);
    }
    if Bool(true) in no {
      var i :| 0 <= i < |no| && no[i] == Bool(true);
      assert yes[i] == Bool(false);
    }
    if Bool(false) in yes {
      var i :| 0 <= i < |yes| && yes[i] == Bool(false);
      assert no[i] == Bool(true);
    }
  }

  lemma NegationIsExact(w: World, op: CmpOp, a: Val, b: Val)
    requires Ordered(w)
    ensures Compare(w, Negated(op), a, b) == NotV(Compare(w, op, a, b))
    ensures Compare(w, op, a, b) == Null || Compare(w, op, a, b).Bool?
  {
  }

  // ----- regular expressions -----

  /** Truth values and unknowns. */
  predicate IsTruth(v: Val) { v == Null || v == Bool(true) || v == Bool(false) }

  lemma {:induction false} KeptNulls(items: seq<Val>, flags: seq<Val>)
    requires |items| == |flags| && forall i :: 0 <= i < |items| ==> flags[i] == Bool(items[i] == Null)
    ensures |Kept(items, flags)| > 0 <==> Null in items
  {
    if items != [] {
      KeptNulls(items[1..], flags[1..]);
      assert items == [items[0]] + items[1..];
    }
  }

  lemma DecidedByContains(all: bool, ms: seq<Val>)
    requires forall i :: 0 <= i < |ms| ==> IsTruth(ms[i])
    ensures Quantified(all, ms) == if Bool(!all) in ms then Bool(!all) else if Null in ms then Null else Bool(all)
  {
  }

  /** The matches the CASE looks at, one per element: the left side is read where the lambda's
      name stands for that element. */
  lemma MatchesListed(w: World, env: Env, input: Expr, op: RegexOp, items: seq<Val>)
    ensures Applied(w, env, MatchLambda(input, op), items) == MatchInside(w, env, input, op, items)
  {
    forall i | 0 <= i < |items|
      ensures Applied(w, env, MatchLambda(input, op), items)[i] == MatchInside(w, env, input, op, items)[i]
    {
      MatchEvaluates(w, env, input, op, items[i]);
    }
  }

  lemma MatchEvaluates(w: World, env: Env, input: Expr, op: RegexOp, element: Val)
    ensures Eval(w, env[PATTERN := element], MatchLambda(input, op).body)
         == MatchOne(w, op, Eval(w, env[PATTERN := element], input), element)
  {
    var inner := env[PATTERN := element];
    var args := [input, Column(PATTERN)] + (if op.insensitive then [Constant(Text("i"))] else []);
    assert args[0] == input && args[1] == Column(PATTERN);
    assert Eval(w, inner, Column(PATTERN)) == element;
    if op.insensitive {
      assert args[2] == Constant(Text("i"));
      assert Eval(w, inner, args[2]) == Text("i");
    }
    RegexpEvaluates(w, inner, args);
  }

  lemma RegexpEvaluates(w: World, env: Env, args: seq<Expr>)
    requires |args| == 2 || (|args| == 3 && Eval(w, env, args[2]) == Text("i"))
    ensures Eval(w, env, Call(RegexpMatches, args))
      == Matches(w, Eval(w, env, args[0]), Eval(w, env, args[1]), |args| == 3)
  {
  }

  /** The CASE looks at the list of matches: first for a deciding one, then for an unknown. */
  lemma CaseDecides(w: World, env: Env, transformed: Expr, ms: seq<Val>, all: bool)
    requires Ordered(w) && Eval(w, env, transformed) == List(ms)
    requires forall i :: 0 <= i < |ms| ==> IsTruth(ms[i])
    ensures Eval(w, env, RegexCase(transformed, all)) == Quantified(all, ms)
  {
    ContainsEvaluates(w, env, transformed, ms, Bool(!all));
    NullsCounted(w, env, transformed, ms);
    DecidedByContains(all, ms);
    CaseEvaluates(w, env, transformed, all);
  }

  lemma CaseEvaluates(w: World, env: Env, transformed: Expr, all: bool)
    ensures Eval(w, env, RegexCase(transformed, all)) ==
      if Eval(w, env, Call(ListContains, [transformed, Constant(Bool(!all))])) == Bool(true) then Bool(!all)
      else if Eval(w, env, AnyNull(transformed)) == Bool(true) then Null
      else Bool(all)
  {
    var c := RegexCase(transformed, all);
    assert Eval(w, env, c.otherwise) == Bool(all) && Eval(w, env, c.checks[1].value) == Null;
    assert Eval(w, env, c.checks[0].value) == Bool(!all);
    assert EvalCase(w, env, c, 2) == Bool(all);
    assert EvalCase(w, env, c, 1) == if Eval(w, env, AnyNull(transformed)) == Bool(true) then Null else Bool(all);
    assert Eval(w, env, c) == EvalCase(w, env, c, 0);
  }

  lemma ContainsEvaluates(w: World, env: Env, transformed: Expr, ms: seq<Val>, v: Val)
    requires Eval(w, env, transformed) == List(ms)
    ensures Eval(w, env, Call(ListContains, [transformed, Constant(v)])) == Bool(v in ms)
  {
    assert Eval(w, env, Constant(v)) == v;
  }

  lemma NullsCounted(w: World, env: Env, transformed: Expr, ms: seq<Val>)
    requires Ordered(w) && Eval(w, env, transformed) == List(ms)
    ensures Eval(w, env, AnyNull(transformed)) == Bool(Null in ms)
  {
    var isNull := Lambda(MATCH, IsNull(Column(MATCH)));
    var flags := Applied(w, env, isNull, ms);
    forall i | 0 <= i < |ms|
      ensures flags[i] == Bool(ms[i] == Null)
    {
      assert Eval(w, env[MATCH := ms[i]], Column(MATCH)) == ms[i];
    }
    KeptNulls(ms, flags);
    var filtered := Call(ListFilter, [transformed, isNull]);
    FilterEvaluates(w, env, transformed, isNull, ms);
    LenEvaluates(w, env, filtered, Kept(ms, flags));
  }

  lemma FilterEvaluates(w: World, env: Env, list: Expr, f: Expr, items: seq<Val>)
    requires f.Lambda? && Eval(w, env, list) == List(items)
    ensures Eval(w, env, Call(ListFilter, [list, f])) == List(Kept(items, Applied(w, env, f, items)))
  {
  }

  lemma LenEvaluates(w: World, env: Env, list: Expr, items: seq<Val>)
    requires Ordered(w) && Eval(w, env, list) == List(items)
    ensures Eval(w, env, Comparison(GreaterThan, Call(Len, [list]), Constant(Int(0)))) == Bool(|items| > 0)
  {
    assert Eval(w, env, Call(Len, [list])) == Int(|items|);
  }

  /** The regular-expression form, for any left side, list and environment: the disjunction, or for
      ALL the conjunction, of the matches as the lambda sees them. */
  lemma RegexEvaluates(w: World, env: Env, input: Expr, list: Expr, op: RegexOp, all: bool)
    requires Ordered(w)
    ensures Eval(w, env, RegexAnyAll(input, list, op, all))
         == Quantified(all, MatchInside(w, env, input, op, Unnested(Eval(w, env, list))))
  {
    var transformed := Call(ListTransform, [list, MatchLambda(input, op)]);
    var v := Eval(w, env, list);
    var ms := MatchInside(w, env, input, op, Unnested(v));
    if v.List? {
      MatchesListed(w, env, input, op, v.items);
      CaseDecides(w, env, transformed, ms, all);
    } else {
      NoListNoMatch(w, env, transformed, all);
    }
  }

  /** What it should mean: the left side's own value matched against every element. */
  ghost predicate RegexRight(w: World, env: Env, input: Expr, list: Expr, op: RegexOp, all: bool) {
    Eval(w, env, RegexAnyAll(input, list, op, all))
      == Quantified(all, MatchEach(w, op, Eval(w, env, input), Unnested(Eval(w, env, list))))
  }

  /** Whatever the left side, as long as it does not use the lambda's name. */
  lemma RegexMeans(w: World, env: Env, input: Expr, list: Expr, op: RegexOp, all: bool)
    requires Ordered(w) && !Mentions(input, PATTERN)
    ensures RegexRight(w, env, input, list, op, all)
  {
    var elements := Unnested(Eval(w, env, list));
    RegexEvaluates(w, env, input, list, op, all);
    forall i | 0 <= i < |elements|
      ensures MatchInside(w, env, input, op, elements)[i] == MatchEach(w, op, Eval(w, env, input), elements)[i]
    {
      Unmentioned(w, env, input, PATTERN, elements[i]);
    }
    assert MatchInside(w, env, input, op, elements) == MatchEach(w, op, Eval(w, env, input), elements);
  }

  /** Over no list at all neither check is true. */
  lemma NoListNoMatch(w: World, env: Env, transformed: Expr, all: bool)
    requires !Eval(w, env, transformed).List?
    ensures Eval(w, env, RegexCase(transformed, all)) == Bool(all)
  {
    CaseEvaluates(w, env, transformed, all);
    var filtered := Call(ListFilter, [transformed, Lambda(MATCH, IsNull(Column(MATCH)))]);
    assert Eval(w, env, filtered) == Null;
    assert Eval(w, env, Call(Len, [filtered])) == Null;
  }

  function MatchEach(w: World, op: RegexOp, x: Val, elements: seq<Val>): (r: seq<Val>)
    ensures |r| == |elements|
    ensures forall i :: 0 <= i < |elements| ==> r[i] == MatchOne(w, op, x, elements[i]) && IsTruth(r[i])
  {
    seq(|elements|, i requires 0 <= i < |elements| => MatchOne(w, op, x, elements[i]))
  }

  function MatchInside(w: World, env: Env, input: Expr, op: RegexOp, elements: seq<Val>): (r: seq<Val>)
    ensures |r| == |elements|
    ensures forall i :: 0 <= i < |elements| ==>
      r[i] == MatchOne(w, op, Eval(w, env[PATTERN := elements[i]], input), elements[i]) && IsTruth(r[i])
  {
    seq(|elements|, i requires 0 <= i < |elements| =>
      MatchOne(w, op, Eval(w, env[PATTERN := elements[i]], input), elements[i]))
  }

  // ----- all forms -----

  /** Which operators ANY and ALL take: over a query the comparisons, over anything else the
      regular-expression operators too; and which error the others give. */
  lemma AcceptedIff(input: Expr, text: string, all: bool, rhs: Expr)
    ensures
      var comparison := text in ["=", "==", "!=", "<>", "<", ">", "<=", ">="];
      var regex := text in ["~", "~*", "!~", "!~*"];
      var o := TransformAnyAll(input, text, all, rhs);
      && (o.Done? <==> comparison || (regex && !rhs.Scalar?))
      && (o == NotAComparison <==> !comparison && rhs.Scalar?)
      && (o == Unsupported(text) <==> !comparison && !regex && !rhs.Scalar?)
  {
    var comparisons := ["=", "==", "!=", "<>", "<", ">", "<=", ">="];
    assert text in comparisons <==> ComparisonOf(text).Is?;
    assert text in ["~", "~*", "!~", "!~*"] <==> IsRegexOp(text);
  }

  /** What ANY and ALL mean, in three-valued logic, one operator text after the other: the
      comparisons by the order of values. */
  lemma AnyAllMeans(w: World, env: Env, input: Expr, all: bool, rhs: Expr)
    requires Ordered(w)
    ensures Compares(w, env, input, "<", all, rhs, (a, b) => w.less(a, b))
    ensures Compares(w, env, input, ">", all, rhs, (a, b) => w.less(b, a))
    ensures Compares(w, env, input, "<=", all, rhs, (a, b) => w.less(a, b) || a == b)
    ensures Compares(w, env, input, ">=", all, rhs, (a, b) => w.less(b, a) || a == b)
  {
    ComparisonMeans(w, env, input, "<", LessThan, all, rhs, (a, b) => w.less(a, b));
    ComparisonMeans(w, env, input, ">", GreaterThan, all, rhs, (a, b) => w.less(b, a));
    ComparisonMeans(w, env, input, "<=", LessOrEqual, all, rhs, (a, b) => w.less(a, b) || a == b);
    ComparisonMeans(w, env, input, ">=", GreaterOrEqual, all, rhs, (a, b) => w.less(b, a) || a == b);
  }

  /** Equality and its negation, in both spellings. */
  lemma EqualityMeans(w: World, env: Env, input: Expr, all: bool, rhs: Expr)
    requires Ordered(w)
    ensures Compares(w, env, input, "=", all, rhs, (a, b) => a == b)
    ensures Compares(w, env, input, "==", all, rhs, (a, b) => a == b)
    ensures Compares(w, env, input, "!=", all, rhs, (a, b) => a != b)
    ensures Compares(w, env, input, "<>", all, rhs, (a, b) => a != b)
  {
    ComparisonMeans(w, env, input, "=", Equal, all, rhs, (a, b) => a == b);
    ComparisonMeans(w, env, input, "==", Equal, all, rhs, (a, b) => a == b);
    ComparisonMeans(w, env, input, "!=", NotEqual, all, rhs, (a, b) => a != b);
    ComparisonMeans(w, env, input, "<>", NotEqual, all, rhs, (a, b) => a != b);
  }

  /** The matches, as long as the left side does not use the lambda's name. */
  lemma MatchesMean(w: World, env: Env, input: Expr, all: bool, rhs: Expr)
    requires Ordered(w) && !rhs.Scalar? && !Mentions(input, PATTERN)
    ensures MatchesBy(w, env, input, "~", all, rhs, (s, p) => w.regexp(s, p, false))
    ensures MatchesBy(w, env, input, "~*", all, rhs, (s, p) => w.regexp(s, p, true))
    ensures MatchesBy(w, env, input, "!~", all, rhs, (s, p) => !w.regexp(s, p, false))
    ensures MatchesBy(w, env, input, "!~*", all, rhs, (s, p) => !w.regexp(s, p, true))
  {
    MatchMeans(w, env, input, "~", all, rhs, (s, p) => w.regexp(s, p, false));
    MatchMeans(w, env, input, "~*", all, rhs, (s, p) => w.regexp(s, p, true));
    MatchMeans(w, env, input, "!~", all, rhs, (s, p) => !w.regexp(s, p, false));
    MatchMeans(w, env, input, "!~*", all, rhs, (s, p) => !w.regexp(s, p, true));
  }

  lemma ComparisonMeans(w: World, env: Env, input: Expr, text: string, op: CmpOp, all: bool, rhs: Expr,
      holds: (Val, Val) -> bool)
    requires Ordered(w) && ComparisonOf(text) == Is(op)
    requires forall a, b :: a != Null && b != Null ==> Compare(w, op, a, b) == Bool(holds(a, b))
    ensures Compares(w, env, input, text, all, rhs, holds)
  {
    var x, rows := Eval(w, env, input), ElementsOf(w, env, rhs);
    assert Compared(w, op, x, rows) == ComparedBy(x, rows, holds);
    RewritingEvaluates(w, env, input, text, op, all, rhs);
  }

  lemma RewritingEvaluates(w: World, env: Env, input: Expr, text: string, op: CmpOp, all: bool, rhs: Expr)
    requires Ordered(w) && ComparisonOf(text) == Is(op)
    ensures
      var o := TransformAnyAll(input, text, all, rhs);
      && o.Done?
      && Eval(w, env, o.e) == Quantified(all, Compared(w, op, Eval(w, env, input), ElementsOf(w, env, rhs)))
  {
    var x, rows := Eval(w, env, input), ElementsOf(w, env, rhs);
    if all {
      NegatedAnyIsAll(w, op, x, rows);
      assert Eval(w, env, AnySubquery(input, Negated(op), SourceOf(rhs))) == AnyOf(Compared(w, Negated(op), x, rows));
    }
  }

  lemma {:induction false} MatchMeans(w: World, env: Env, input: Expr, text: string, all: bool, rhs: Expr,
      matches: (string, string) -> bool)
    requires Ordered(w) && IsRegexOp(text) && !rhs.Scalar? && !Mentions(input, PATTERN)
    requires forall s, p ::
      matches(s, p) <==> w.regexp(s, p, RegexOf(text).insensitive) != RegexOf(text).negated
    ensures MatchesBy(w, env, input, text, all, rhs, matches)
  {
    var x, rows := Eval(w, env, input), ElementsOf(w, env, rhs);
    RegexMeans(w, env, input, rhs, RegexOf(text), all);
    MatchedIs(w, RegexOf(text), x, rows, matches);
  }

  lemma {:induction false} MatchedIs(w: World, op: RegexOp, x: Val, rows: seq<Val>, matches: (string, string) -> bool)
    requires forall s, p :: matches(s, p) <==> w.regexp(s, p, op.insensitive) != op.negated
    ensures MatchedBy(x, rows, matches) == MatchEach(w, op, x, rows)
  {
  }

  function MatchedWithThemselves(w: World, op: RegexOp, elements: seq<Val>): (r: seq<Val>)
    ensures |r| == |elements| && forall i :: 0 <= i < |elements| ==> r[i] == MatchOne(w, op, elements[i], elements[i])
  {
    seq(|elements|, i requires 0 <= i < |elements| => MatchOne(w, op, elements[i], elements[i]))
  }

  /** A column of the lambda's name on the left is captured by it: over every list each pattern is
      matched against itself, whatever the column holds. */
  lemma CapturedName(w: World, env: Env, list: Expr, op: RegexOp, all: bool)
    requires Ordered(w)
    ensures Eval(w, env, RegexAnyAll(Column(PATTERN), list, op, all))
         == Quantified(all, MatchedWithThemselves(w, op, Unnested(Eval(w, env, list))))
  {
    var elements := Unnested(Eval(w, env, list));
    RegexEvaluates(w, env, Column(PATTERN), list, op, all);
    forall i | 0 <= i < |elements|
      ensures Eval(w, env[PATTERN := elements[i]], Column(PATTERN)) == elements[i]
    {
    }
    assert MatchInside(w, env, Column(PATTERN), op, elements) == MatchedWithThemselves(w, op, elements);
  }

  /** One text whose match with itself is not its match with another gives a wrong answer. */
  lemma CaptureShows(w: World, op: RegexOp, all: bool, a: string, b: string)
    requires Ordered(w) && w.regexp(b, b, op.insensitive) != w.regexp(a, b, op.insensitive)
    ensures
      var env: Env := map[PATTERN := Text(a)];
      !RegexRight(w, env, Column(PATTERN), Constant(List([Text(b)])), op, all)
  {
    var env: Env := map[PATTERN := Text(a)];
    var list := Constant(List([Text(b)]));
    assert Eval(w, env, list) == List([Text(b)]) && Eval(w, env, Column(PATTERN)) == Text(a);
    CapturedName(w, env, list, op, all);
    OneDecides(all, MatchOne(w, op, Text(a), Text(b)));
    OneDecides(all, MatchOne(w, op, Text(b), Text(b)));
    assert MatchedWithThemselves(w, op, [Text(b)]) == [MatchOne(w, op, Text(b), Text(b))];
    assert MatchEach(w, op, Text(a), [Text(b)]) == [MatchOne(w, op, Text(a), Text(b))];
  }

  lemma OneDecides(all: bool, v: Val)
    requires IsTruth(v)
    ensures Quantified(all, [v]) == v
  {
    assert [v][0] == v;
  }

  /** A bare column on the left is matched rightly, under every row and over every list, exactly
      when it is not called what the lambda calls its parameter. */
  lemma ColumnIsRightIff(w: World, name: string, op: RegexOp, a: string, b: string)
    requires Ordered(w) && w.regexp(b, b, op.insensitive) != w.regexp(a, b, op.insensitive)
    ensures (forall env: Env, list, all :: RegexRight(w, env, Column(name), list, op, all)) <==> name != PATTERN
  {
    if name == PATTERN {
      CaptureShows(w, op, false, a, b);
    } else {
      forall env: Env, list, all
        ensures RegexRight(w, env, Column(name), list, op, all)
      {
        RegexMeans(w, env, Column(name), list, op, all);
      }
    }
  }
}
