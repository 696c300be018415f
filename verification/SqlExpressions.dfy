/** The fragment of SQL expressions the rewrites build, with its three-valued meaning. */
module SqlExpressions {

  datatype Val = Null | Bool(b: bool) | Int(n: int) | Text(s: string) | List(items: seq<Val>)

  type Env = map<string, Val>

  datatype CmpOp = Equal | NotEqual | LessThan | GreaterThan | LessOrEqual | GreaterOrEqual

  datatype Fn = RegexpMatches | ListTransform | ListContains | ListFilter | Len

  datatype Kind = And | Or

  /** A query in an expression: `outer` lists the names it takes from around it. */
  datatype Subquery = Subquery(id: string, outer: seq<string>)

  datatype Expr =
    | Column(name: string)
    | Constant(v: Val)
    | Call(fn: Fn, args: seq<Expr>)
    | Lambda(param: string, body: Expr)
    | Not(e: Expr)
    | IsNull(e: Expr)
    | Comparison(op: CmpOp, left: Expr, right: Expr)
    | Conjunction(kind: Kind, operands: seq<Expr>)
    | Case(checks: seq<Check>, otherwise: Expr)
    | Scalar(q: Subquery)
    | AnySubquery(child: Expr, cmp: CmpOp, source: Source)

  datatype Check = Check(cond: Expr, value: Expr)

  /** Where ANY takes its rows from: a query, or SELECT unnest(list). */
  datatype Source = FromQuery(q: Subquery) | Unnest(list: Expr)

  /** Order of values, regular-expression matching and queries. */
  datatype World = World(
    less: (Val, Val) -> bool,
    regexp: (string, string, bool) -> bool,
    rows: (string, Env) -> seq<Val>)

  /** Of two values exactly one holds: less, equal, greater; and integers are in their order. */
  ghost predicate Ordered(w: World) {
    && (forall a, b :: w.less(a, b) ==> a != b && !w.less(b, a))
    && (forall a, b :: a != b ==> w.less(a, b) || w.less(b, a))
    && (forall m, n :: w.less(Int(m), Int(n)) <==> m < n)
  }

  // ----- three-valued logic -----

  function NotV(v: Val): Val {
    match v
    case Bool(b) => Bool(!b)
    case _ => Null
  }

  /** Any value that is neither true nor false counts as unknown. */
  function AllOf(vs: seq<Val>): Val {
    if Bool(false) in vs then Bool(false)
    else if forall i :: 0 <= i < |vs| ==> vs[i] == Bool(true) then Bool(true)
    else Null
  }

  function AnyOf(vs: seq<Val>): Val {
    if Bool(true) in vs then Bool(true)
    else if forall i :: 0 <= i < |vs| ==> vs[i] == Bool(false) then Bool(false)
    else Null
  }

  function Quantified(all: bool, vs: seq<Val>): Val {
    if all then AllOf(vs) else AnyOf(vs)
  }

  /** One operand at a time, the truth tables of OR and AND with an unknown. */
  lemma ByOperand(v: Val, vs: seq<Val>)
    ensures AnyOf([]) == Bool(false) && AllOf([]) == Bool(true)
    ensures
      var rest := AnyOf(vs);
      AnyOf([v] + vs) ==
        if v == Bool(true) || rest == Bool(true) then Bool(true)
        else if v == Bool(false) && rest == Bool(false) then Bool(false) else Null
    ensures
      var rest := AllOf(vs);
      AllOf([v] + vs) ==
        if v == Bool(false) || rest == Bool(false) then Bool(false)
        else if v == Bool(true) && rest == Bool(true) then Bool(true) else Null
  {
    var whole := [v] + vs;
    assert whole[0] == v && whole[1..] == vs;
    assert forall i :: 0 <= i < |vs| ==> vs[i] == whole[i + 1];
  }

  function Compare(w: World, op: CmpOp, a: Val, b: Val): Val {
    if a == Null || b == Null then Null
    else Bool(match op
      case Equal => a == b
      case NotEqual => a != b
      case LessThan => w.less(a, b)
      case GreaterThan => w.less(b, a)
      case LessOrEqual => w.less(a, b) || a == b
      case GreaterOrEqual => w.less(b, a) || a == b)
  }

  function Matches(w: World, x: Val, pattern: Val, insensitive: bool): Val {
    if x.Text? && pattern.Text? then Bool(w.regexp(x.s, pattern.s, insensitive)) else Null
  }

  // ----- meaning -----

  function Lookup(env: Env, name: string): Val {
    if name in env then env[name] else Null
  }

  function Restricted(env: Env, names: seq<string>): Env {
    map x | x in env && x in names :: env[x]
  }

  function RowsOf(w: World, env: Env, q: Subquery): seq<Val> {
    w.rows(q.id, Restricted(env, q.outer))
  }

  /** unnest: the elements of a list; NULL has none. */
  function Unnested(v: Val): seq<Val> {
    if v.List? then v.items else []
  }

  function Eval(w: World, env: Env, e: Expr): Val
    decreases e, 1
  {
    match e
    case Column(name) => Lookup(env, name)
    case Constant(v) => v
    case Call(fn, args) => EvalCall(w, env, e)
    case Lambda(_, _) => Null
    case Not(x) => NotV(Eval(w, env, x))
    case IsNull(x) => Bool(Eval(w, env, x) == Null)
    case Comparison(op, l, r) => Compare(w, op, Eval(w, env, l), Eval(w, env, r))
    case Conjunction(kind, xs) => Quantified(kind == And, EvalAll(w, env, xs))
    case Case(_, _) => EvalCase(w, env, e, 0)
    case Scalar(q) => var rows := RowsOf(w, env, q); if rows == [] then Null else rows[0]
    case AnySubquery(x, op, source) =>
      var left := Eval(w, env, x);
      var rows := match source
        case FromQuery(q) => RowsOf(w, env, q)
        case Unnest(list) => Unnested(Eval(w, env, list));
      AnyOf(Compared(w, op, left, rows))
  }

  function Compared(w: World, op: CmpOp, x: Val, rows: seq<Val>): (r: seq<Val>)
    ensures |r| == |rows| && forall i :: 0 <= i < |rows| ==> r[i] == Compare(w, op, x, rows[i])
  {
    seq(|rows|, i requires 0 <= i < |rows| => Compare(w, op, x, rows[i]))
  }

  function EvalAll(w: World, env: Env, es: seq<Expr>): (vs: seq<Val>)
    ensures |vs| == |es| && forall i :: 0 <= i < |es| ==> vs[i] == Eval(w, env, es[i])
    decreases es
  {
    seq(|es|, i requires 0 <= i < |es| => Eval(w, env, es[i]))
  }

  /** From the k-th check on: the first one that is true decides; NULL is not true. */
  function EvalCase(w: World, env: Env, e: Expr, k: nat): Val
    requires e.Case? && k <= |e.checks|
    decreases e, 0, |e.checks| - k
  {
    if k == |e.checks| then Eval(w, env, e.otherwise)
    else if Eval(w, env, e.checks[k].cond) == Bool(true) then Eval(w, env, e.checks[k].value)
    else EvalCase(w, env, e, k + 1)
  }

  function EvalCall(w: World, env: Env, e: Expr): Val
    requires e.Call?
    decreases e, 0
  {
    var args := e.args;
    match e.fn
    case RegexpMatches =>
      if |args| < 2 then Null
      else Matches(w, Eval(w, env, args[0]), Eval(w, env, args[1]), |args| == 3 && Eval(w, env, args[2]) == Text("i"))
    case ListTransform =>
      if |args| == 2 && args[1].Lambda? then
        match Eval(w, env, args[0])
        case List(items) => List(Applied(w, env, args[1], items))
        case _ => Null
      else Null
    case ListContains =>
      if |args| == 2 then
        match Eval(w, env, args[0])
        case List(items) => Bool(Eval(w, env, args[1]) in items)
        case _ => Null
      else Null
    case ListFilter =>
      if |args| == 2 && args[1].Lambda? then
        match Eval(w, env, args[0])
        case List(items) => List(Kept(items, Applied(w, env, args[1], items)))
        case _ => Null
      else Null
    case Len =>
      if |args| == 1 then
        match Eval(w, env, args[0])
        case List(items) => Int(|items|)
        case _ => Null
      else Null
  }

  function Applied(w: World, env: Env, f: Expr, items: seq<Val>): (r: seq<Val>)
    requires f.Lambda?
    ensures |r| == |items| && forall i :: 0 <= i < |items| ==> r[i] == Eval(w, env[f.param := items[i]], f.body)
    decreases f
  {
    seq(|items|, i requires 0 <= i < |items| => Eval(w, env[f.param := items[i]], f.body))
  }

  /** The items whose flag is true. */
  function Kept(items: seq<Val>, flags: seq<Val>): seq<Val>
    requires |items| == |flags|
  {
    if items == [] then []
    else (if flags[0] == Bool(true) then [items[0]] else []) + Kept(items[1..], flags[1..])
  }

  // ----- names an expression depends on -----

  /** The name occurs free in e. */
  predicate Mentions(e: Expr, name: string)
    decreases e
  {
    match e
    case Column(n) => n == name
    case Constant(_) => false
    case Call(_, args) => exists i :: 0 <= i < |args| && Mentions(args[i], name)
    case Lambda(param, body) => param != name && Mentions(body, name)
    case Not(x) => Mentions(x, name)
    case IsNull(x) => Mentions(x, name)
    case Comparison(_, l, r) => Mentions(l, name) || Mentions(r, name)
    case Conjunction(_, xs) => exists i :: 0 <= i < |xs| && Mentions(xs[i], name)
    case Case(checks, otherwise) =>
      || Mentions(otherwise, name)
      || exists i :: 0 <= i < |checks| && (Mentions(checks[i].cond, name) || Mentions(checks[i].value, name))
    case Scalar(q) => name in q.outer
    case AnySubquery(x, _, source) =>
      || Mentions(x, name)
      || (match source
          case FromQuery(q) => name in q.outer
          case Unnest(list) => Mentions(list, name))
  }

  lemma UnreadName(env: Env, names: seq<string>, name: string, v: Val)
    requires name !in names
    ensures Restricted(env[name := v], names) == Restricted(env, names)
  {
  }

  /** An expression that does not mention a name does not depend on it. */
  lemma {:induction false} Unmentioned(w: World, env: Env, e: Expr, name: string, v: Val)
    requires !Mentions(e, name)
    ensures Eval(w, env[name := v], e) == Eval(w, env, e)
    decreases e, 1
  {
    match e
    case Column(_) =>
    case Constant(_) =>
    case Call(_, _) => UnmentionedInCall(w, env, e, name, v);
    case Lambda(_, _) =>
    case Not(x) => Unmentioned(w, env, x, name, v);
    case IsNull(x) => Unmentioned(w, env, x, name, v);
    case Comparison(_, l, r) =>
      Unmentioned(w, env, l, name, v);
      Unmentioned(w, env, r, name, v);
    case Conjunction(_, xs) =>
      forall i | 0 <= i < |xs|
        ensures Eval(w, env[name := v], xs[i]) == Eval(w, env, xs[i])
      {
        Unmentioned(w, env, xs[i], name, v);
      }
      assert EvalAll(w, env[name := v], xs) == EvalAll(w, env, xs);
    case Case(_, _) => UnmentionedInCase(w, env, e, 0, name, v);
    case Scalar(q) => UnreadName(env, q.outer, name, v);
    case AnySubquery(x, _, source) =>
      Unmentioned(w, env, x, name, v);
      match source {
        case FromQuery(q) => UnreadName(env, q.outer, name, v);
        case Unnest(list) => Unmentioned(w, env, list, name, v);
      }
  }

  lemma {:induction false} UnmentionedInCase(w: World, env: Env, e: Expr, k: nat, name: string, v: Val)
    requires e.Case? && k <= |e.checks| && !Mentions(e, name)
    ensures EvalCase(w, env[name := v], e, k) == EvalCase(w, env, e, k)
    decreases e, 0, |e.checks| - k
  {
    if k == |e.checks| {
      Unmentioned(w, env, e.otherwise, name, v);
    } else {
      Unmentioned(w, env, e.checks[k].cond, name, v);
      Unmentioned(w, env, e.checks[k].value, name, v);
      UnmentionedInCase(w, env, e, k + 1, name, v);
    }
  }

  lemma {:induction false} UnmentionedInCall(w: World, env: Env, e: Expr, name: string, v: Val)
    requires e.Call? && !Mentions(e, name)
    ensures EvalCall(w, env[name := v], e) == EvalCall(w, env, e)
    decreases e, 0
  {
    forall i | 0 <= i < |e.args|
      ensures Eval(w, env[name := v], e.args[i]) == Eval(w, env, e.args[i])
    {
      Unmentioned(w, env, e.args[i], name, v);
    }
    if |e.args| == 2 && e.args[1].Lambda? {
      var first := Eval(w, env, e.args[0]);
      if first.List? {
        UnmentionedInLambda(w, env, e.args[1], first.items, name, v);
      }
    }
  }

  lemma {:induction false} UnmentionedInLambda(w: World, env: Env, f: Expr, items: seq<Val>, name: string, v: Val)
    requires f.Lambda? && !Mentions(f, name)
    ensures Applied(w, env[name := v], f, items) == Applied(w, env, f, items)
    decreases f, 0
  {
    forall i | 0 <= i < |items|
      ensures Eval(w, env[name := v][f.param := items[i]], f.body) == Eval(w, env[f.param := items[i]], f.body)
    {
      if f.param == name {
        assert env[name := v][name := items[i]] == env[name := items[i]];
      } else {
        assert env[name := v][f.param := items[i]] == env[f.param := items[i]][name := v];
        Unmentioned(w, env[f.param := items[i]], f.body, name, v);
      }
    }
  }
}
