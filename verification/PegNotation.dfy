/** The notation of rule expressions, written down as what can stand in a rule, and the parser
    against it (internal/grammar/expression.go:87-204). */
module PegNotation {
  import opened Tokens
  import opened PegGrammar
  import opened PegSyntax
  import opened PegPrinter

  /** A rule body as written: alternatives, each of them elements side by side. */
  datatype Primary =
    | Quoted(text: string)
    | Named(name: string)
    | Class(text: string)
    | Applied(name: string, arg: seq<Row>)
    | InParens(body: seq<Row>)
    | Exclaimed(operand: Primary)

  datatype Element = Bare(primary: Primary) | Suffixed(primary: Primary, suffix: Suffix)

  datatype Row = Row(elements: seq<Element>)

  datatype Suffix = Question | Star | Cross

  // ----- what is written -----

  function PrimaryTokens(p: Primary): seq<PegToken>
    decreases p, 0
  {
    match p
    case Quoted(text) => [PegToken(LiteralToken, text)]
    case Named(name) => [PegToken(ReferenceToken, name)]
    case Class(text) => [PegToken(RegexToken, text)]
    case Applied(name, arg) => [PegToken(FunctionCallToken, name)] + (BodyTokens(arg) + [Op(')')])
    case InParens(body) => [Op('(')] + (BodyTokens(body) + [Op(')')])
    case Exclaimed(operand) => [Op('!')] + PrimaryTokens(operand)
  }

  function ElementTokens(e: Element): seq<PegToken>
    decreases e, 0
  {
    match e
    case Bare(p) => PrimaryTokens(p)
    case Suffixed(p, Question) => PrimaryTokens(p) + [Op('?')]
    case Suffixed(p, Star) => PrimaryTokens(p) + [Op('*')]
    case Suffixed(p, Cross) => PrimaryTokens(p) + [Op('+')]
  }

  function RowTokens(row: seq<Element>): seq<PegToken>
    decreases row
  {
    if row == [] then [] else ElementTokens(row[0]) + RowTokens(row[1..])
  }

  /** The alternatives with a '/' between each two. */
  function BodyTokens(body: seq<Row>): seq<PegToken>
    decreases body, 1
  {
    if body == [] then [] else RowTokens(body[0].elements) + MoreTokens(body[1..])
  }

  function MoreTokens(body: seq<Row>): seq<PegToken>
    decreases body, 0
  {
    if body == [] then [] else [Op('/')] + (RowTokens(body[0].elements) + MoreTokens(body[1..]))
  }

  /** Every body in it has an alternative. */
  predicate WrittenPrimary(p: Primary)
    decreases p, 0
  {
    match p
    case Applied(_, arg) => WrittenBody(arg)
    case InParens(body) => WrittenBody(body)
    case Exclaimed(operand) => WrittenPrimary(operand)
    case _ => true
  }

  predicate WrittenElement(e: Element)
    decreases e
  {
    WrittenPrimary(e.primary)
  }

  predicate WrittenRow(row: seq<Element>)
    decreases row, 1
  {
    forall i :: 0 <= i < |row| ==> WrittenElement(row[i])
  }

  predicate WrittenBody(body: seq<Row>)
    decreases body, 2
  {
    body != [] && forall i :: 0 <= i < |body| ==> WrittenRow(body[i].elements)
  }

  // ----- what it stands for -----

  /** Parentheses stand for a sequence of their own; a '!' for nothing at all. */
  function PrimaryExpr(p: Primary): Expr
    decreases p, 0
  {
    match p
    case Quoted(text) => Literal(text)
    case Named(name) => Reference(name)
    case Class(text) => Regex(text)
    case Applied(name, arg) => Call(name, BodyExpr(arg))
    case InParens(body) => if BodyExpr(body).Sequence? then BodyExpr(body) else Sequence([BodyExpr(body)])
    case Exclaimed(operand) => PrimaryExpr(operand)
  }

  function ElementExpr(e: Element): Expr
    decreases e, 0
  {
    match e
    case Bare(p) => PrimaryExpr(p)
    case Suffixed(p, Question) => Optional(PrimaryExpr(p))
    case Suffixed(p, Star) => OptionalRepeat(PrimaryExpr(p))
    case Suffixed(p, Cross) => Repeat(PrimaryExpr(p))
  }

  function ElementExprs(row: seq<Element>): (es: seq<Expr>)
    ensures |es| == |row| && forall i :: 0 <= i < |row| ==> es[i] == ElementExpr(row[i])
    decreases row, 0
  {
    seq(|row|, i requires 0 <= i < |row| => ElementExpr(row[i]))
  }

  function RowExpr(row: seq<Element>): Expr
    decreases row, 1
  {
    if |row| == 1 then ElementExpr(row[0]) else Sequence(ElementExprs(row))
  }

  function RowExprs(body: seq<Row>): (es: seq<Expr>)
    ensures |es| == |body| && forall i :: 0 <= i < |body| ==> es[i] == RowExpr(body[i].elements)
    decreases body, 0
  {
    seq(|body|, i requires 0 <= i < |body| => RowExpr(body[i].elements))
  }

  /** Several alternatives are a choice, in their order. */
  function BodyExpr(body: seq<Row>): Expr
    decreases body, 1
  {
    if |body| == 1 then RowExpr(body[0].elements) else Choice(RowExprs(body))
  }

  // ----- all that is written is read -----

  lemma {:induction false} PrimaryIsRead(ts: seq<PegToken>, pos: nat, p: Primary)
    requires WrittenPrimary(p) && Stands(ts, pos, PrimaryTokens(p))
    ensures ParsePrimary(ts, pos) == Ok(PrimaryExpr(p), pos + |PrimaryTokens(p)|)
    decreases p, 2
  {
    match p
    case Quoted(text) => StandsOne(ts, pos, PegToken(LiteralToken, text));
    case Named(name) => StandsOne(ts, pos, PegToken(ReferenceToken, name));
    case Class(text) => StandsOne(ts, pos, PegToken(RegexToken, text));
    case Applied(name, arg) =>
      StandsBetween(ts, pos, PegToken(FunctionCallToken, name), BodyTokens(arg));
      BodyIsRead(ts, pos + 1, arg);
      CallParsed(ts, pos, name, BodyExpr(arg), pos + 1 + |BodyTokens(arg)|);
    case InParens(body) =>
      StandsBetween(ts, pos, Op('('), BodyTokens(body));
      BodyIsRead(ts, pos + 1, body);
      ParenParsed(ts, pos, BodyExpr(body), pos + 1 + |BodyTokens(body)|);
    case Exclaimed(operand) =>
      StandsSplit(ts, pos, [Op('!')], PrimaryTokens(operand));
      StandsOne(ts, pos, Op('!'));
      PrimaryIsRead(ts, pos + 1, operand);
      ExclaimedParsed(ts, pos, PrimaryExpr(operand), pos + 1 + |PrimaryTokens(operand)|);
  }

  lemma {:induction false} ExclaimedParsed(ts: seq<PegToken>, pos: nat, e: Expr, p: nat)
    requires IsOp(ts, pos, '!') && ParsePrimary(ts, pos + 1) == Ok(e, p)
    ensures ParsePrimary(ts, pos) == Ok(e, p)
  {
  }

  lemma {:induction false} CallParsed(ts: seq<PegToken>, pos: nat, name: string, arg: Expr, p: nat)
    requires pos < |ts| && ts[pos] == PegToken(FunctionCallToken, name)
    requires ParseChoice(ts, pos + 1) == Ok(arg, p) && IsOp(ts, p, ')')
    ensures ParsePrimary(ts, pos) == Ok(Call(name, arg), p + 1)
  {
  }

  lemma {:induction false} ParenParsed(ts: seq<PegToken>, pos: nat, inner: Expr, p: nat)
    requires IsOp(ts, pos, '(') && ParseChoice(ts, pos + 1) == Ok(inner, p) && IsOp(ts, p, ')')
    ensures ParsePrimary(ts, pos) == Ok(if inner.Sequence? then inner else Sequence([inner]), p + 1)
  {
  }

  lemma StandsBetween(ts: seq<PegToken>, pos: nat, open: PegToken, body: seq<PegToken>)
    requires Stands(ts, pos, [open] + (body + [Op(')')]))
    ensures pos < |ts| && ts[pos] == open && Stands(ts, pos + 1, body) && IsOp(ts, pos + 1 + |body|, ')')
  {
    StandsSplit(ts, pos, [open], body + [Op(')')]);
    StandsOne(ts, pos, open);
    StandsSplit(ts, pos + 1, body, [Op(')')]);
    StandsOne(ts, pos + 1 + |body|, Op(')'));
  }

  lemma {:induction false} ElementIsRead(ts: seq<PegToken>, pos: nat, e: Element)
    requires WrittenElement(e) && Stands(ts, pos, ElementTokens(e))
    requires !IsPostfixOp(ts, pos + |ElementTokens(e)|)
    ensures ParsePostfix(ts, pos) == Ok(ElementExpr(e), pos + |ElementTokens(e)|)
    decreases e, 1
  {
    var p := PrimaryTokens(e.primary);
    match e
    case Bare(_) =>
      PrimaryIsRead(ts, pos, e.primary);
      NoSuffix(ts, pos, PrimaryExpr(e.primary), pos + |p|);
    case Suffixed(_, suffix) =>
      var op := match suffix case Question => '?' case Star => '*' case Cross => '+';
      StandsSplit(ts, pos, p, [Op(op)]);
      StandsOne(ts, pos + |p|, Op(op));
      PrimaryIsRead(ts, pos, e.primary);
  }

  predicate Begins(t: PegToken) { t.kind != OperatorToken || t.text == "(" || t.text == "!" }

  lemma {:induction false} FirstWritten(p: Primary)
    ensures PrimaryTokens(p) != [] && Begins(PrimaryTokens(p)[0])
  {
  }

  lemma ElementBegins(ts: seq<PegToken>, pos: nat, e: Element)
    requires Stands(ts, pos, ElementTokens(e))
    ensures ElementTokens(e) != [] && !SequenceStops(ts, pos) && !IsPostfixOp(ts, pos)
  {
    FirstWritten(e.primary);
    assert ts[pos] == ts[pos..pos + |ElementTokens(e)|][0];
  }

  lemma {:induction false} RowIsRead(ts: seq<PegToken>, pos: nat, row: seq<Element>)
    requires WrittenRow(row) && Stands(ts, pos, RowTokens(row)) && SequenceStops(ts, pos + |RowTokens(row)|)
    ensures ParseItems(ts, pos) == Ok(ElementExprs(row), pos + |RowTokens(row)|)
    decreases row, 2
  {
    if row != [] {
      var p := NextElement(ts, pos, row);
      ElementIsRead(ts, pos, row[0]);
      RowIsRead(ts, p, row[1..]);
      OneMoreItem(ts, pos, ElementExpr(row[0]), p, ElementExprs(row[1..]), p + |RowTokens(row[1..])|);
      FirstElementExpr(row);
    }
  }

  lemma {:induction false} FirstElementExpr(row: seq<Element>)
    requires row != []
    ensures ElementExprs(row) == [ElementExpr(row[0])] + ElementExprs(row[1..])
  {
  }

  /** The first element of a row, and where the others stand. */
  lemma NextElement(ts: seq<PegToken>, pos: nat, row: seq<Element>) returns (p: nat)
    requires row != [] && Stands(ts, pos, RowTokens(row)) && SequenceStops(ts, pos + |RowTokens(row)|)
    ensures p == pos + |ElementTokens(row[0])| && p + |RowTokens(row[1..])| == pos + |RowTokens(row)|
    ensures Stands(ts, pos, ElementTokens(row[0])) && Stands(ts, p, RowTokens(row[1..]))
    ensures !SequenceStops(ts, pos) && !IsPostfixOp(ts, p)
  {
    p := pos + |ElementTokens(row[0])|;
    var rest := row[1..];
    StandsSplit(ts, pos, ElementTokens(row[0]), RowTokens(rest));
    ElementBegins(ts, pos, row[0]);
    if rest != [] {
      StandsSplit(ts, p, ElementTokens(rest[0]), RowTokens(rest[1..]));
      ElementBegins(ts, p, rest[0]);
    }
  }

  lemma {:induction false} SequenceIsRead(ts: seq<PegToken>, pos: nat, row: seq<Element>)
    requires WrittenRow(row) && Stands(ts, pos, RowTokens(row)) && SequenceStops(ts, pos + |RowTokens(row)|)
    ensures ParseSequence(ts, pos) == Ok(RowExpr(row), pos + |RowTokens(row)|)
    decreases row, 3
  {
    RowIsRead(ts, pos, row);
  }

  lemma {:induction false} MoreAreRead(ts: seq<PegToken>, pos: nat, body: seq<Row>)
    requires forall i :: 0 <= i < |body| ==> WrittenRow(body[i].elements)
    requires Stands(ts, pos, MoreTokens(body)) && ChoiceStops(ts, pos + |MoreTokens(body)|)
    ensures ParseAlternatives(ts, pos) == Ok(RowExprs(body), pos + |MoreTokens(body)|)
    decreases body, 4
  {
    if body == [] {
      StopIsNoSlash(ts, pos);
    } else {
      var p := NextRowIsRead(ts, pos, body);
      MoreAreRead(ts, p, body[1..]);
      MoreParsed(ts, pos, body, p, p + |MoreTokens(body[1..])|);
    }
  }

  lemma {:induction false} NextRowIsRead(ts: seq<PegToken>, pos: nat, body: seq<Row>) returns (p: nat)
    requires body != [] && WrittenRow(body[0].elements)
    requires Stands(ts, pos, MoreTokens(body)) && ChoiceStops(ts, pos + |MoreTokens(body)|)
    ensures IsOp(ts, pos, '/') && ParseSequence(ts, pos + 1) == Ok(RowExpr(body[0].elements), p)
    ensures p + |MoreTokens(body[1..])| == pos + |MoreTokens(body)| && Stands(ts, p, MoreTokens(body[1..]))
    decreases body, 3
  {
    p := NextRow(ts, pos, body);
    SequenceIsRead(ts, pos + 1, body[0].elements);
  }

  lemma {:induction false} MoreParsed(ts: seq<PegToken>, pos: nat, body: seq<Row>, p: nat, q: nat)
    requires body != [] && IsOp(ts, pos, '/') && p <= |ts|
    requires ParseSequence(ts, pos + 1) == Ok(RowExpr(body[0].elements), p)
    requires ParseAlternatives(ts, p) == Ok(RowExprs(body[1..]), q)
    ensures ParseAlternatives(ts, pos) == Ok(RowExprs(body), q)
  {
    OneMore(ts, pos, RowExpr(body[0].elements), p, RowExprs(body[1..]), q);
    FirstRowExpr(body);
  }

  lemma FirstRowExpr(body: seq<Row>)
    requires body != []
    ensures RowExprs(body) == [RowExpr(body[0].elements)] + RowExprs(body[1..])
  {
  }

  /** The alternative after a '/', and where the others stand. */
  lemma NextRow(ts: seq<PegToken>, pos: nat, body: seq<Row>) returns (p: nat)
    requires body != [] && Stands(ts, pos, MoreTokens(body)) && ChoiceStops(ts, pos + |MoreTokens(body)|)
    ensures IsOp(ts, pos, '/') && Stands(ts, pos + 1, RowTokens(body[0].elements))
    ensures p == pos + 1 + |RowTokens(body[0].elements)| && p + |MoreTokens(body[1..])| == pos + |MoreTokens(body)|
    ensures Stands(ts, p, MoreTokens(body[1..])) && SequenceStops(ts, p)
  {
    var row, rest := RowTokens(body[0].elements), MoreTokens(body[1..]);
    p := pos + 1 + |row|;
    StandsSplit(ts, pos, [Op('/')], row + rest);
    StandsOne(ts, pos, Op('/'));
    StandsSplit(ts, pos + 1, row, rest);
    RowsStop(ts, p, body[1..]);
  }

  /** What further alternatives begin with: a '/', or what stops a choice. */
  lemma RowsStop(ts: seq<PegToken>, pos: nat, body: seq<Row>)
    requires Stands(ts, pos, MoreTokens(body)) && ChoiceStops(ts, pos + |MoreTokens(body)|)
    ensures SequenceStops(ts, pos) && (IsOp(ts, pos, '/') <==> body != [])
  {
    if body == [] {
      StopIsNoSlash(ts, pos);
    } else {
      StandsSplit(ts, pos, [Op('/')], RowTokens(body[0].elements) + MoreTokens(body[1..]));
      StandsOne(ts, pos, Op('/'));
    }
  }

  lemma {:induction false} BodyIsRead(ts: seq<PegToken>, pos: nat, body: seq<Row>)
    requires WrittenBody(body) && Stands(ts, pos, BodyTokens(body)) && ChoiceStops(ts, pos + |BodyTokens(body)|)
    ensures ParseChoice(ts, pos) == Ok(BodyExpr(body), pos + |BodyTokens(body)|)
    decreases body, 5
  {
    var row, more := RowTokens(body[0].elements), MoreTokens(body[1..]);
    var p := pos + |row|;
    StandsSplit(ts, pos, row, more);
    RowsStop(ts, p, body[1..]);
    SequenceIsRead(ts, pos, body[0].elements);
    if |body| > 1 {
      MoreAreRead(ts, p, body[1..]);
      ChoiceParsed(ts, pos, body, p, p + |more|);
    } else {
      AloneParsed(ts, pos, RowExpr(body[0].elements), p);
    }
  }

  lemma {:induction false} ChoiceParsed(ts: seq<PegToken>, pos: nat, body: seq<Row>, p: nat, q: nat)
    requires |body| > 1 && pos <= |ts| && ParseSequence(ts, pos) == Ok(RowExpr(body[0].elements), p)
    requires IsOp(ts, p, '/') && ParseAlternatives(ts, p) == Ok(RowExprs(body[1..]), q)
    ensures ParseChoice(ts, pos) == Ok(BodyExpr(body), q)
  {
    Assembled(ts, pos, RowExpr(body[0].elements), p, RowExprs(body[1..]), q);
    FirstRowExpr(body);
  }

  lemma AloneParsed(ts: seq<PegToken>, pos: nat, e: Expr, p: nat)
    requires pos <= |ts| && ParseSequence(ts, pos) == Ok(e, p) && !IsOp(ts, p, '/')
    ensures ParseChoice(ts, pos) == Ok(e, p)
  {
  }

  // ----- all that is read is written -----

  lemma Continued(ts: seq<PegToken>, a: nat, b: nat, c: nat)
    requires a <= b <= c <= |ts|
    ensures ts[a..c] == ts[a..b] + ts[b..c]
  {
  }

  lemma OpStands(ts: seq<PegToken>, pos: nat, c: char)
    requires IsOp(ts, pos, c)
    ensures ts[pos..pos + 1] == [Op(c)]
  {
  }

  lemma {:induction false} PrimaryIsWritten(ts: seq<PegToken>, pos: nat) returns (p: Primary)
    requires pos <= |ts| && ParsePrimary(ts, pos).Ok?
    ensures WrittenPrimary(p) && PrimaryTokens(p) == ts[pos..ParsePrimary(ts, pos).pos]
    ensures PrimaryExpr(p) == ParsePrimary(ts, pos).value
    decreases |ts| - pos, 0
  {
    if IsOp(ts, pos, '(') {
      var body := BodyIsWritten(ts, pos + 1);
      p := InParens(body);
      BetweenStands(ts, pos, Op('('), ParseChoice(ts, pos + 1).pos);
    } else if IsOp(ts, pos, '!') {
      var operand := PrimaryIsWritten(ts, pos + 1);
      p := Exclaimed(operand);
      OpStands(ts, pos, '!');
      Continued(ts, pos, pos + 1, ParsePrimary(ts, pos + 1).pos);
    } else {
      var t := ts[pos];
      match t.kind
      case LiteralToken => p := Quoted(t.text);
      case ReferenceToken => p := Named(t.text);
      case RegexToken => p := Class(t.text);
      case FunctionCallToken =>
        var arg := BodyIsWritten(ts, pos + 1);
        p := Applied(t.text, arg);
        BetweenStands(ts, pos, t, ParseChoice(ts, pos + 1).pos);
    }
  }

  lemma BetweenStands(ts: seq<PegToken>, pos: nat, open: PegToken, p: nat)
    requires pos < p && pos < |ts| && ts[pos] == open && IsOp(ts, p, ')')
    ensures ts[pos..p + 1] == [open] + (ts[pos + 1..p] + [Op(')')])
  {
    OpStands(ts, p, ')');
  }

  lemma {:induction false} ElementIsWritten(ts: seq<PegToken>, pos: nat) returns (e: Element)
    requires pos <= |ts| && ParsePostfix(ts, pos).Ok?
    ensures WrittenElement(e) && ElementTokens(e) == ts[pos..ParsePostfix(ts, pos).pos]
    ensures ElementExpr(e) == ParsePostfix(ts, pos).value
    decreases |ts| - pos, 1
  {
    var primary := PrimaryIsWritten(ts, pos);
    var p := ParsePrimary(ts, pos).pos;
    e := Bare(primary);
    if IsOp(ts, p, '?') {
      e := Suffixed(primary, Question);
      OpStands(ts, p, '?');
    } else if IsOp(ts, p, '*') {
      e := Suffixed(primary, Star);
      OpStands(ts, p, '*');
    } else if IsOp(ts, p, '+') {
      e := Suffixed(primary, Cross);
      OpStands(ts, p, '+');
    }
    if e.Suffixed? {
      Continued(ts, pos, p, p + 1);
    }
  }

  lemma {:induction false} RowIsWritten(ts: seq<PegToken>, pos: nat) returns (row: seq<Element>)
    requires pos <= |ts| && ParseItems(ts, pos).Ok?
    ensures WrittenRow(row) && RowTokens(row) == ts[pos..ParseItems(ts, pos).pos]
    ensures ElementExprs(row) == ParseItems(ts, pos).value
    decreases |ts| - pos, 2
  {
    row := [];
    if !SequenceStops(ts, pos) {
      var first := ElementIsWritten(ts, pos);
      var p := ParsePostfix(ts, pos).pos;
      var rest := RowIsWritten(ts, p);
      Continued(ts, pos, p, ParseItems(ts, p).pos);
      row := [first] + rest;
      assert row[1..] == rest;
      assert ElementExprs(row) == [ElementExpr(first)] + ElementExprs(rest);
    }
  }

  lemma {:induction false} SequenceIsWritten(ts: seq<PegToken>, pos: nat) returns (row: seq<Element>)
    requires pos <= |ts| && ParseSequence(ts, pos).Ok?
    ensures WrittenRow(row) && RowTokens(row) == ts[pos..ParseSequence(ts, pos).pos]
    ensures RowExpr(row) == ParseSequence(ts, pos).value
    decreases |ts| - pos, 3
  {
    row := RowIsWritten(ts, pos);
  }

  lemma {:induction false} MoreAreWritten(ts: seq<PegToken>, pos: nat) returns (body: seq<Row>)
    requires pos <= |ts| && ParseAlternatives(ts, pos).Ok?
    ensures forall i :: 0 <= i < |body| ==> WrittenRow(body[i].elements)
    ensures MoreTokens(body) == ts[pos..ParseAlternatives(ts, pos).pos]
    ensures RowExprs(body) == ParseAlternatives(ts, pos).value
    decreases |ts| - pos, 4
  {
    body := [];
    if IsOp(ts, pos, '/') {
      var row := SequenceIsWritten(ts, pos + 1);
      var p := ParseSequence(ts, pos + 1).pos;
      var rest := MoreAreWritten(ts, p);
      body := [Row(row)] + rest;
      OneMoreWritten(ts, pos, row, p, rest, ParseAlternatives(ts, p).pos, body);
    }
  }

  lemma {:induction false} OneMoreWritten(ts: seq<PegToken>, pos: nat, row: seq<Element>, p: nat, rest: seq<Row>,
                                          q: nat, body: seq<Row>)
    requires IsOp(ts, pos, '/') && pos < p <= q <= |ts| && body == [Row(row)] + rest
    requires RowTokens(row) == ts[pos + 1..p] && MoreTokens(rest) == ts[p..q]
    ensures MoreTokens(body) == ts[pos..q] && RowExprs(body) == [RowExpr(row)] + RowExprs(rest)
  {
    OpStands(ts, pos, '/');
    Continued(ts, pos + 1, p, q);
    Continued(ts, pos, pos + 1, q);
    assert body[1..] == rest;
  }

  lemma {:induction false} BodyIsWritten(ts: seq<PegToken>, pos: nat) returns (body: seq<Row>)
    requires pos <= |ts| && ParseChoice(ts, pos).Ok?
    ensures WrittenBody(body) && BodyTokens(body) == ts[pos..ParseChoice(ts, pos).pos]
    ensures BodyExpr(body) == ParseChoice(ts, pos).value
    decreases |ts| - pos, 5
  {
    var row := SequenceIsWritten(ts, pos);
    var p := ParseSequence(ts, pos).pos;
    if IsOp(ts, p, '/') {
      var rest := MoreAreWritten(ts, p);
      body := [Row(row)] + rest;
      SeveralWritten(ts, pos, row, p, rest, ParseAlternatives(ts, p).pos, body);
    } else {
      body := [Row(row)];
      OneWritten(row, body);
    }
  }

  lemma {:induction false} OneWritten(row: seq<Element>, body: seq<Row>)
    requires body == [Row(row)]
    ensures BodyTokens(body) == RowTokens(row) && BodyExpr(body) == RowExpr(row)
  {
    assert body[1..] == [];
    assert RowTokens(row) + [] == RowTokens(row);
  }

  lemma {:induction false} SeveralWritten(ts: seq<PegToken>, pos: nat, row: seq<Element>, p: nat, rest: seq<Row>,
                                          q: nat, body: seq<Row>)
    requires pos <= p <= q <= |ts| && body == [Row(row)] + rest
    requires RowTokens(row) == ts[pos..p] && MoreTokens(rest) == ts[p..q]
    ensures BodyTokens(body) == ts[pos..q]
    ensures |body| > 1 ==> BodyExpr(body) == Choice([RowExpr(row)] + RowExprs(rest))
  {
    Continued(ts, pos, p, q);
    assert body[1..] == rest;
    assert RowExprs(body) == [RowExpr(row)] + RowExprs(rest);
  }

  // ----- both ways -----

  /** What the notation makes of a token list. */
  ghost predicate Denotes(ts: seq<PegToken>, e: Expr) {
    exists body :: WrittenBody(body) && BodyTokens(body) == ts && BodyExpr(body) == e
  }

  /** The parser accepts exactly the token lists of written bodies, and gives what they stand for;
      no list stands for two expressions. */
  lemma BuildIff(ts: seq<PegToken>, e: Expr)
    ensures Build(ts) == Ok(e, |ts|) <==> Denotes(ts, e)
    ensures Build(ts).Err? <==> forall x :: !Denotes(ts, x)
  {
    if Build(ts).Ok? {
      var body := BodyIsWritten(ts, 0);
      assert ts[0..|ts|] == ts;
      assert Denotes(ts, Build(ts).value);
    }
    forall x | Denotes(ts, x)
      ensures Build(ts) == Ok(x, |ts|)
    {
      var body :| WrittenBody(body) && BodyTokens(body) == ts && BodyExpr(body) == x;
      assert ts[0..0 + |ts|] == ts;
      BodyIsRead(ts, 0, body);
    }
  }
}
