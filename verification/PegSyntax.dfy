/** Rule expressions: the recursive-descent parser over a rule's tokens, and the printer
    (internal/grammar/expression.go). */
module PegSyntax {
  import opened Tokens
  import opened PegGrammar

  datatype PegTokenType = LiteralToken | ReferenceToken | OperatorToken | FunctionCallToken | RegexToken

  datatype PegToken = PegToken(kind: PegTokenType, text: string)

  function Op(c: char): PegToken { PegToken(OperatorToken, [c]) }

  /** Operator tokens are one byte long. */
  predicate WellFormedTokens(ts: seq<PegToken>) {
    forall i :: 0 <= i < |ts| && ts[i].kind == OperatorToken ==> |ts[i].text| == 1
  }

  predicate IsOp(ts: seq<PegToken>, pos: nat, c: char) {
    pos < |ts| && ts[pos].kind == OperatorToken && ts[pos].text == [c]
  }

  datatype Parsed<+T> = Ok(value: T, pos: nat) | Err(msg: string)

  // ----- the grammar of rule expressions, as functions of the position -----

  function ParseChoice(ts: seq<PegToken>, pos: nat): (r: Parsed<Expr>)
    requires pos <= |ts|
    ensures r.Ok? ==> pos <= r.pos <= |ts| && TopShape(r.value)
    decreases |ts| - pos, 5
  {
    match ParseSequence(ts, pos)
    case Err(m) => Err(m)
    case Ok(first, p) =>
      assert first.Choice? ==> !PrimaryShape(first);
      if !IsOp(ts, p, '/') then Ok(first, p)
      else match ParseAlternatives(ts, p)
        case Err(m) => Err(m)
        case Ok(rest, q) =>
          assert forall i :: 0 < i < 1 + |rest| ==> ([first] + rest)[i] == rest[i - 1];
          Ok(Choice([first] + rest), q)
  }

  /** ('/' sequence)* */
  function ParseAlternatives(ts: seq<PegToken>, pos: nat): (r: Parsed<seq<Expr>>)
    requires pos <= |ts|
    ensures r.Ok? ==> pos <= r.pos <= |ts| && forall i :: 0 <= i < |r.value| ==> PostfixShape(r.value[i])
    ensures r.Ok? && IsOp(ts, pos, '/') ==> r.value != []
    decreases |ts| - pos, 4
  {
    if !IsOp(ts, pos, '/') then Ok([], pos)
    else match ParseSequence(ts, pos + 1)
      case Err(m) => Err(m)
      case Ok(next, p) => match ParseAlternatives(ts, p)
        case Err(m) => Err(m)
        case Ok(rest, q) => Ok([next] + rest, q)
  }

  function ParseSequence(ts: seq<PegToken>, pos: nat): (r: Parsed<Expr>)
    requires pos <= |ts|
    ensures r.Ok? ==> pos <= r.pos <= |ts| && PostfixShape(r.value)
    decreases |ts| - pos, 3
  {
    match ParseItems(ts, pos)
    case Err(m) => Err(m)
    case Ok(items, p) => Ok(if |items| == 1 then items[0] else Sequence(items), p)
  }

  predicate SequenceStops(ts: seq<PegToken>, pos: nat) {
    pos >= |ts| || IsOp(ts, pos, '/') || IsOp(ts, pos, ')')
  }

  /** postfix* */
  function ParseItems(ts: seq<PegToken>, pos: nat): (r: Parsed<seq<Expr>>)
    requires pos <= |ts|
    ensures r.Ok? ==> pos <= r.pos <= |ts| && forall i :: 0 <= i < |r.value| ==> PostfixShape(r.value[i])
    decreases |ts| - pos, 2
  {
    if SequenceStops(ts, pos) then Ok([], pos)
    else match ParsePostfix(ts, pos)
      case Err(m) => Err(m)
      case Ok(item, p) => match ParseItems(ts, p)
        case Err(m) => Err(m)
        case Ok(rest, q) => Ok([item] + rest, q)
  }

  function ParsePostfix(ts: seq<PegToken>, pos: nat): (r: Parsed<Expr>)
    requires pos <= |ts|
    ensures r.Ok? ==> pos < r.pos <= |ts| && PostfixShape(r.value)
    decreases |ts| - pos, 1
  {
    match ParsePrimary(ts, pos)
    case Err(m) => Err(m)
    case Ok(node, p) =>
      if IsOp(ts, p, '?') then Ok(Optional(node), p + 1)
      else if IsOp(ts, p, '*') then Ok(OptionalRepeat(node), p + 1)
      else if IsOp(ts, p, '+') then Ok(Repeat(node), p + 1)
      else Ok(node, p)
  }

  function ParsePrimary(ts: seq<PegToken>, pos: nat): (r: Parsed<Expr>)
    requires pos <= |ts|
    ensures r.Ok? ==> pos < r.pos <= |ts| && PrimaryShape(r.value)
    decreases |ts| - pos, 0
  {
    if IsOp(ts, pos, '(') then
      match ParseChoice(ts, pos + 1)
      case Err(m) => Err(m)
      case Ok(inner, p) =>
        if !IsOp(ts, p, ')') then Err("expected closing ')' in PEG rule")
        else Ok(if inner.Sequence? then inner else Sequence([inner]), p + 1)
    else if IsOp(ts, pos, '!') then ParsePrimary(ts, pos + 1)
    else if pos >= |ts| then Err("unexpected end of PEG rule tokens")
    else
      match ts[pos].kind
      case LiteralToken => Ok(Literal(ts[pos].text), pos + 1)
      case ReferenceToken => Ok(Reference(ts[pos].text), pos + 1)
      case FunctionCallToken =>
        (match ParseChoice(ts, pos + 1)
         case Err(m) => Err(m)
         case Ok(body, p) =>
           if !IsOp(ts, p, ')') then Err("expected closing ')' after function call")
           else Ok(Call(ts[pos].text, body), p + 1))
      case RegexToken => Ok(Regex(ts[pos].text), pos + 1)
      case OperatorToken => Err("unrecognized peg token type")
  }

  /** buildExpression: the whole token stream is one choice. */
  function Build(ts: seq<PegToken>): Parsed<Expr> {
    match ParseChoice(ts, 0)
    case Err(m) => Err(m)
    case Ok(e, p) => if p == |ts| then Ok(e, p) else Err("unexpected trailing tokens in PEG rule")
  }

  // ----- the trees the parser can build -----

  ghost predicate PrimaryShape(e: Expr)
    decreases e, 0
  {
    match e
    case Literal(_) => true
    case Reference(_) => true
    case Regex(_) => true
    case Call(_, arg) => TopShape(arg)
    case Sequence(cs) =>
      if |cs| == 1 then !cs[0].Sequence? && TopShape(cs[0])
      else forall i :: 0 <= i < |cs| ==> PostfixShape(cs[i])
    case _ => false
  }

  ghost predicate PostfixShape(e: Expr)
    decreases e, 1
  {
    match e
    case Optional(c) => PrimaryShape(c)
    case Repeat(c) => PrimaryShape(c)
    case OptionalRepeat(c) => PrimaryShape(c)
    case _ => PrimaryShape(e)
  }

  /** A rule body, a macro argument, or what stands inside parentheses. */
  ghost predicate TopShape(e: Expr)
    decreases e, 2
  {
    if e.Choice? then |e.children| >= 2 && forall i :: 0 <= i < |e.children| ==> PostfixShape(e.children[i])
    else PostfixShape(e)
  }

  // ----- the parser object -----

  class ExprParser {
    const tokens: seq<PegToken>
    var pos: nat

    constructor (tokens: seq<PegToken>)
      ensures this.tokens == tokens && pos == 0
    {
      this.tokens, pos := tokens, 0;
    }

    predicate AtOp(c: char)
      requires WellFormedTokens(tokens)
      reads this
    {
      pos < |tokens| && tokens[pos].kind == OperatorToken && tokens[pos].text[0] == c
    }

    /** The method's result and the new position are what the function says. */
    ghost predicate Does<T>(result: Parsed<T>, want: Parsed<T>)
      reads this
    {
      match want
      case Err(m) => result == Err(m)
      case Ok(v, p) => result == Ok(v, p) && pos == p
    }

    method ReadChoice() returns (r: Parsed<Expr>)
      requires WellFormedTokens(tokens) && pos <= |tokens|
      modifies this
      ensures Does(r, ParseChoice(tokens, old(pos))) && old(pos) <= pos <= |tokens|
      decreases |tokens| - pos, 3
    {
      var first := ReadSequence();
      if first.Err? {
        return first;
      }
      if !AtOp('/') {
        return first;
      }
      var children := [first.value];
      ghost var start := pos;
      ghost var rest := ParseAlternatives(tokens, start);
      assert rest.Ok? ==> children[1..] + rest.value == rest.value;
      while AtOp('/')
        invariant start <= pos <= |tokens| && first.pos == start
        invariant children != [] && children[0] == first.value
        invariant Joined(children[1..], ParseAlternatives(tokens, pos)) == rest
        decreases |tokens| - pos
      {
        pos := pos + 1;
        var next := ReadSequence();
        if next.Err? {
          return next;
        }
        JoinedMore(children[1..], next.value, ParseAlternatives(tokens, pos));
        assert (children + [next.value])[1..] == children[1..] + [next.value];
        children := children + [next.value];
      }
      assert children == [first.value] + children[1..];
      assert children[1..] + [] == children[1..];
      return Ok(Choice(children), pos);
    }

    method ReadSequence() returns (r: Parsed<Expr>)
      requires WellFormedTokens(tokens) && pos <= |tokens|
      modifies this
      ensures Does(r, ParseSequence(tokens, old(pos))) && old(pos) <= pos <= |tokens|
      decreases |tokens| - pos, 2
    {
      var children := [];
      ghost var all := ParseItems(tokens, pos);
      assert all.Ok? ==> [] + all.value == all.value;
      while pos < |tokens| && !AtOp('/') && !AtOp(')')
        invariant old(pos) <= pos <= |tokens|
        invariant Joined(children, ParseItems(tokens, pos)) == all
        decreases |tokens| - pos
      {
        var child := ReadPostfix();
        if child.Err? {
          return child;
        }
        JoinedMore(children, child.value, ParseItems(tokens, pos));
        children := children + [child.value];
      }
      assert children + [] == children;
      if |children| == 1 {
        return Ok(children[0], pos);
      }
      return Ok(Sequence(children), pos);
    }

    method ReadPostfix() returns (r: Parsed<Expr>)
      requires WellFormedTokens(tokens) && pos <= |tokens|
      modifies this
      ensures Does(r, ParsePostfix(tokens, old(pos))) && old(pos) <= pos <= |tokens|
      ensures r.Ok? ==> old(pos) < pos
      decreases |tokens| - pos, 1
    {
      var node := ReadPrimary();
      if node.Err? {
        return node;
      }
      if AtOp('?') {
        pos := pos + 1;
        return Ok(Optional(node.value), pos);
      }
      if AtOp('*') {
        pos := pos + 1;
        return Ok(OptionalRepeat(node.value), pos);
      }
      if AtOp('+') {
        pos := pos + 1;
        return Ok(Repeat(node.value), pos);
      }
      return node;
    }

    method ReadPrimary() returns (r: Parsed<Expr>)
      requires WellFormedTokens(tokens) && pos <= |tokens|
      modifies this
      ensures Does(r, ParsePrimary(tokens, old(pos))) && old(pos) <= pos <= |tokens|
      ensures r.Ok? ==> old(pos) < pos
      decreases |tokens| - pos, 0
    {
      if AtOp('(') {
        pos := pos + 1;
        var inner := ReadChoice();
        if inner.Err? {
          return inner;
        }
        if !AtOp(')') {
          return Err("expected closing ')' in PEG rule");
        }
        pos := pos + 1;
        if inner.value.Sequence? {
          return Ok(inner.value, pos);
        }
        return Ok(Sequence([inner.value]), pos);
      }
      if AtOp('!') {
        pos := pos + 1;
        r := ReadPrimary();
        return;
      }
      if pos >= |tokens| {
        return Err("unexpected end of PEG rule tokens");
      }
      var tok := tokens[pos];
      pos := pos + 1;
      match tok.kind
      case LiteralToken => return Ok(Literal(tok.text), pos);
      case ReferenceToken => return Ok(Reference(tok.text), pos);
      case FunctionCallToken =>
        var body := ReadChoice();
        if body.Err? {
          return body;
        }
        if !AtOp(')') {
          return Err("expected closing ')' after function call");
        }
        pos := pos + 1;
        return Ok(Call(tok.text, body.value), pos);
      case RegexToken => return Ok(Regex(tok.text), pos);
      case OperatorToken => return Err("unrecognized peg token type");
    }
  }

  function Joined(front: seq<Expr>, rest: Parsed<seq<Expr>>): Parsed<seq<Expr>> {
    if rest.Ok? then Ok(front + rest.value, rest.pos) else rest
  }

  lemma JoinedMore(front: seq<Expr>, item: Expr, rest: Parsed<seq<Expr>>)
    ensures rest.Ok? ==> Joined(front, Ok([item] + rest.value, rest.pos)) == Joined(front + [item], rest)
  {
    if rest.Ok? {
      assert front + ([item] + rest.value) == (front + [item]) + rest.value;
    }
  }

  /** buildExpression (expression.go:94-104). */
  method BuildExpression(tokens: seq<PegToken>) returns (r: Parsed<Expr>)
    requires WellFormedTokens(tokens)
    ensures r == Build(tokens)
  {
    var p := new ExprParser(tokens);
    var root := p.ReadChoice();
    if root.Err? {
      return root;
    }
    if p.pos != |p.tokens| {
      return Err("unexpected trailing tokens in PEG rule");
    }
    return root;
  }
}
