/** The statement loop: match, transform, and give every statement a span so that the spans tile
    the source (parser/parser.go:90-189). */
module Statements {
  import opened Tokens
  import opened ParseTree
  import opened PegSemantics
  import opened Matching
  import Utf8
  import LexSpec
  import LexFacts
  import Lexer

  /** What the transformer makes of a statement's tree: a statement, nothing, or an error. */
  datatype Transformed = Statement(node: ParseResult) | NoStatement | Raised(msg: string)

  datatype ParseError =
    | NotUtf8(verdict: Utf8.Verdict)
    | LexFailure(msg: string, offset: nat)
    | MatchFailure(v: Verdict)
    | NoProgressMade
    | ShapeMismatch
    | TransformFailure(msg: string)

  datatype Part = Shapeless | Absent | Present(tree: ParseResult)

  /** tnode{result}.child(0).opt() (parser/tree.go). */
  function StatementPart(r: ParseResult): Part {
    if !r.ListResult? || r.children == [] then Shapeless
    else if !r.children[0].OptionalResult? then Present(r.children[0])
    else match r.children[0].inner
      case None => Absent
      case Some(t) => Present(t)
  }

  /** End of the last real token in tokens[pos..newPos], clamped to n; n when there is none. */
  function ConsumedEnd(tokens: seq<Token>, pos: nat, newPos: nat, n: nat): int
    requires newPos <= |tokens|
    decreases newPos
  {
    if newPos <= pos then n
    else if tokens[newPos - 1].kind == EndOfInput then ConsumedEnd(tokens, pos, newPos - 1, n)
    else if tokens[newPos - 1].span.end < n then tokens[newPos - 1].span.end
    else n
  }

  /** consumedEnd (parser.go:162-173). */
  method FindConsumedEnd(tokens: seq<Token>, pos: nat, newPos: nat, n: nat) returns (end: int)
    requires newPos <= |tokens|
    ensures end == ConsumedEnd(tokens, pos, newPos, n)
  {
    var i := newPos - 1;
    while i >= pos
      invariant -1 <= i < newPos
      invariant ConsumedEnd(tokens, pos, i + 1, n) == ConsumedEnd(tokens, pos, newPos, n)
    {
      if tokens[i].kind == EndOfInput {
        i := i - 1;
        continue;
      }
      if tokens[i].span.end < n {
        return tokens[i].span.end;
      }
      return n;
    }
    return n;
  }

  datatype Item = Item(node: ParseResult, span: Span)

  datatype Outcome = Done(items: seq<Item>) | Refused(err: ParseError)

  /** Everything the loop is run with besides the tokens. */
  datatype Setting = Setting(engine: Engine, top: nat, transform: ParseResult -> Transformed)

  function Cons(item: Item, rest: Outcome): Outcome {
    if rest.Done? then Done([item] + rest.items) else rest
  }

  /** The statements from token pos on, when the last span so far ended at prevEnd. */
  ghost function StatementsFrom(se: Setting, w: Witness, tokens: seq<Token>, n: nat, pos: nat, prevEnd: int): Outcome
    requires WellRanked(se.engine, w) && se.top in w.live
    decreases Left(tokens, pos)
  {
    if pos >= |tokens| then Done([])
    else match Meaning(se.engine, w, se.top, tokens, pos)
      case Accepted(r, p) =>
        if p == pos then Refused(NoProgressMade)
        else (match StatementPart(r)
          case Shapeless => Refused(ShapeMismatch)
          case Absent => StatementsFrom(se, w, tokens, n, p, prevEnd)
          case Present(t) =>
            match se.transform(t)
            case Raised(msg) => Refused(TransformFailure(msg))
            case NoStatement => StatementsFrom(se, w, tokens, n, p, prevEnd)
            case Statement(node) =>
              var end := ConsumedEnd(tokens, pos, p, n);
              Cons(Item(node, Span(prevEnd, end)), StatementsFrom(se, w, tokens, n, p, end)))
      case v => Refused(MatchFailure(v))
  }

  /** The last span stretches to the end of the source. */
  function Stretched(items: seq<Item>, n: nat): seq<Item> {
    if items == [] then []
    else
      var last := items[|items| - 1];
      if last.span.end < n then items[|items| - 1 := last.(span := Span(last.span.start, n))] else items
  }

  /** The statements of a source that is UTF-8, or why there are none. */
  ghost function StatementsOf(se: Setting, w: Witness, lexicon: Lexicon, src: string): Outcome
    requires WellRanked(se.engine, w) && se.top in w.live
  {
    match LexSpec.TokensOf(lexicon, src)
    case TokenizeError(msg, offset) => Refused(LexFailure(msg, offset))
    case Tokenized(tokens) =>
      match StatementsFrom(se, w, tokens, |src|, 0, 0)
      case Done(items) => Done(Stretched(items, |src|))
      case Refused(err) => Refused(err)
  }

  // ----- the spans tile -----

  /** The spans of items cover [from, end) without gap, overlap or inversion. */
  ghost predicate TilesUpTo(items: seq<Item>, from: int, end: int) {
    items != []
    && items[0].span.start == from && items[|items| - 1].span.end == end
    && (forall i :: 0 <= i < |items| ==> items[i].span.start <= items[i].span.end)
    && (forall i :: 0 < i < |items| ==> items[i].span.start == items[i - 1].span.end)
  }

  /** The statements, if there are any, tile a stretch from `from` on, within n. */
  ghost predicate Chained(o: Outcome, from: int, n: nat) {
    o.Done? && o.items != [] ==>
      var end := o.items[|o.items| - 1].span.end;
      TilesUpTo(o.items, from, end) && end <= n
  }

  /** No token from pos on ends before prevEnd. */
  ghost predicate AllEndAfter(tokens: seq<Token>, pos: nat, prevEnd: int) {
    forall k :: pos <= k < |tokens| ==> prevEnd <= tokens[k].span.end
  }

  lemma {:induction false} ConsumedEndInOrder(tokens: seq<Token>, pos: nat, newPos: nat, n: nat, prevEnd: int)
    requires LexFacts.WellSpanned(tokens, n) && pos <= newPos <= |tokens|
    requires prevEnd <= n && AllEndAfter(tokens, pos, prevEnd)
    requires newPos < |tokens| ==> pos < newPos
    ensures prevEnd <= ConsumedEnd(tokens, pos, newPos, n) <= n
    ensures AllEndAfter(tokens, newPos, ConsumedEnd(tokens, pos, newPos, n))
    decreases newPos
  {
    if pos < newPos && tokens[newPos - 1].kind == EndOfInput {
      OnlySentinel(tokens, pos, newPos - 1, n, prevEnd);
    }
  }

  lemma {:induction false} OnlySentinel(tokens: seq<Token>, pos: nat, newPos: nat, n: nat, prevEnd: int)
    requires LexFacts.WellSpanned(tokens, n) && pos <= newPos < |tokens|
    requires prevEnd <= n && AllEndAfter(tokens, pos, prevEnd)
    ensures prevEnd <= ConsumedEnd(tokens, pos, newPos, n) <= n
  {
    if pos < newPos {
      assert tokens[newPos - 1].kind != EndOfInput;
    }
  }

  lemma {:induction false} SpansChain(se: Setting, w: Witness, tokens: seq<Token>, n: nat, pos: nat, prevEnd: int)
    requires WellRanked(se.engine, w) && se.top in w.live
    requires LexFacts.WellSpanned(tokens, n) && pos <= |tokens|
    requires 0 <= prevEnd <= n && AllEndAfter(tokens, pos, prevEnd)
    ensures Chained(StatementsFrom(se, w, tokens, n, pos, prevEnd), prevEnd, n)
    decreases Left(tokens, pos)
  {
    if pos < |tokens| {
      match Meaning(se.engine, w, se.top, tokens, pos)
      case Accepted(r, p) =>
        if p != pos {
          match StatementPart(r)
          case Shapeless =>
          case Absent => SpansChain(se, w, tokens, n, p, prevEnd);
          case Present(t) =>
            match se.transform(t)
            case Raised(_) =>
            case NoStatement => SpansChain(se, w, tokens, n, p, prevEnd);
            case Statement(node) =>
              ConsumedEndInOrder(tokens, pos, p, n, prevEnd);
              var end := ConsumedEnd(tokens, pos, p, n);
              SpansChain(se, w, tokens, n, p, end);
              OneMoreChained(Item(node, Span(prevEnd, end)), StatementsFrom(se, w, tokens, n, p, end), n);
        }
      case _ =>
    }
  }

  lemma OneMoreChained(item: Item, rest: Outcome, n: nat)
    requires item.span.start <= item.span.end <= n && Chained(rest, item.span.end, n)
    ensures Chained(Cons(item, rest), item.span.start, n)
  {
  }

  lemma LastStretches(items: seq<Item>, from: int, n: nat)
    requires Chained(Done(items), from, n) && items != []
    ensures TilesUpTo(Stretched(items, n), from, n)
  {
  }

  /** Statement spans tile the input: for every accepted source with at least one statement the
      first span starts at 0, each starts where the one before ended, none is inverted and the
      last ends at the end of the source. */
  lemma SpansTile(se: Setting, w: Witness, lexicon: Lexicon, src: string)
    requires WellRanked(se.engine, w) && se.top in w.live
    ensures
      var o := StatementsOf(se, w, lexicon, src);
      o.Done? && o.items != [] ==> TilesUpTo(o.items, 0, |src|)
  {
    var tokenized := LexSpec.TokensOf(lexicon, src);
    if tokenized.Tokenized? {
      LexFacts.TokensWellSpanned(lexicon, src);
      SpansChain(se, w, tokenized.tokens, |src|, 0, 0);
      var o := StatementsFrom(se, w, tokenized.tokens, |src|, 0, 0);
      if o.Done? && o.items != [] {
        LastStretches(o.items, 0, |src|);
      }
    }
  }

  function Slices(src: string, items: seq<Item>): string
    requires forall i :: 0 <= i < |items| ==> 0 <= items[i].span.start <= items[i].span.end <= |src|
  {
    if items == [] then ""
    else Slices(src, items[..|items| - 1]) + src[items[|items| - 1].span.start..items[|items| - 1].span.end]
  }

  lemma {:induction false} TilesWithin(items: seq<Item>, from: int, end: int, i: nat)
    requires TilesUpTo(items, from, end) && i < |items|
    ensures from <= items[i].span.start && items[i].span.end <= end
    decreases |items| - i
  {
    StartsAfter(items, from, end, i);
    if i + 1 < |items| {
      TilesWithin(items, from, end, i + 1);
    }
  }

  lemma {:induction false} StartsAfter(items: seq<Item>, from: int, end: int, i: nat)
    requires TilesUpTo(items, from, end) && i < |items|
    ensures from <= items[i].span.start
  {
    if i > 0 {
      StartsAfter(items, from, end, i - 1);
    }
  }

  /** Slicing the source by the spans, in order, gives the source back. */
  lemma {:induction false} SlicesRecoverSource(src: string, items: seq<Item>, end: nat)
    requires end <= |src| && TilesUpTo(items, 0, end)
    ensures forall i :: 0 <= i < |items| ==> 0 <= items[i].span.start <= items[i].span.end <= |src|
    ensures Slices(src, items) == src[..end]
    decreases |items|
  {
    forall i | 0 <= i < |items|
      ensures 0 <= items[i].span.start && items[i].span.end <= |src|
    {
      TilesWithin(items, 0, end, i);
    }
    var front := items[..|items| - 1];
    if front != [] {
      SlicesRecoverSource(src, front, front[|front| - 1].span.end);
    }
  }

  // ----- which tokens make which statement -----

  /** What a top-level match leaves to the loop. */
  predicate Passes(se: Setting, tree: ParseResult) {
    var part := StatementPart(tree);
    !part.Shapeless? && (part.Present? ==> !se.transform(part.tree).Raised?)
  }

  predicate MakesOne(se: Setting, tree: ParseResult) {
    var part := StatementPart(tree);
    part.Present? && se.transform(part.tree).Statement?
  }

  predicate Makes(se: Setting, tree: ParseResult, node: ParseResult) {
    MakesOne(se, tree) && se.transform(StatementPart(tree).tree).node == node
  }

  /** Token k is the last of tokens[pos..newPos] that is not the sentinel. */
  predicate LastReal(tokens: seq<Token>, pos: nat, newPos: nat, k: nat)
    requires newPos <= |tokens|
  {
    pos <= k < newPos && tokens[k].kind != EndOfInput && forall j :: k < j < newPos ==> tokens[j].kind == EndOfInput
  }

  function Within(end: int, n: nat): int { if end < n then end else n }

  /** The end of that token within n; n when there is none. */
  ghost predicate EndsAt(tokens: seq<Token>, pos: nat, newPos: nat, n: nat, end: int)
    requires newPos <= |tokens|
  {
    || (exists k: nat :: LastReal(tokens, pos, newPos, k) && end == Within(tokens[k].span.end, n))
    || (end == n && forall k :: pos <= k < newPos ==> tokens[k].kind == EndOfInput)
  }

  lemma {:induction false} ConsumedEndIs(tokens: seq<Token>, pos: nat, newPos: nat, n: nat)
    requires newPos <= |tokens|
    ensures EndsAt(tokens, pos, newPos, n, ConsumedEnd(tokens, pos, newPos, n))
    decreases newPos
  {
    if pos < newPos {
      var last := newPos - 1;
      if tokens[last].kind == EndOfInput {
        ConsumedEndIs(tokens, pos, last, n);
        var end := ConsumedEnd(tokens, pos, last, n);
        if k: nat :| LastReal(tokens, pos, last, k) && end == Within(tokens[k].span.end, n) {
          assert LastReal(tokens, pos, newPos, k);
        }
      } else {
        assert LastReal(tokens, pos, newPos, last);
      }
    }
  }

  /** The statements are those of the matches in a row that make one, in order; each but the last
      ends where its last token does. */
  ghost predicate MadeOf(se: Setting, tokens: seq<Token>, n: nat, cuts: seq<nat>, trees: seq<ParseResult>,
                         made: seq<nat>, items: seq<Item>) {
    && EachMade(se, tokens, n, cuts, trees, made, items)
    && Rising(made) && NoneMissed(se, trees, made)
  }

  ghost predicate EachMade(se: Setting, tokens: seq<Token>, n: nat, cuts: seq<nat>, trees: seq<ParseResult>,
                           made: seq<nat>, items: seq<Item>) {
    && |cuts| == |trees| + 1 && |made| == |items|
    && forall k :: 0 <= k < |made| ==> made[k] < |trees| && MadeFrom(se, tokens, n, cuts, trees, made[k], items[k])
  }

  predicate Rising(made: seq<nat>) { forall i, j :: 0 <= i < j < |made| ==> made[i] < made[j] }

  predicate NoneMissed(se: Setting, trees: seq<ParseResult>, made: seq<nat>) {
    forall i :: 0 <= i < |trees| && MakesOne(se, trees[i]) ==> i in made
  }

  ghost predicate MadeFrom(se: Setting, tokens: seq<Token>, n: nat, cuts: seq<nat>, trees: seq<ParseResult>, i: nat,
                           item: Item)
    requires i < |trees| == |cuts| - 1
  {
    && cuts[i + 1] <= |tokens| && Makes(se, trees[i], item.node)
    && EndsAt(tokens, cuts[i], cuts[i + 1], n, item.span.end)
  }

  lemma MadeLater(se: Setting, tokens: seq<Token>, n: nat, pos: nat, tree: ParseResult, cuts: seq<nat>,
                  trees: seq<ParseResult>, made: seq<nat>, items: seq<Item>) returns (later: seq<nat>)
    requires MadeOf(se, tokens, n, cuts, trees, made, items) && !MakesOne(se, tree)
    ensures MadeOf(se, tokens, n, [pos] + cuts, [tree] + trees, later, items) && forall i :: i in later ==> i > 0
  {
    later := Shifted(made);
    var more, all := [pos] + cuts, [tree] + trees;
    forall k | 0 <= k < |made|
      ensures MadeFrom(se, tokens, n, more, all, later[k], items[k])
    {
      assert MadeFrom(se, tokens, n, cuts, trees, made[k], items[k]);
      assert more[later[k]] == cuts[made[k]] && more[later[k] + 1] == cuts[made[k] + 1];
    }
    assert forall k :: 0 <= k < |made| ==> later[k] in later;
    NoneMissedLater(se, tree, trees, made, later);
  }

  function Shifted(made: seq<nat>): (r: seq<nat>)
    ensures |r| == |made| && forall k :: 0 <= k < |made| ==> r[k] == made[k] + 1
  {
    seq(|made|, k requires 0 <= k < |made| => made[k] + 1)
  }

  lemma MadeFirst(se: Setting, tokens: seq<Token>, n: nat, pos: nat, tree: ParseResult, item: Item, cuts: seq<nat>,
                  trees: seq<ParseResult>, made: seq<nat>, items: seq<Item>) returns (all: seq<nat>)
    requires MadeOf(se, tokens, n, cuts, trees, made, items)
    requires cuts[0] <= |tokens| && Makes(se, tree, item.node) && EndsAt(tokens, pos, cuts[0], n, item.span.end)
    ensures MadeOf(se, tokens, n, [pos] + cuts, [tree] + trees, all, [item] + items)
  {
    all := [0] + Shifted(made);
    AllMade(se, tokens, n, pos, tree, item, cuts, trees, made, items);
    BehindFirst(made);
    NoneMissedLater(se, tree, trees, made, all);
  }

  lemma BehindFirst(made: seq<nat>)
    requires Rising(made)
    ensures
      var all := [0] + Shifted(made);
      Rising(all) && 0 in all && forall k :: 0 <= k < |made| ==> made[k] + 1 in all
  {
    var all, later := [0] + Shifted(made), Shifted(made);
    assert all[0] == 0;
    forall k | 0 <= k < |made|
      ensures made[k] + 1 in all
    {
      assert later[k] in later;
    }
  }

  lemma NoneMissedLater(se: Setting, tree: ParseResult, trees: seq<ParseResult>, made: seq<nat>, all: seq<nat>)
    requires NoneMissed(se, trees, made) && (forall k :: 0 <= k < |made| ==> made[k] + 1 in all)
    requires MakesOne(se, tree) ==> 0 in all
    ensures NoneMissed(se, [tree] + trees, all)
  {
    var others := [tree] + trees;
    forall i | 0 <= i < |others| && MakesOne(se, others[i])
      ensures i in all
    {
      if i > 0 {
        assert others[i] == trees[i - 1];
        var k :| 0 <= k < |made| && made[k] == i - 1;
      }
    }
  }

  lemma AllMade(se: Setting, tokens: seq<Token>, n: nat, pos: nat, tree: ParseResult, item: Item, cuts: seq<nat>,
                trees: seq<ParseResult>, made: seq<nat>, items: seq<Item>)
    requires EachMade(se, tokens, n, cuts, trees, made, items)
    requires cuts[0] <= |tokens| && Makes(se, tree, item.node) && EndsAt(tokens, pos, cuts[0], n, item.span.end)
    ensures
      EachMade(se, tokens, n, [pos] + cuts, [tree] + trees, [0] + Shifted(made), [item] + items)
  {
    var all := [0] + Shifted(made);
    var more, others, both := [pos] + cuts, [tree] + trees, [item] + items;
    forall k | 0 <= k < |all|
      ensures all[k] < |others| && MadeFrom(se, tokens, n, more, others, all[k], both[k])
    {
      if k > 0 {
        var i := made[k - 1];
        assert MadeFrom(se, tokens, n, cuts, trees, i, items[k - 1]);
        assert all[k] == i + 1 && both[k] == items[k - 1];
        assert more[i + 1] == cuts[i] && more[i + 2] == cuts[i + 1] && others[i + 1] == trees[i];
      }
    }
  }

  /** The loop: matches in a row up to the end of the tokens, every one of which passes, and the
      statements made of them. */
  lemma {:induction false} StatementsInARow(se: Setting, w: Witness, tokens: seq<Token>, n: nat, pos: nat, prevEnd: int)
    returns (cuts: seq<nat>, trees: seq<ParseResult>, made: seq<nat>)
    requires WellRanked(se.engine, w) && se.top in w.live && pos <= |tokens|
    requires StatementsFrom(se, w, tokens, n, pos, prevEnd).Done?
    ensures InARow(se.engine, w, se.top, tokens, cuts, trees) && cuts[0] == pos && cuts[|cuts| - 1] == |tokens|
    ensures forall i :: 0 <= i < |trees| ==> Passes(se, trees[i])
    ensures MadeOf(se, tokens, n, cuts, trees, made, StatementsFrom(se, w, tokens, n, pos, prevEnd).items)
    decreases Left(tokens, pos)
  {
    if pos == |tokens| {
      return [pos], [], [];
    }
    var v := Meaning(se.engine, w, se.top, tokens, pos);
    var part := StatementPart(v.result);
    if part.Present? && se.transform(part.tree).Statement? {
      var end := ConsumedEnd(tokens, pos, v.newPos, n);
      var item := Item(se.transform(part.tree).node, Span(prevEnd, end));
      ConsumedEndIs(tokens, pos, v.newPos, n);
      cuts, trees, made := StatementsInARow(se, w, tokens, n, v.newPos, end);
      InARowGrows(se.engine, w, se.top, tokens, pos, v.result, cuts, trees);
      made := MadeFirst(se, tokens, n, pos, v.result, item, cuts, trees, made,
        StatementsFrom(se, w, tokens, n, v.newPos, end).items);
    } else {
      cuts, trees, made := StatementsInARow(se, w, tokens, n, v.newPos, prevEnd);
      InARowGrows(se.engine, w, se.top, tokens, pos, v.result, cuts, trees);
      made := MadeLater(se, tokens, n, pos, v.result, cuts, trees, made,
        StatementsFrom(se, w, tokens, n, v.newPos, prevEnd).items);
    }
    cuts, trees := [pos] + cuts, [v.result] + trees;
  }

  /** What the loop refuses a match for. */
  ghost predicate RefusedFor(se: Setting, w: Witness, tokens: seq<Token>, pos: nat, err: ParseError)
    requires WellRanked(se.engine, w) && se.top in w.live
  {
    pos < |tokens| &&
    match Meaning(se.engine, w, se.top, tokens, pos)
    case Accepted(r, p) =>
      if p == pos then err == NoProgressMade
      else
        var part := StatementPart(r);
        if part.Shapeless? then err == ShapeMismatch
        else part.Present? && exists msg :: se.transform(part.tree) == Raised(msg) && err == TransformFailure(msg)
    case v => err == MatchFailure(v)
  }

  /** A refusal is for the first match, after those in a row that pass, that does not. */
  lemma {:induction false} RefusalIsFirst(se: Setting, w: Witness, tokens: seq<Token>, n: nat, pos: nat, prevEnd: int)
    returns (cuts: seq<nat>, trees: seq<ParseResult>)
    requires WellRanked(se.engine, w) && se.top in w.live
    requires StatementsFrom(se, w, tokens, n, pos, prevEnd).Refused?
    ensures InARow(se.engine, w, se.top, tokens, cuts, trees) && cuts[0] == pos
    ensures forall i :: 0 <= i < |trees| ==> Passes(se, trees[i])
    ensures RefusedFor(se, w, tokens, cuts[|cuts| - 1], StatementsFrom(se, w, tokens, n, pos, prevEnd).err)
    decreases Left(tokens, pos)
  {
    cuts, trees := [pos], [];
    var v := Meaning(se.engine, w, se.top, tokens, pos);
    if v.Accepted? && v.newPos != pos && Passes(se, v.result) {
      var part := StatementPart(v.result);
      var made := part.Present? && se.transform(part.tree).Statement?;
      cuts, trees := RefusalIsFirst(se, w, tokens, n, v.newPos,
        if made then ConsumedEnd(tokens, pos, v.newPos, n) else prevEnd);
      InARowGrows(se.engine, w, se.top, tokens, pos, v.result, cuts, trees);
      cuts, trees := [pos] + cuts, [v.result] + trees;
    }
  }

  // ----- the loop -----

  class Stmt {
    const node: ParseResult
    var span: Span

    constructor (node: ParseResult, span: Span)
      ensures this.node == node && this.span == span
    {
      this.node, this.span := node, span;
    }

    method SetSpan(sp: Span)
      modifies this
      ensures span == sp
    {
      span := sp;
    }
  }

  ghost predicate Holds(stmts: seq<Stmt>, items: seq<Item>)
    reads stmts
  {
    |stmts| == |items|
    && (forall i :: 0 <= i < |stmts| ==> stmts[i].node == items[i].node && stmts[i].span == items[i].span)
    && (forall i, j :: 0 <= i < j < |stmts| ==> stmts[i] != stmts[j])
  }

  /** The bytes of a source, a character for each. */
  function BytesOf(src: string): seq<Utf8.Byte> {
    seq(|src|, i requires 0 <= i < |src| => src[i] as int % 256)
  }

  /** parseString (parser.go:90-154): the whole source is validated first. */
  method ParseString(se: Setting, ghost w: Witness, lexicon: Lexicon, src: string)
    returns (stmts: seq<Stmt>, err: Option<ParseError>)
    requires WellRanked(se.engine, w) && se.top in w.live
    ensures
      if Utf8.IsText(BytesOf(src)) then
        match err
        case None =>
          fresh(stmts) && StatementsOf(se, w, lexicon, src).Done?
            && Holds(stmts, StatementsOf(se, w, lexicon, src).items)
        case Some(e) => StatementsOf(se, w, lexicon, src) == Refused(e)
      else err.Some? && err.value.NotUtf8? && Utf8.Judges(BytesOf(src), err.value.verdict)
  {
    var verdict := Utf8.Analyze(BytesOf(src));
    Utf8.ErrorsAreRight(BytesOf(src), verdict);
    if !verdict.Valid? {
      return [], Some(NotUtf8(verdict));
    }
    var tokenized := Lexer.Tokenize(lexicon, src);
    if tokenized.TokenizeError? {
      return [], Some(LexFailure(tokenized.msg, tokenized.offset));
    }
    stmts, err := PeelStatements(se, w, tokenized.tokens, |src|);
    if err.None? {
      StretchLast(stmts, |src|, StatementsFrom(se, w, tokenized.tokens, |src|, 0, 0).items);
    }
  }

  /** The loop of parseString (parser.go:107-144). */
  method PeelStatements(se: Setting, ghost w: Witness, tokens: seq<Token>, n: nat)
    returns (stmts: seq<Stmt>, err: Option<ParseError>)
    requires WellRanked(se.engine, w) && se.top in w.live
    ensures
      var o := StatementsFrom(se, w, tokens, n, 0, 0);
      match err
      case None => fresh(stmts) && o.Done? && Holds(stmts, o.items)
      case Some(e) => o == Refused(e)
  {
    stmts := [];
    var prevEnd := 0;
    var pos := 0;
    ghost var items := [];
    ghost var whole := StatementsFrom(se, w, tokens, n, 0, 0);
    while pos < |tokens|
      invariant pos <= |tokens|
      invariant fresh(stmts) && Holds(stmts, items)
      invariant whole == After(items, StatementsFrom(se, w, tokens, n, pos, prevEnd))
      decreases |tokens| - pos
    {
      var step := MatchStatement(se, w, tokens, n, pos, prevEnd);
      if step.Halt? {
        return [], Some(step.err);
      }
      pos := step.newPos;
      if step.Keep? {
        var stmt := new Stmt(step.node, Span(0, 0));
        stmt.SetSpan(Span(prevEnd, step.end));
        AfterCons(items, Item(step.node, Span(prevEnd, step.end)), StatementsFrom(se, w, tokens, n, pos, step.end));
        stmts := stmts + [stmt];
        items := items + [Item(step.node, Span(prevEnd, step.end))];
        prevEnd := step.end;
      }
    }
    assert items + [] == items;
    err := None;
  }

  datatype Step = Halt(err: ParseError) | Skip(newPos: nat) | Keep(node: ParseResult, newPos: nat, end: int)

  /** One turn of the loop: match, look for a statement, transform it. */
  method MatchStatement(se: Setting, ghost w: Witness, tokens: seq<Token>, n: nat, pos: nat, ghost prevEnd: int)
    returns (step: Step)
    requires WellRanked(se.engine, w) && se.top in w.live && pos < |tokens|
    ensures !step.Halt? ==> pos < step.newPos <= |tokens|
    ensures
      var o := StatementsFrom(se, w, tokens, n, pos, prevEnd);
      match step
      case Halt(err) => o == Refused(err)
      case Skip(p) => o == StatementsFrom(se, w, tokens, n, p, prevEnd)
      case Keep(node, p, end) =>
        o == Cons(Item(node, Span(prevEnd, end)), StatementsFrom(se, w, tokens, n, p, end))
  {
    var v, _ := RunMatch(se.engine, w, se.top, tokens, pos);
    if !v.Accepted? {
      return Halt(MatchFailure(v));
    }
    if v.newPos == pos {
      return Halt(NoProgressMade);
    }
    var part := StatementPart(v.result);
    if part.Shapeless? {
      return Halt(ShapeMismatch);
    }
    var end := FindConsumedEnd(tokens, pos, v.newPos, n);
    if part.Absent? {
      return Skip(v.newPos);
    }
    match se.transform(part.tree)
    case Raised(msg) => return Halt(TransformFailure(msg));
    case NoStatement => return Skip(v.newPos);
    case Statement(node) => return Keep(node, v.newPos, end);
  }

  /** The last span reaches the end of the source (parser.go:145-152). */
  method StretchLast(stmts: seq<Stmt>, n: nat, ghost items: seq<Item>)
    requires Holds(stmts, items)
    modifies stmts
    ensures Holds(stmts, Stretched(items, n))
  {
    if |stmts| > 0 {
      var last := stmts[|stmts| - 1];
      var sp := last.span;
      if sp.end < n {
        last.SetSpan(Span(sp.start, n));
      }
    }
  }

  function After(items: seq<Item>, rest: Outcome): Outcome {
    if rest.Done? then Done(items + rest.items) else rest
  }

  lemma AfterCons(items: seq<Item>, item: Item, rest: Outcome)
    ensures After(items, Cons(item, rest)) == After(items + [item], rest)
  {
    if rest.Done? {
      assert items + ([item] + rest.items) == (items + [item]) + rest.items;
    }
  }
}
