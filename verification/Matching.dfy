/** The engine's entry points: one match with its own cache, the statement peeling loop and the
    furthest-failure report (internal/matcher/engine.go). */
module Matching {
  import opened Tokens
  import opened ParseTree
  import opened SpecialMatchers
  import opened PegJudgment
  import opened GraphJudgment
  import opened PegSemantics
  import opened Packrat

  datatype Verdict =
    | Accepted(result: ParseResult, newPos: nat)
    | SyntaxError(token: Token)
    | MatchError(msg: string)

  const NO_TOKEN := Token(EndOfInput, "", Span(0, 0), false, false, false)

  /** The token a failed match is reported at. */
  function ErrorIndex(tokens: seq<Token>, reach: nat): (i: nat)
    requires tokens != []
    ensures i < |tokens| && i <= reach
  {
    var idx := if reach >= |tokens| then |tokens| - 1 else reach;
    if idx > 0 && tokens[idx].kind == EndOfInput then idx - 1 else idx
  }

  function ErrorToken(tokens: seq<Token>, reach: nat): Token {
    if tokens == [] then NO_TOKEN else tokens[ErrorIndex(tokens, reach)]
  }

  /** syntaxError (engine.go:177-192). */
  method LocateError(tokens: seq<Token>, maxTokenIndex: nat) returns (t: Token)
    ensures t == ErrorToken(tokens, maxTokenIndex)
  {
    if |tokens| == 0 {
      return NO_TOKEN;
    }
    var idx := maxTokenIndex;
    if idx >= |tokens| {
      idx := |tokens| - 1;
    }
    if idx > 0 && tokens[idx].kind == EndOfInput {
      idx := idx - 1;
    }
    return tokens[idx];
  }

  /** The sentinel stands at the end and nowhere else. */
  ghost predicate SentinelLast(tokens: seq<Token>) {
    tokens != [] && forall i :: 0 <= i < |tokens| ==> (tokens[i].kind == EndOfInput <==> i == |tokens| - 1)
  }

  /** A syntax error names a real token whenever there is one: the furthest token reached, or
      the last real token when the match ran into the end of the input. */
  lemma ErrorNamesRealToken(tokens: seq<Token>, reach: nat)
    requires SentinelLast(tokens) && |tokens| >= 2
    ensures ErrorToken(tokens, reach).kind != EndOfInput
    ensures reach < |tokens| - 1 ==> ErrorToken(tokens, reach) == tokens[reach]
    ensures reach >= |tokens| - 1 ==> ErrorToken(tokens, reach) == tokens[|tokens| - 2]
  {
  }

  /** What is reported of an outcome. */
  function Reported(tokens: seq<Token>, o: Outcome): Verdict {
    match o
    case Matched(r, p, _) => Accepted(r, p)
    case Failed(q) => SyntaxError(ErrorToken(tokens, q))
    case Aborted(msg) => MatchError(msg)
  }

  /** What a match means when nothing is remembered between attempts. */
  ghost function Meaning(e: Engine, w: Witness, root: nat, tokens: seq<Token>, pos: nat): Verdict
    requires WellRanked(e, w) && root in w.live
  {
    Reported(tokens, Run(e, w, tokens, root, pos))
  }

  /** The verdict is the one derived of the goal. */
  ghost predicate Follows<G(!new)>(forms: G -> Form<G>, lexicon: Lexicon, tokens: seq<Token>, goal: G, pos: nat,
                                   v: Verdict)
  {
    exists o :: Judged(forms, lexicon, tokens, goal, pos, o) && v == Reported(tokens, o)
  }

  /** Only one verdict does: the tree, the end or the error token included. */
  lemma OneVerdict<G(!new)>(forms: G -> Form<G>, lexicon: Lexicon, tokens: seq<Token>, goal: G, pos: nat, v: Verdict,
                            v': Verdict)
    requires Follows(forms, lexicon, tokens, goal, pos, v) && Follows(forms, lexicon, tokens, goal, pos, v')
    ensures v == v'
  {
    var o :| Judged(forms, lexicon, tokens, goal, pos, o) && v == Reported(tokens, o);
    var o' :| Judged(forms, lexicon, tokens, goal, pos, o') && v' == Reported(tokens, o');
    JudgedOnce(forms, lexicon, tokens, goal, pos, o, o');
  }

  function Memoized(e: Engine): set<nat> {
    set i | 0 <= i < |e.nodes| && e.nodes[i].meta.memoized
  }

  /** runMatch (engine.go:152-173).  The cache changes no verdict, tree, end position or error
      token, and each memoized body runs at most once per token position. */
  method RunMatch(e: Engine, ghost w: Witness, root: nat, tokens: seq<Token>, pos: nat)
    returns (v: Verdict, ghost bodyRuns: seq<Key>)
    requires WellRanked(e, w) && root in w.live
    ensures v == Meaning(e, w, root, tokens, pos) && Follows(Matchers(e), e.lexicon, tokens, root, pos, v)
    ensures Distinct(bodyRuns)
    ensures pos <= |tokens| ==> |bodyRuns| <= |Memoized(e)| * (|tokens| + 1)
  {
    RunIsJudged(e, w, tokens, root, pos);
    var cache := new PackratCache();
    var s := new State(tokens, pos, cache);
    var a := Match(e, w, root, s);
    bodyRuns := cache.bodyRuns;
    if pos <= |tokens| {
      BodyRunsBound(e, |tokens|, bodyRuns);
    }
    match a
    case Panic(msg) => v := MatchError(msg);
    case Nil =>
      var t := LocateError(tokens, s.max);
      v := SyntaxError(t);
    case Tree(r) => v := Accepted(r, s.pos);
  }

  /** Match with no cache at all (the `s.packrat == nil` path of matcher.go:80-85): the same
      verdict as RunMatch on every input. */
  method RunUncached(e: Engine, ghost w: Witness, root: nat, tokens: seq<Token>, pos: nat) returns (v: Verdict)
    requires WellRanked(e, w) && root in w.live
    ensures v == Meaning(e, w, root, tokens, pos) && Follows(Matchers(e), e.lexicon, tokens, root, pos, v)
  {
    RunIsJudged(e, w, tokens, root, pos);
    var s := new State(tokens, pos, null);
    var a := Match(e, w, root, s);
    match a
    case Panic(msg) => v := MatchError(msg);
    case Nil =>
      var t := LocateError(tokens, s.max);
      v := SyntaxError(t);
    case Tree(r) => v := Accepted(r, s.pos);
  }

  ghost function KeysFrom(ids: set<nat>, n: nat): set<Key> {
    set id, i | id in ids && 0 <= i <= n :: Key(id, i)
  }

  lemma {:induction false} RowSize(id: nat, n: nat)
    ensures |set i | 0 <= i <= n :: Key(id, i)| == n + 1
  {
    var row := set i | 0 <= i <= n :: Key(id, i);
    if n == 0 {
      assert row == {Key(id, 0)};
    } else {
      var shorter := set i | 0 <= i <= n - 1 :: Key(id, i);
      RowSize(id, n - 1);
      assert row == shorter + {Key(id, n)};
    }
  }

  lemma {:induction false} KeysFromSize(ids: set<nat>, n: nat)
    ensures |KeysFrom(ids, n)| == |ids| * (n + 1)
  {
    if ids != {} {
      var id :| id in ids;
      KeysFromSize(ids - {id}, n);
      OneRowMore(ids - {id}, id, n);
      assert ids == (ids - {id}) + {id};
      assert (|ids - {id}| + 1) * (n + 1) == |ids - {id}| * (n + 1) + (n + 1);
    } else {
      assert KeysFrom(ids, n) == {};
    }
  }

  lemma OneRowMore(ids: set<nat>, id: nat, n: nat)
    requires id !in ids
    ensures |KeysFrom(ids + {id}, n)| == |KeysFrom(ids, n)| + n + 1
  {
    var row := set i | 0 <= i <= n :: Key(id, i);
    RowSize(id, n);
    assert KeysFrom(ids + {id}, n) == KeysFrom(ids, n) + row;
    assert KeysFrom(ids, n) !! row;
  }

  lemma {:induction false} DistinctSize<T>(s: seq<T>)
    requires forall i, j :: 0 <= i < j < |s| ==> s[i] != s[j]
    ensures |set x | x in s| == |s|
  {
    if s != [] {
      var rest := s[..|s| - 1];
      DistinctSize(rest);
      assert (set x | x in s) == (set x | x in rest) + {s[|s| - 1]};
    }
  }

  /** Distinct body runs of memoized matchers at positions 0..n are at most matchers times n + 1. */
  lemma BodyRunsBound(e: Engine, n: nat, runs: seq<Key>)
    requires Distinct(runs)
    requires forall k :: k in runs ==>
      k.matcherID < |e.nodes| && e.nodes[k.matcherID].meta.memoized && k.tokenIndex <= n
    ensures |runs| <= |Memoized(e)| * (n + 1)
  {
    var keys := set k | k in runs;
    DistinctSize(runs);
    KeysFromSize(Memoized(e), n);
    assert keys <= KeysFrom(Memoized(e), n);
    SubsetSize(keys, KeysFrom(Memoized(e), n));
  }

  lemma {:induction false} SubsetSize<T>(a: set<T>, b: set<T>)
    requires a <= b
    ensures |a| <= |b|
  {
    if a != {} {
      var x :| x in a;
      SubsetSize(a - {x}, b - {x});
    }
  }

  datatype PeelError = NoError | Stopped(v: Verdict) | NoProgress(pos: nat)

  /** Peeling whole statements off the token stream, match by match. */
  ghost function Peeled(e: Engine, w: Witness, top: nat, tokens: seq<Token>,
                        pos: nat): (r: (seq<ParseResult>, PeelError))
    requires WellRanked(e, w) && top in w.live
    decreases Left(tokens, pos)
  {
    if pos >= |tokens| then ([], NoError)
    else match Meaning(e, w, top, tokens, pos)
      case Accepted(r, p) =>
        if p == pos then ([], NoProgress(pos))
        else var rest := Peeled(e, w, top, tokens, p); ([r] + rest.0, rest.1)
      case v => ([], Stopped(v))
  }

  /** A statement rule that cannot match nothing never stalls the loop. */
  lemma {:induction false} PeelingProgresses(e: Engine, w: Witness, top: nat, tokens: seq<Token>, pos: nat)
    requires WellRanked(e, w) && top in w.live && !w.nullable[top]
    ensures !Peeled(e, w, top, tokens, pos).1.NoProgress?
    decreases Left(tokens, pos)
  {
    if pos < |tokens| {
      match Meaning(e, w, top, tokens, pos)
      case Accepted(_, p) => PeelingProgresses(e, w, top, tokens, p);
      case _ =>
    }
  }

  /** Matches one after another: each starts where the one before it ended, and takes something. */
  ghost predicate InARow(e: Engine, w: Witness, top: nat, tokens: seq<Token>, cuts: seq<nat>, trees: seq<ParseResult>)
    requires WellRanked(e, w) && top in w.live
  {
    && |cuts| == |trees| + 1
    && forall i :: 0 <= i < |trees| ==>
         && cuts[i] < cuts[i + 1] && cuts[i] < |tokens|
         && Meaning(e, w, top, tokens, cuts[i]) == Accepted(trees[i], cuts[i + 1])
  }

  /** Why no match follows at a token: there is none left, or this is what comes there. */
  ghost predicate EndsWith(e: Engine, w: Witness, top: nat, tokens: seq<Token>, pos: nat, err: PeelError)
    requires WellRanked(e, w) && top in w.live
  {
    match err
    case NoError => pos >= |tokens|
    case Stopped(v) => pos < |tokens| && v == Meaning(e, w, top, tokens, pos) && !v.Accepted?
    case NoProgress(at) =>
      at == pos < |tokens| && exists r :: Meaning(e, w, top, tokens, pos) == Accepted(r, pos)
  }

  lemma InARowGrows(e: Engine, w: Witness, top: nat, tokens: seq<Token>, pos: nat, r: ParseResult, cuts: seq<nat>,
                    trees: seq<ParseResult>)
    requires WellRanked(e, w) && top in w.live && pos < |tokens|
    requires InARow(e, w, top, tokens, cuts, trees) && pos < cuts[0]
    requires Meaning(e, w, top, tokens, pos) == Accepted(r, cuts[0])
    ensures InARow(e, w, top, tokens, [pos] + cuts, [r] + trees)
  {
    var more, all := [pos] + cuts, [r] + trees;
    forall i | 0 <= i < |all|
      ensures more[i] < more[i + 1] && more[i] < |tokens|
      ensures Meaning(e, w, top, tokens, more[i]) == Accepted(all[i], more[i + 1])
    {
      if i > 0 {
        assert more[i] == cuts[i - 1] && more[i + 1] == cuts[i] && all[i] == trees[i - 1];
      }
    }
  }

  /** Peeling gives every match of the row, and the reason it ends. */
  lemma {:induction false} PeeledInARow(e: Engine, w: Witness, top: nat, tokens: seq<Token>, pos: nat)
    returns (cuts: seq<nat>)
    requires WellRanked(e, w) && top in w.live
    ensures
      var (trees, err) := Peeled(e, w, top, tokens, pos);
      && InARow(e, w, top, tokens, cuts, trees) && cuts[0] == pos
      && EndsWith(e, w, top, tokens, cuts[|cuts| - 1], err)
    decreases Left(tokens, pos)
  {
    cuts := [pos];
    if pos < |tokens| {
      match Meaning(e, w, top, tokens, pos)
      case Accepted(r, p) =>
        if p != pos {
          var rest := PeeledInARow(e, w, top, tokens, p);
          InARowGrows(e, w, top, tokens, pos, r, rest, Peeled(e, w, top, tokens, p).0);
          cuts := [pos] + rest;
        }
      case _ =>
    }
  }

  /** MatchAll (engine.go:133-150): results so far are kept when an error stops the loop. */
  method MatchAll(e: Engine, ghost w: Witness, top: nat, tokens: seq<Token>)
    returns (results: seq<ParseResult>, err: PeelError)
    requires WellRanked(e, w) && top in w.live
    ensures (results, err) == Peeled(e, w, top, tokens, 0)
  {
    results := [];
    var pos := 0;
    ghost var whole := Peeled(e, w, top, tokens, 0);
    assert results + whole.0 == whole.0;
    while pos < |tokens|
      invariant pos <= |tokens|
      invariant whole == (results + Peeled(e, w, top, tokens, pos).0, Peeled(e, w, top, tokens, pos).1)
      decreases |tokens| - pos
    {
      var v, _ := RunMatch(e, w, top, tokens, pos);
      if !v.Accepted? {
        assert results + [] == results;
        return results, Stopped(v);
      }
      if v.newPos == pos {
        assert results + [] == results;
        return results, NoProgress(pos);
      }
      assert results + ([v.result] + Peeled(e, w, top, tokens, v.newPos).0)
        == (results + [v.result]) + Peeled(e, w, top, tokens, v.newPos).0;
      results := results + [v.result];
      pos := v.newPos;
    }
    assert results + [] == results;
    err := NoError;
  }
}
