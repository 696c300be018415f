/** The matcher as it runs: a mutable position, a furthest-token mark and a packrat cache
    (internal/matcher/packrat.go, internal/matcher/matcher.go). */
module Packrat {
  import opened Tokens
  import opened ByteClasses
  import opened ParseTree
  import opened SpecialMatchers
  import opened PegSemantics

  datatype Key = Key(matcherID: nat, tokenIndex: nat)

  datatype Entry = Entry(success: bool, posAfter: nat, maxTokenSeen: nat, result: Option<ParseResult>)

  /** A matching method's result: a parse tree, nil, or a panic(&MatchError) unwinding. */
  datatype Answer = Tree(result: ParseResult) | Nil | Panic(msg: string)

  class PackratCache {
    var entries: map<Key, Entry>
    /** Every body run the cache started, in order, failed and aborted runs included. */
    ghost var bodyRuns: seq<Key>

    constructor ()
      ensures entries == map[] && bodyRuns == []
    {
      entries := map[];
      bodyRuns := [];
    }
  }

  class State {
    const tokens: seq<Token>
    var pos: nat
    var max: nat
    const packrat: PackratCache?

    constructor (tokens: seq<Token>, pos: nat, packrat: PackratCache?)
      ensures this.tokens == tokens && this.pos == pos && this.max == pos && this.packrat == packrat
    {
      this.tokens, this.pos, this.max, this.packrat := tokens, pos, pos, packrat;
    }

    method Advance()
      modifies this
      ensures pos == old(pos) + 1 && max == Max(old(max), pos)
    {
      pos := pos + 1;
      if pos > max {
        max := pos;
      }
    }
  }

  // ----- invariants of the cache -----

  ghost predicate Distinct<T(!new)>(s: seq<T>) {
    forall i, j :: 0 <= i < j < |s| ==> s[i] != s[j]
  }

  /** An entry says what a fresh run of the same matcher at the same token says. */
  ghost predicate EntryFaithful(e: Engine, w: Witness, tokens: seq<Token>, k: Key, entry: Entry)
    requires WellRanked(e, w)
  {
    k.matcherID in w.live &&
    match RunBody(e, w, tokens, k.matcherID, k.tokenIndex)
    case Matched(r, p, q) =>
      entry.success && entry.posAfter == p && entry.result == Some(r) && q <= entry.maxTokenSeen
    case Failed(q) =>
      !entry.success && entry.posAfter == k.tokenIndex && q <= entry.maxTokenSeen
    case Aborted(_) => false
  }

  ghost predicate CacheFaithful(e: Engine, w: Witness, s: State)
    requires WellRanked(e, w)
    reads s, s.packrat
  {
    s.packrat != null ==>
      forall k :: k in s.packrat.entries ==>
        EntryFaithful(e, w, s.tokens, k, s.packrat.entries[k]) && s.packrat.entries[k].maxTokenSeen <= s.max
  }

  /** No body runs twice, only memoized matchers run through the cache, and what is cached ran. */
  ghost predicate RunsOnce(e: Engine, s: State)
    reads s, s.packrat
  {
    s.packrat != null ==>
      Distinct(s.packrat.bodyRuns)
      && (forall k :: k in s.packrat.bodyRuns ==>
            k.matcherID < |e.nodes| && e.nodes[k.matcherID].meta.memoized
            && k.tokenIndex <= Max(|s.tokens|, s.max))
      && (forall k :: k in s.packrat.entries ==> k in s.packrat.bodyRuns)
  }

  /** Body runs that have started and not yet been recorded. */
  ghost function Pending(s: State): set<Key>
    reads s, s.packrat
  {
    if s.packrat == null then {}
    else set k | k in s.packrat.bodyRuns && k !in s.packrat.entries
  }

  ghost predicate Above(w: Witness, tokens: seq<Token>, k: Key, left: nat, rank: nat) {
    k.matcherID < |w.rank| &&
    (Left(tokens, k.tokenIndex) > left || (Left(tokens, k.tokenIndex) == left && w.rank[k.matcherID] > rank))
  }

  ghost predicate AtLeast(w: Witness, tokens: seq<Token>, k: Key, left: nat, rank: nat) {
    k.matcherID < |w.rank| &&
    (Left(tokens, k.tokenIndex) > left || (Left(tokens, k.tokenIndex) == left && w.rank[k.matcherID] >= rank))
  }

  ghost predicate PendingAbove(w: Witness, s: State, rank: nat)
    reads s, s.packrat
  {
    forall k :: k in Pending(s) ==> Above(w, s.tokens, k, Left(s.tokens, s.pos), rank)
  }

  ghost predicate PendingAtLeast(w: Witness, s: State, left: nat, rank: nat)
    reads s, s.packrat
  {
    forall k :: k in Pending(s) ==> AtLeast(w, s.tokens, k, left, rank)
  }

  ghost predicate Sound(e: Engine, w: Witness, s: State)
    reads s, s.packrat
  {
    WellRanked(e, w) && s.pos <= s.max && CacheFaithful(e, w, s) && RunsOnce(e, s)
  }

  /** The state after an attempt that started at pos0 with mark max0 and means `o`. */
  ghost predicate Agrees(a: Answer, s: State, pos0: nat, max0: nat, o: Outcome)
    reads s
  {
    match o
    case Matched(r, p, q) => a == Tree(r) && s.pos == p && s.max == Max(max0, q)
    case Failed(q) => a == Nil && s.pos == pos0 && s.max == Max(max0, q)
    case Aborted(msg) => a == Panic(msg) && max0 <= s.max <= Max(max0, |s.tokens|)
  }

  // ----- the matchers -----

  /** match (matcher.go:78-90): through the cache when there is one and the matcher is
      memoized; the outcome is Run's either way. */
  method Match(e: Engine, ghost w: Witness, id: nat, s: State) returns (a: Answer)
    requires Sound(e, w, s) && id in w.live
    requires PendingAbove(w, s, w.rank[id])
    modifies s, s.packrat
    ensures Agrees(a, s, old(s.pos), old(s.max), Run(e, w, s.tokens, id, old(s.pos)))
    ensures RunsOnce(e, s)
    ensures !a.Panic? ==> Sound(e, w, s) && Pending(s) == old(Pending(s))
    decreases Left(s.tokens, s.pos), w.rank[id], 4
  {
    var meta := e.nodes[id].meta;
    if s.packrat != null && meta.memoized {
      a := CachedMatch(e, w, id, s);
    } else {
      a := MatchInternal(e, w, id, s);
    }
    if a.Tree? && meta.rule.Some? {
      a := Tree(a.result.(base := a.result.base.(name := meta.rule.value)));
    }
  }

  /** packratCache.match (packrat.go:27-52). */
  method CachedMatch(e: Engine, ghost w: Witness, id: nat, s: State) returns (a: Answer)
    requires Sound(e, w, s) && id in w.live
    requires s.packrat != null && e.nodes[id].meta.memoized
    requires PendingAbove(w, s, w.rank[id])
    modifies s, s.packrat
    ensures Agrees(a, s, old(s.pos), old(s.max), RunBody(e, w, s.tokens, id, old(s.pos)))
    ensures RunsOnce(e, s)
    ensures !a.Panic? ==> Sound(e, w, s) && Pending(s) == old(Pending(s))
    decreases Left(s.tokens, s.pos), w.rank[id], 3
  {
    var c := s.packrat;
    var key := Key(e.nodes[id].id, s.pos);
    if key in c.entries {
      a := Recall(e, w, key, s);
      return;
    }
    var maxBefore := s.max;
    ghost var pending := Pending(s);
    assert forall k :: k in c.bodyRuns && k !in c.entries ==> k in pending;
    assert key !in pending;
    c.bodyRuns := c.bodyRuns + [key];
    assert Pending(s) == pending + {key};
    a := MatchInternal(e, w, id, s);
    if a.Panic? {
      return;
    }
    Remember(e, w, key, a, maxBefore, pending, s);
  }

  /** The end of the miss path (packrat.go:41-51): the outcome becomes an entry. */
  method Remember(e: Engine, ghost w: Witness, key: Key, a: Answer, maxBefore: nat, ghost pending: set<Key>, s: State)
    requires Sound(e, w, s) && s.packrat != null && !a.Panic? && key.matcherID in w.live
    requires key in s.packrat.bodyRuns && key !in pending && Pending(s) == pending + {key}
    requires Agrees(a, s, key.tokenIndex, maxBefore, RunBody(e, w, s.tokens, key.matcherID, key.tokenIndex))
    modifies s.packrat
    ensures Sound(e, w, s) && Pending(s) == pending
  {
    var c := s.packrat;
    var entry := Entry(a.Tree?, s.pos, maxBefore, if a.Tree? then Some(a.result) else None);
    if s.max > entry.maxTokenSeen {
      entry := entry.(maxTokenSeen := s.max);
    }
    assert EntryFaithful(e, w, s.tokens, key, entry);
    c.entries := c.entries[key := entry];
    assert Pending(s) == pending;
  }

  /** The hit path (packrat.go:29-38): the remembered position, mark and result. */
  method Recall(e: Engine, ghost w: Witness, key: Key, s: State) returns (a: Answer)
    requires Sound(e, w, s) && s.packrat != null && key in s.packrat.entries && key.tokenIndex == s.pos
    modifies s
    ensures key.matcherID in w.live
    ensures Agrees(a, s, old(s.pos), old(s.max), RunBody(e, w, s.tokens, key.matcherID, old(s.pos)))
    ensures Sound(e, w, s) && Pending(s) == old(Pending(s))
  {
    var cached := s.packrat.entries[key];
    assert EntryFaithful(e, w, s.tokens, key, cached);
    s.pos := cached.posAfter;
    s.max := Max(s.max, cached.maxTokenSeen);
    return if cached.success then Tree(cached.result.value) else Nil;
  }

  method MatchInternal(e: Engine, ghost w: Witness, id: nat, s: State) returns (a: Answer)
    requires Sound(e, w, s) && id in w.live
    requires PendingAtLeast(w, s, Left(s.tokens, s.pos), w.rank[id])
    modifies s, s.packrat
    ensures Agrees(a, s, old(s.pos), old(s.max), RunBody(e, w, s.tokens, id, old(s.pos)))
    ensures RunsOnce(e, s)
    ensures !a.Panic? ==> Sound(e, w, s) && Pending(s) == old(Pending(s))
    decreases Left(s.tokens, s.pos), w.rank[id], 2
  {
    match e.nodes[id].body
    case LeafOf(leaf) => a := MatchLeaf(e.lexicon, leaf, e.nodes[id].meta.name, s);
    case ListOf(_) => a := MatchList(e, w, id, s);
    case ChoiceOf(_) => a := MatchChoice(e, w, id, s);
    case OptionalOf(_) => a := MatchOptional(e, w, id, s);
    case RepeatOf(_) => a := MatchRepeat(e, w, id, s);
  }

  method MatchLeaf(lexicon: Lexicon, leaf: Leaf, name: string, s: State) returns (a: Answer)
    requires s.pos <= s.max
    modifies s
    ensures Agrees(a, s, old(s.pos), old(s.max), LeafMatch(lexicon, leaf, name, s.tokens, old(s.pos)))
  {
    if s.pos >= |s.tokens| {
      return Nil;
    }
    match leaf
    case KeywordLeaf(keyword) => a := MatchKeyword(keyword, name, s);
    case EndOfInputLeaf => a := MatchEndOfInput(s);
    case IdentifierLeaf(_, _, _) => a := MatchIdentifier(lexicon, leaf, s);
    case NumberLeaf => a := MatchNumber(name, s);
    case StringLeaf => a := MatchString(name, s);
    case OperatorLeaf(_) => a := MatchOperator(leaf, s);
  }

  /** keywordMatcher.matchInternal (matcher.go:258-272). */
  method MatchKeyword(keyword: string, name: string, s: State) returns (a: Answer)
    requires s.pos < |s.tokens| && s.pos <= s.max
    modifies s
    ensures Agrees(a, s, old(s.pos), old(s.max), KeywordMatch(keyword, name, s.tokens[old(s.pos)], old(s.pos)))
  {
    var tok := s.tokens[s.pos];
    var equal := CompareIgnoringCase(keyword, tok.text);
    if !equal {
      return Nil;
    }
    s.Advance();
    return Tree(KeywordResult(LeafBase(name, tok), tok.text));
  }

  /** endOfInputMatcher.matchInternal (matcher.go:284-291). */
  method MatchEndOfInput(s: State) returns (a: Answer)
    requires s.pos < |s.tokens| && s.pos <= s.max
    modifies s
    ensures Agrees(a, s, old(s.pos), old(s.max), EndOfInputMatch(s.tokens[old(s.pos)], old(s.pos)))
  {
    if s.tokens[s.pos].kind != EndOfInput {
      return Nil;
    }
    s.Advance();
    return Tree(EndOfInputResult(EMPTY_BASE));
  }

  /** identifierMatcher.matchInternal (special.go:138-179). */
  method MatchIdentifier(lexicon: Lexicon, leaf: Leaf, s: State) returns (a: Answer)
    requires s.pos < |s.tokens| && s.pos <= s.max && leaf.IdentifierLeaf?
    modifies s
    ensures Agrees(a, s, old(s.pos), old(s.max), IdentifierMatch(lexicon, leaf, s.tokens[old(s.pos)], old(s.pos)))
  {
    var tok := s.tokens[s.pos];
    if !leaf.reserved && !IsAllowedKeyword(lexicon, leaf.cls, tok.text) {
      return Nil;
    }
    if !IsIdentifierText(leaf, tok.text) {
      return Nil;
    }
    s.Advance();
    return Tree(IdentifierResult(LeafBase("", tok), IdentifierValue(leaf, tok.text)));
  }

  /** numberLiteralMatcher.matchInternal (special.go:199-246). */
  method MatchNumber(name: string, s: State) returns (a: Answer)
    requires s.pos < |s.tokens| && s.pos <= s.max
    modifies s
    ensures Agrees(a, s, old(s.pos), old(s.max), NumberMatch(name, s.tokens[old(s.pos)], old(s.pos)))
  {
    var tok := s.tokens[s.pos];
    var verdict := JudgeNumber(tok.text);
    if verdict == NotNumber {
      return Nil;
    } else if verdict == DoubleExponent {
      return Panic("Already found scientific notation");
    }
    s.Advance();
    return Tree(NumberResult(LeafBase(name, tok), tok.text));
  }

  /** operatorMatcher.matchInternal (special.go:400-421). */
  method MatchOperator(leaf: Leaf, s: State) returns (a: Answer)
    requires s.pos < |s.tokens| && s.pos <= s.max && leaf.OperatorLeaf?
    modifies s
    ensures Agrees(a, s, old(s.pos), old(s.max), OperatorMatch(leaf, s.tokens[old(s.pos)], old(s.pos)))
  {
    var tok := s.tokens[s.pos];
    if !leaf.allOperators && HasSpecialPrecedence(tok.text) {
      return Nil;
    }
    for i := 0 to |tok.text|
      invariant forall k :: 0 <= k < i ==> IsOperatorCont(tok.text[k])
    {
      if !IsOperatorCont(tok.text[i]) {
        return Nil;
      }
    }
    s.Advance();
    return Tree(OperatorResult(LeafBase("", tok), tok.text));
  }

  /** stringLiteralMatcher.matchInternal (special.go:333-360). */
  method MatchString(name: string, s: State) returns (a: Answer)
    requires s.pos < |s.tokens| && s.pos <= s.max
    modifies s
    ensures Agrees(a, s, old(s.pos), old(s.max), StringMatch(name, s.tokens, old(s.pos)))
  {
    var tok := s.tokens[s.pos];
    var single := StartsSingleQuoted(tok);
    if !single && DollarDelimiterLength(tok).None? {
      return Nil;
    }
    var value, end := TakeLiterals(s, single);
    return Tree(StringTree(name, tok, value, end));
  }

  /** The literal at hand and, after a single-quoted one, its continuations. */
  method TakeLiterals(s: State, single: bool) returns (value: string, end: int)
    requires s.pos < |s.tokens| && s.pos <= s.max && single == StartsSingleQuoted(s.tokens[s.pos])
    modifies s
    ensures s.pos == StringStop(s.tokens, old(s.pos)) && s.max == Max(old(s.max), s.pos)
    ensures value == StringText(s.tokens, old(s.pos), s.pos) && end == EndOffset(s.tokens[s.pos - 1])
  {
    end := EndOffset(s.tokens[s.pos]);
    value := Stripped(s.tokens[s.pos]);
    s.Advance();
    if single {
      var more;
      more, end := AbsorbContinuations(s);
      value := value + more;
    } else {
      assert value + "" == value;
    }
  }

  /** The continuation loop (special.go:347-353): the contents of the literals that follow and
      the end of the last token absorbed. */
  method AbsorbContinuations(s: State) returns (value: string, end: int)
    requires 0 < s.pos <= |s.tokens| && s.pos <= s.max
    modifies s
    ensures s.pos == ContinuationEnd(s.tokens, old(s.pos)) && s.max == Max(old(s.max), s.pos)
    ensures s.pos <= |s.tokens| && value == Concatenated(s.tokens, old(s.pos), s.pos)
    ensures end == EndOffset(s.tokens[s.pos - 1])
  {
    value := "";
    end := EndOffset(s.tokens[s.pos - 1]);
    ghost var from, stop := s.pos, ContinuationEnd(s.tokens, s.pos);
    while s.pos < |s.tokens| && IsContinuation(s.tokens[s.pos])
      invariant from <= s.pos <= |s.tokens| && s.max == Max(old(s.max), s.pos)
      invariant stop == ContinuationEnd(s.tokens, s.pos)
      invariant value == Concatenated(s.tokens, from, s.pos)
      invariant end == EndOffset(s.tokens[s.pos - 1])
    {
      value, end := AbsorbOne(s, from, value);
    }
  }

  method AbsorbOne(s: State, ghost from: nat, value: string) returns (longer: string, end: int)
    requires from <= s.pos < |s.tokens| && s.pos <= s.max && IsContinuation(s.tokens[s.pos])
    requires value == Concatenated(s.tokens, from, s.pos)
    modifies s
    ensures s.pos == old(s.pos) + 1 && s.max == Max(old(s.max), s.pos)
    ensures ContinuationEnd(s.tokens, old(s.pos)) == ContinuationEnd(s.tokens, s.pos)
    ensures longer == Concatenated(s.tokens, from, s.pos) && end == EndOffset(s.tokens[s.pos - 1])
  {
    var next := s.tokens[s.pos];
    var text := Stripped(next);
    longer := value + text;
    OneMoreLiteral(s.tokens, from, s.pos, value, text, longer);
    end := EndOffset(next);
    s.Advance();
  }

  lemma OneMoreLiteral(tokens: seq<Token>, from: nat, pos: nat, value: string, text: string, longer: string)
    requires from <= pos < |tokens| && value == Concatenated(tokens, from, pos) && text == Stripped(tokens[pos])
    requires longer == value + text
    ensures longer == Concatenated(tokens, from, pos + 1)
    ensures IsContinuation(tokens[pos]) ==> ContinuationEnd(tokens, pos) == ContinuationEnd(tokens, pos + 1)
  {
    var all, before := StrippedAll(tokens, from, pos + 1), StrippedAll(tokens, from, pos);
    assert all == before + [text];
    assert all[..|all| - 1] == before;
  }

  /** `s.pos = start` (matcher.go:128): nothing the cache relies on changes. */
  method Rewind(e: Engine, ghost w: Witness, s: State, start: nat)
    requires Sound(e, w, s) && start <= s.max
    modifies s`pos
    ensures s.pos == start && Sound(e, w, s) && Pending(s) == old(Pending(s))
  {
    s.pos := start;
  }

  lemma ListStep(e: Engine, w: Witness, tokens: seq<Token>, id: nat, k: nat, start: nat, pos: nat,
                 results: seq<ParseResult>, reach: nat)
    requires WellRanked(e, w) && id in w.live && e.nodes[id].body.ListOf? && k < |e.nodes[id].body.children|
    requires InRange(tokens, start, pos)
    requires pos == start ==> LeftNullable(e.nodes[id].body.children, k, w)
    ensures
      var cs := e.nodes[id].body.children;
      var all := Prepend(results, reach, RunChildren(e, w, tokens, id, k, start, pos));
      && cs[k] in w.live && (pos == start ==> w.rank[cs[k]] < w.rank[id])
      && match Run(e, w, tokens, cs[k], pos)
         case Failed(q) => all == SomeFailed(Max(reach, q))
         case Aborted(msg) => all == SeqAborted(msg)
         case Matched(r, p, q) =>
           (p == start ==> LeftNullable(cs, k + 1, w)) &&
           all == Prepend(results + [r], Max(reach, q), RunChildren(e, w, tokens, id, k + 1, start, p))
  {
    var cs := e.nodes[id].body.children;
    assert NodeRanked(e.nodes[id].body, id, w);
    match Run(e, w, tokens, cs[k], pos)
    case Matched(r, p, q) =>
      PrependTwice(results, reach, [r], q, RunChildren(e, w, tokens, id, k + 1, start, p));
    case _ =>
  }

  /** One child of a list: its match, and what is left of the list's meaning. */
  method MatchChild(e: Engine, ghost w: Witness, id: nat, k: nat, ghost start: nat, s: State,
                    ghost results: seq<ParseResult>, ghost reach: nat)
    returns (a: Answer, ghost reach': nat)
    requires Sound(e, w, s) && id in w.live && e.nodes[id].body.ListOf? && k < |e.nodes[id].body.children|
    requires InRange(s.tokens, start, s.pos)
    requires s.pos == start ==> LeftNullable(e.nodes[id].body.children, k, w)
    requires PendingAtLeast(w, s, Left(s.tokens, start), w.rank[id])
    modifies s, s.packrat
    ensures RunsOnce(e, s)
    ensures !a.Panic? ==> Sound(e, w, s) && Pending(s) == old(Pending(s))
    ensures a.Panic? ==> old(s.max) <= s.max <= Max(old(s.max), |s.tokens|)
    ensures !a.Panic? ==> s.max == Max(old(s.max), reach') && old(s.pos) <= reach' <= Max(old(s.pos), |s.tokens|)
    ensures
      var all := Prepend(results, reach, RunChildren(e, w, s.tokens, id, k, start, old(s.pos)));
      match a
      case Panic(msg) => all == SeqAborted(msg)
      case Nil => all == SomeFailed(Max(reach, reach'))
      case Tree(r) =>
        InRange(s.tokens, old(s.pos), s.pos) && s.pos <= reach'
        && (s.pos == start ==> LeftNullable(e.nodes[id].body.children, k + 1, w))
        && all == Prepend(results + [r], Max(reach, reach'), RunChildren(e, w, s.tokens, id, k + 1, start, s.pos))
    decreases Left(s.tokens, start), w.rank[id], 0
  {
    ListStep(e, w, s.tokens, id, k, start, s.pos, results, reach);
    ghost var o := Run(e, w, s.tokens, e.nodes[id].body.children[k], s.pos);
    reach' := if o.Aborted? then 0 else o.reach;
    a := Match(e, w, e.nodes[id].body.children[k], s);
  }

  /** listMatcher.matchInternal (matcher.go:122-143). */
  method MatchList(e: Engine, ghost w: Witness, id: nat, s: State) returns (a: Answer)
    requires Sound(e, w, s) && id in w.live && e.nodes[id].body.ListOf?
    requires PendingAtLeast(w, s, Left(s.tokens, s.pos), w.rank[id])
    modifies s, s.packrat
    ensures Agrees(a, s, old(s.pos), old(s.max), RunBody(e, w, s.tokens, id, old(s.pos)))
    ensures RunsOnce(e, s)
    ensures !a.Panic? ==> Sound(e, w, s) && Pending(s) == old(Pending(s))
    decreases Left(s.tokens, s.pos), w.rank[id], 1
  {
    var children := e.nodes[id].body.children;
    var start := s.pos;
    ghost var whole := RunChildren(e, w, s.tokens, id, 0, start, start);
    ghost var reach := start;
    var results := [];
    for k := 0 to |children|
      invariant Sound(e, w, s) && Pending(s) == old(Pending(s))
      invariant start <= s.pos <= reach <= Max(start, |s.tokens|)
      invariant s.pos == start ==> LeftNullable(children, k, w)
      invariant s.max == Max(old(s.max), reach)
      invariant whole == Prepend(results, reach, RunChildren(e, w, s.tokens, id, k, start, s.pos))
    {
      var r, more := MatchChild(e, w, id, k, start, s, results, reach);
      if r.Panic? {
        return r;
      }
      if r.Nil? {
        Rewind(e, w, s, start);
        return Nil;
      }
      results := results + [r.result];
      reach := Max(reach, more);
    }
    ListEnds(e, w, s.tokens, id, start, s.pos, results, reach);
    return Tree(ListNode(e.nodes[id].meta.name, s.tokens, start, results));
  }

  /** All children taken. */
  lemma ListEnds(e: Engine, w: Witness, tokens: seq<Token>, id: nat, start: nat, pos: nat,
                 results: seq<ParseResult>, reach: nat)
    requires WellRanked(e, w) && id in w.live && e.nodes[id].body.ListOf? && pos <= reach
    requires InRange(tokens, start, pos)
    requires pos == start ==> LeftNullable(e.nodes[id].body.children, |e.nodes[id].body.children|, w)
    ensures
      Prepend(results, reach, RunChildren(e, w, tokens, id, |e.nodes[id].body.children|, start, pos))
        == AllMatched(results, pos, reach)
  {
    assert results + [] == results;
  }

  lemma PrependTwice(rs: seq<ParseResult>, q: nat, more: seq<ParseResult>, q': nat, rest: SeqOutcome)
    ensures Prepend(rs, q, Prepend(more, q', rest)) == Prepend(rs + more, Max(q, q'), rest)
  {
    if rest.AllMatched? {
      assert rs + (more + rest.results) == (rs + more) + rest.results;
    }
  }

  /** choiceMatcher.matchInternal (matcher.go:160-173). */
  method MatchChoice(e: Engine, ghost w: Witness, id: nat, s: State) returns (a: Answer)
    requires Sound(e, w, s) && id in w.live && e.nodes[id].body.ChoiceOf?
    requires PendingAtLeast(w, s, Left(s.tokens, s.pos), w.rank[id])
    modifies s, s.packrat
    ensures Agrees(a, s, old(s.pos), old(s.max), RunBody(e, w, s.tokens, id, old(s.pos)))
    ensures RunsOnce(e, s)
    ensures !a.Panic? ==> Sound(e, w, s) && Pending(s) == old(Pending(s))
    decreases Left(s.tokens, s.pos), w.rank[id], 1
  {
    var children := e.nodes[id].body.children;
    var start := s.pos;
    ghost var whole := Choose(e, w, s.tokens, id, 0, start);
    ghost var reach := start;
    for k := 0 to |children|
      invariant Sound(e, w, s) && Pending(s) == old(Pending(s))
      invariant s.pos == start <= reach <= Max(start, |s.tokens|)
      invariant s.max == Max(old(s.max), reach)
      invariant whole == FurtherChoice(reach, Choose(e, w, s.tokens, id, k, start))
    {
      ChoiceStep(e, w, s.tokens, id, k, start, reach);
      var r := Match(e, w, children[k], s);
      if r.Panic? {
        return r;
      }
      if r.Tree? {
        return Tree(ChoiceNode(s.tokens, start, r.result, k));
      }
      reach := Max(reach, Run(e, w, s.tokens, children[k], start).reach);
    }
    return Nil;
  }

  /** One alternative: what is left of the choice's meaning. */
  lemma ChoiceStep(e: Engine, w: Witness, tokens: seq<Token>, id: nat, k: nat, pos: nat, reach: nat)
    requires WellRanked(e, w) && id in w.live && e.nodes[id].body.ChoiceOf? && k < |e.nodes[id].body.children|
    ensures
      var cs := e.nodes[id].body.children;
      var all := FurtherChoice(reach, Choose(e, w, tokens, id, k, pos));
      && cs[k] in w.live && w.rank[cs[k]] < w.rank[id]
      && match Run(e, w, tokens, cs[k], pos)
         case Failed(q) => all == FurtherChoice(Max(reach, q), Choose(e, w, tokens, id, k + 1, pos))
         case Aborted(msg) => all == ChoiceAborted(msg)
         case Matched(r, p, q) => all == Chosen(k, r, p, Max(reach, q))
  {
    assert NodeRanked(e.nodes[id].body, id, w);
  }

  /** optionalMatcher.matchInternal (matcher.go:190-201). */
  method MatchOptional(e: Engine, ghost w: Witness, id: nat, s: State) returns (a: Answer)
    requires Sound(e, w, s) && id in w.live && e.nodes[id].body.OptionalOf?
    requires PendingAtLeast(w, s, Left(s.tokens, s.pos), w.rank[id])
    modifies s, s.packrat
    ensures Agrees(a, s, old(s.pos), old(s.max), RunBody(e, w, s.tokens, id, old(s.pos)))
    ensures RunsOnce(e, s)
    ensures !a.Panic? ==> Sound(e, w, s) && Pending(s) == old(Pending(s))
    decreases Left(s.tokens, s.pos), w.rank[id], 1
  {
    assert NodeRanked(e.nodes[id].body, id, w);
    var start := s.pos;
    var r := Match(e, w, e.nodes[id].body.child, s);
    match r
    case Panic(_) => a := r;
    case Nil => a := Tree(OptionalResult(EMPTY_BASE, None));
    case Tree(t) => a := Tree(OptionalNode(s.tokens, start, t));
  }

  /** One more attempt of a repeat: the whole's meaning before it and after. */
  lemma RepeatStep(e: Engine, w: Witness, tokens: seq<Token>, id: nat, pos: nat, results: seq<ParseResult>, reach: nat)
    requires WellRanked(e, w) && id in w.live && e.nodes[id].body.RepeatOf?
    ensures e.nodes[id].body.element in w.live
    ensures
      var all, o := Prepend(results, reach, RunRepeat(e, w, tokens, id, pos)),
        Run(e, w, tokens, e.nodes[id].body.element, pos);
      && (o.Failed? ==> all == AllMatched(results, pos, Max(reach, o.reach)))
      && (o.Aborted? ==> all == SeqAborted(o.msg))
      && (o.Matched? ==>
           all == Prepend(results + [o.result], Max(reach, o.reach), RunRepeat(e, w, tokens, id, o.pos)))
  {
    assert NodeRanked(e.nodes[id].body, id, w);
    match Run(e, w, tokens, e.nodes[id].body.element, pos)
    case Failed(_) => assert results + [] == results;
    case Aborted(_) =>
    case Matched(r, p, q) => PrependTwice(results, reach, [r], q, RunRepeat(e, w, tokens, id, p));
  }

  /** repeatMatcher.matchInternal (matcher.go:214-234). */
  method MatchRepeat(e: Engine, ghost w: Witness, id: nat, s: State) returns (a: Answer)
    requires Sound(e, w, s) && id in w.live && e.nodes[id].body.RepeatOf?
    requires PendingAtLeast(w, s, Left(s.tokens, s.pos), w.rank[id])
    modifies s, s.packrat
    ensures Agrees(a, s, old(s.pos), old(s.max), RunBody(e, w, s.tokens, id, old(s.pos)))
    ensures RunsOnce(e, s)
    ensures !a.Panic? ==> Sound(e, w, s) && Pending(s) == old(Pending(s))
    decreases Left(s.tokens, s.pos), w.rank[id], 1
  {
    assert NodeRanked(e.nodes[id].body, id, w);
    var element := e.nodes[id].body.element;
    var start := s.pos;
    ghost var whole := RunRepeat(e, w, s.tokens, id, start);
    var first := Match(e, w, element, s);
    if first.Panic? {
      return first;
    }
    if first.Nil? {
      return Nil;
    }
    ghost var reach := Run(e, w, s.tokens, element, start).reach;
    var results := [first.result];
    while true
      invariant Sound(e, w, s) && Pending(s) == old(Pending(s))
      invariant start < s.pos <= reach <= Max(start, |s.tokens|)
      invariant s.max == Max(old(s.max), reach)
      invariant results != []
      invariant whole == Prepend(results, reach, RunRepeat(e, w, s.tokens, id, s.pos))
      decreases Left(s.tokens, s.pos)
    {
      var r;
      r, reach := MatchOnce(e, w, id, s, results, reach, whole);
      if r.Panic? {
        return r;
      }
      if r.Nil? {
        break;
      }
      results := results + [r.result];
    }
    return Tree(RepeatNode(s.tokens, start, results));
  }

  /** One attempt more of a repeat that means `whole` and has given `results`. */
  method MatchOnce(e: Engine, ghost w: Witness, id: nat, s: State, ghost results: seq<ParseResult>, ghost reach: nat,
                   ghost whole: SeqOutcome)
    returns (r: Answer, ghost reach': nat)
    requires Sound(e, w, s) && id in w.live && e.nodes[id].body.RepeatOf?
    requires PendingAtLeast(w, s, Left(s.tokens, s.pos), w.rank[id])
    requires s.pos <= reach <= s.max && whole == Prepend(results, reach, RunRepeat(e, w, s.tokens, id, s.pos))
    modifies s, s.packrat
    ensures RunsOnce(e, s)
    ensures !r.Panic? ==> Sound(e, w, s) && Pending(s) == old(Pending(s))
    ensures reach <= reach' <= Max(reach, |s.tokens|)
    ensures match r
      case Panic(msg) => whole == SeqAborted(msg) && old(s.max) <= s.max <= Max(old(s.max), |s.tokens|)
      case Nil => whole == AllMatched(results, old(s.pos), reach') && s.pos == old(s.pos)
      case Tree(t) =>
        && whole == Prepend(results + [t], reach', RunRepeat(e, w, s.tokens, id, s.pos))
        && old(s.pos) < s.pos <= reach'
    ensures !r.Panic? ==> s.max == Max(old(s.max), reach')
    decreases Left(s.tokens, s.pos), w.rank[id], 0
  {
    assert NodeRanked(e.nodes[id].body, id, w);
    var element := e.nodes[id].body.element;
    ghost var o := Run(e, w, s.tokens, element, s.pos);
    RepeatStep(e, w, s.tokens, id, s.pos, results, reach);
    r := Match(e, w, element, s);
    reach' := if o.Aborted? then reach else Max(reach, o.reach);
  }
}
