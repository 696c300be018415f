/** Which loaded grammars load again from their printed form
    (internal/grammar/parser.go:74-315, internal/grammar/expression.go:45-85). */
module PegLosses {
  import opened Tokens
  import opened ByteClasses
  import opened PegGrammar
  import opened PegSyntax
  import opened PegPrinter
  import opened PegText
  import opened PegRoundTrip
  import opened PegRules
  import opened PegReload
  import opened PegWeights
  import opened PegOpenEnds

  // ----- what is loaded stays -----

  ghost predicate Distinct(rs: seq<Rule>) {
    forall i, j :: 0 <= i < j < |rs| ==> Lower(rs[i].name) != Lower(rs[j].name)
  }

  lemma {:induction false} AddedStays(l: Loaded, rs: seq<Rule>, key: string)
    requires key in l.rules && forall i :: 0 <= i < |rs| ==> Lower(rs[i].name) != key
    ensures key in AddAll(l, rs).rules && AddAll(l, rs).rules[key] == l.rules[key]
    decreases rs
  {
    if rs != [] {
      AddedStays(WithRule(l, rs[0]), rs[1..], key);
    }
  }

  /** Each rule of a list is added as itself, without the groups that do not show. */
  lemma {:induction false} AddedRule(l: Loaded, rs: seq<Rule>, i: nat)
    requires Distinct(rs) && i < |rs|
    ensures
      var r, all := rs[i], AddAll(l, rs).rules;
      Lower(r.name) in all && all[Lower(r.name)] == Rule(r.name, r.parameters, Normal(r.expression, true))
    decreases rs
  {
    if i == 0 {
      AddedStays(WithRule(l, rs[0]), rs[1..], Lower(rs[0].name));
    } else {
      AddedRule(WithRule(l, rs[0]), rs[1..], i - 1);
    }
  }

  lemma CompletedStays(l: Loaded, name: string, params: seq<string>, tokens: seq<PegToken>, key: string)
    requires key in l.rules && Completed(l, name, params, tokens).Some?
    ensures
      var more := Completed(l, name, params, tokens).value.rules;
      key in more && more[key] == l.rules[key]
  {
  }

  /** A loaded rule is never changed again. */
  lemma {:induction false} LoadedStays(s: string, c: nat, st: ScanState, l: Loaded, key: string)
    requires c <= |s| && key in l.rules && Scan(s, c, st, l).Some?
    ensures key in Scan(s, c, st, l).value.rules && Scan(s, c, st, l).value.rules[key] == l.rules[key]
    decreases |s| - c
  {
    if c == |s| {
      if st.Definition? {
        CompletedStays(l, st.name, st.params, st.tokens, key);
      }
    } else if s[c] == '#' {
      LoadedStays(s, CommentEnd(s, c), st, l, key);
    } else if Completes(s, c, st) {
      CompletedStays(l, st.name, st.params, st.tokens, key);
      LoadedStays(s, c + 1, RuleName, Completed(l, st.name, st.params, st.tokens).value, key);
    } else if IsSpace(s[c]) {
      LoadedStays(s, c + 1, st, l, key);
    } else {
      LoadedStays(s, PieceAt(s, c, st).next, PieceAt(s, c, st).st, l, key);
    }
  }

  // ----- a rule that prints as nothing -----

  predicate IsName(t: PegToken) { t.kind == ReferenceToken || t.kind == FunctionCallToken }

  /** A body that begins with a name is not the empty sequence. */
  lemma NameIsSomething(ts: seq<PegToken>)
    requires ts != [] && IsName(ts[0]) && Build(ts).Ok?
    ensures Build(ts).value != Sequence([])
  {
    assert ParsePrimary(ts, 0).Ok? ==> ParsePrimary(ts, 0).value.Reference? || ParsePrimary(ts, 0).value.Call?;
    assert ParsePostfix(ts, 0).Ok? ==> ParsePostfix(ts, 0).value != Sequence([]);
    assert ParseItems(ts, 0).Ok? ==> ParseItems(ts, 0).value != [] && ParseItems(ts, 0).value[0] != Sequence([]);
    assert ParseSequence(ts, 0).Ok? ==> ParseSequence(ts, 0).value != Sequence([]);
  }

  lemma PieceKeepsFirst(s: string, c: nat, st: ScanState)
    requires c < |s| && st.Definition? && st.tokens != [] && PieceAt(s, c, st).Piece?
    ensures
      var st' := PieceAt(s, c, st).st;
      st'.Definition? && st'.name == st.name && st'.params == st.params && st'.tokens != []
        && st'.tokens[0] == st.tokens[0]
  {
  }

  /** A definition that begins with a name never loads as the empty sequence. */
  lemma {:induction false} NameStays(s: string, c: nat, st: ScanState, l: Loaded)
    requires c <= |s| && st.Definition? && st.tokens != [] && IsName(st.tokens[0]) && Scan(s, c, st, l).Some?
    ensures
      var key, all := Lower(st.name), Scan(s, c, st, l).value.rules;
      key in all && all[key].expression != Sequence([])
    decreases |s| - c
  {
    if c == |s| {
      NameIsSomething(st.tokens);
    } else if s[c] == '#' {
      NameStays(s, CommentEnd(s, c), st, l);
    } else if Completes(s, c, st) {
      NameIsSomething(st.tokens);
      var more := Completed(l, st.name, st.params, st.tokens).value;
      LoadedStays(s, c + 1, RuleName, more, Lower(st.name));
    } else if IsSpace(s[c]) {
      NameStays(s, c + 1, st, l);
    } else {
      PieceKeepsFirst(s, c, st);
      NameStays(s, PieceAt(s, c, st).next, PieceAt(s, c, st).st, l);
    }
  }

  /** Only the empty sequence prints as nothing. */
  lemma SomethingPrinted(e: Expr)
    requires TopShape(e) && WordsScan(e) && e != Sequence([])
    ensures Text(e, true) != ""
  {
    match e
    case Sequence(cs) => Shows(cs[0]);
    case Choice(cs) => Shows(cs[0]);
    case _ =>
  }

  lemma Shows(e: Expr)
    requires WordsScan(e)
    ensures |Text(e, false)| > 0
  {
  }

  /** After an empty body the next rule's name is read as the body's first token. */
  lemma NextNameTaken(s: string, c: nat, name: string, params: seq<string>, r: Rule, more: string)
    requires c <= |s| && s[c..] == RuleText(r) + more && HeadNameScans(r.name)
    ensures c < |s| && s[c] != '#' && !IsSpace(s[c])
    ensures
      var p := PieceAt(s, c, Definition(name, params, [], 0, false));
      p.Piece? ==>
        && p.st.Definition? && p.st.name == name
        && p.st.tokens != [] && IsName(p.st.tokens[0])
  {
    var text := RuleText(r) + more;
    assert |text| > 0 && text[0] == r.name[0];
    assert s[c] == s[c..][0];
  }

  lemma TakenNameStays(s: string, c: nat, st: ScanState, l: Loaded, got: Option<Loaded>)
    requires c < |s| && got == Scan(s, c, st, l)
    requires s[c] != '#' && !IsSpace(s[c]) && st.Definition?
    requires
      var p := PieceAt(s, c, st);
      p.Piece? ==> p.st.Definition? && p.st.name == st.name && p.st.tokens != [] && IsName(p.st.tokens[0])
    ensures got.Some? ==>
      Lower(st.name) in got.value.rules && got.value.rules[Lower(st.name)].expression != Sequence([])
  {
    match PieceAt(s, c, st)
    case Bad =>
    case Piece(next, p) =>
      assert !IsNewline(s[c]);
      assert got == Scan(s, p, next, l);
      if got.Some? {
        NameStays(s, p, next, l);
      }
  }

  /** Loading on from any place and state, as a function of them. */
  ghost predicate Reads(s: string, l: Loaded, rest: Continuation) {
    && Agrees(s, rest)
    && forall c: nat, st {:trigger Step(c, st)} :: Step(c, st) && c <= |s| ==> rest(c, st) == Scan(s, c, st, l)
  }

  lemma ReadingOf(s: string, l: Loaded) returns (rest: Continuation)
    ensures Reads(s, l, rest)
  {
    rest := LoadingAgrees(s, l);
  }

  lemma NewlineSkipped(s: string, c: nat, name: string, params: seq<string>, l: Loaded, rest: Continuation)
    requires c < |s| && s[c] == '\n' && Reads(s, l, rest)
    ensures
      var st := Definition(name, params, [], 0, false);
      rest(c, st) == rest(c + 1, st) && (c + 1 == |s| ==> rest(c + 1, st) == None)
  {
    var st := Definition(name, params, [], 0, false);
    assert Step(c, st) && Step(c + 1, st);
  }

  /** An empty body takes what follows for its own: the next rule's name, or the end. */
  lemma EmptyBodyLost(s: string, c: nat, name: string, params: seq<string>, l: Loaded, rs: seq<Rule>,
                      rest: Continuation)
    requires c <= |s| && s[c..] == GrammarText(rs) && Reads(s, l, rest)
    requires forall i :: 0 <= i < |rs| ==> HeadNameScans(rs[i].name)
    ensures
      var got := rest(c, Definition(name, params, [], 0, false));
      c == |s| || got == None
        || (Lower(name) in got.value.rules && got.value.rules[Lower(name)].expression != Sequence([]))
  {
    var st := Definition(name, params, [], 0, false);
    if rs != [] {
      NextNameLost(s, c, name, params, l, rs[0], GrammarText(rs[1..]), rest);
    }
  }

  lemma NextNameLost(s: string, c: nat, name: string, params: seq<string>, l: Loaded, r: Rule, more: string,
                     rest: Continuation)
    requires c <= |s| && s[c..] == RuleText(r) + more && HeadNameScans(r.name) && Reads(s, l, rest)
    ensures
      var got := rest(c, Definition(name, params, [], 0, false));
      got == None || (Lower(name) in got.value.rules && got.value.rules[Lower(name)].expression != Sequence([]))
  {
    var st := Definition(name, params, [], 0, false);
    NextNameTaken(s, c, name, params, r, more);
    assert Step(c, st);
    TakenNameStays(s, c, st, l, rest(c, st));
  }

  // ----- one rule that does not come back -----

  /** A printed rule in front of more text: its head, the arrow, its body and the newline. */
  lemma RuleStands(s: string, c: nat, r: Rule, body: string, more: string) returns (start: nat)
    requires c <= |s| && s[c..] == RuleText(r) + more && body == Text(r.expression, true)
    ensures start == c + |HeadText(r.name, r.parameters)| + 4
    ensures At(s, c, HeadText(r.name, r.parameters)) && At(s, start - 4, " <- ")
    ensures At(s, start, body) && start + |body| < |s| && s[start + |body|] == '\n' && s[start + |body| + 1..] == more
  {
    RestSplits(s, c, RuleText(r), more);
    var end;
    start, end := RuleLayout(s, c, r);
  }

  /** Up to its body, a printed rule is read as it was written. */
  lemma HeadReadsBack(s: string, c: nat, r: Rule, body: string, more: string, rest: Continuation) returns (start: nat)
    requires LoadedRule(r) && Agrees(s, rest) && body == Text(r.expression, true)
    requires c <= |s| && s[c..] == RuleText(r) + more
    ensures rest(c, RuleName) == rest(start, Definition(r.name, r.parameters, [], 0, false))
    ensures At(s, start, body) && start + |body| < |s| && s[start + |body|] == '\n' && s[start + |body| + 1..] == more
  {
    start := RuleStands(s, c, r, body, more);
    HeadScans(s, c, r.name, r.parameters, rest);
    ArrowScans(s, start - 4, r.name, r.parameters, rest);
  }

  /** The loaded grammar has some other rule of this name, or there is none. */
  ghost predicate Differs(got: Option<Loaded>, r: Rule) {
    got.Some? && Lower(r.name) in got.value.rules ==>
      got.value.rules[Lower(r.name)] != Rule(r.name, r.parameters, Normal(r.expression, true))
  }

  lemma EmptyIsLost(s: string, c: nat, r: Rule, rs: seq<Rule>, l: Loaded, rest: Continuation)
    requires LoadedRule(r) && Text(r.expression, true) == "" && forall i :: 0 <= i < |rs| ==> HeadNameScans(rs[i].name)
    requires c <= |s| && s[c..] == RuleText(r) + GrammarText(rs) && Reads(s, l, rest)
    ensures Differs(rest(c, RuleName), r)
  {
    if r.expression != Sequence([]) {
      SomethingPrinted(r.expression);
    }
    var p := PastEmptyBody(s, c, r, GrammarText(rs), l, rest);
    EmptyBodyLost(s, p, r.name, r.parameters, l, rs, rest);
  }

  lemma PastEmptyBody(s: string, c: nat, r: Rule, more: string, l: Loaded, rest: Continuation) returns (p: nat)
    requires LoadedRule(r) && Text(r.expression, true) == ""
    requires c <= |s| && s[c..] == RuleText(r) + more && Reads(s, l, rest)
    ensures p <= |s| && s[p..] == more
    ensures rest(c, RuleName) == rest(p, Definition(r.name, r.parameters, [], 0, false))
    ensures p == |s| ==> rest(c, RuleName) == None
  {
    var start := HeadReadsBack(s, c, r, "", more, rest);
    NewlineSkipped(s, start, r.name, r.parameters, l, rest);
    p := start + 1;
  }

  lemma OpenIsLost(s: string, c: nat, r: Rule, l: Loaded, rest: Continuation)
    requires LoadedRule(r) && OpenEnd(r.expression)
    requires c <= |s| && s[c..] == RuleText(r) + "" && Reads(s, l, rest)
    ensures Differs(rest(c, RuleName), r)
  {
    var body := Text(r.expression, true);
    var start := HeadReadsBack(s, c, r, body, "", rest);
    OpenBodyLost(s, start, r, body, l, rest);
  }

  lemma OpenBodyLost(s: string, start: nat, r: Rule, body: string, l: Loaded, rest: Continuation)
    requires LoadedRule(r) && OpenEnd(r.expression) && Reads(s, l, rest) && body == Text(r.expression, true)
    requires At(s, start, body) && start + |body| + 1 == |s| && s[start + |body|] == '\n'
    ensures Differs(rest(start, Definition(r.name, r.parameters, [], 0, false)), r)
  {
    var st := Definition(r.name, r.parameters, [], 0, false);
    var last := OpenScans(s, start, r.expression, true, body, st, rest);
    HeavierDiffers(s, r, l, last, rest);
  }

  /** At the end of the text, more text than the rule held makes another rule. */
  lemma HeavierDiffers(s: string, r: Rule, l: Loaded, last: ScanState, rest: Continuation)
    requires Reads(s, l, rest) && Heavier(Definition(r.name, r.parameters, [], 0, false), last, Held(r.expression))
    ensures Differs(rest(|s|, last), r)
  {
    assert Step(|s|, last);
    if Build(last.tokens).Ok? {
      BuiltWeighs(last.tokens);
      NormalWeighs(r.expression, true);
    }
  }

  // ----- the whole grammar -----

  /** A printed rule comes back. */
  predicate ReadsBack(r: Rule) { ClassesClosed(r.expression) && Text(r.expression, true) != "" }

  // Loading from a rule's first byte on, as a function of the place and of what is loaded.
  type Loading = (nat, Loaded) -> Option<Loaded>

  predicate Place(c: nat, l: Loaded) { true }

  ghost predicate Loads(s: string, load: Loading) {
    forall c: nat, l {:trigger Place(c, l)} :: Place(c, l) && c <= |s| ==> load(c, l) == Scan(s, c, RuleName, l)
  }

  lemma LoadingOf(s: string) returns (load: Loading)
    ensures Loads(s, load) && load(0, NOTHING) == Load(s)
  {
    load := (c: nat, l: Loaded) => if c <= |s| then Scan(s, c, RuleName, l) else None;
  }

  lemma OneRuleRead(s: string, c: nat, r: Rule, others: string, l: Loaded, load: Loading)
    requires ScannableRule(r) && Lower(r.name) !in l.rules && c <= |s| && s[c..] == RuleText(r) + others
    requires Loads(s, load)
    ensures c + |RuleText(r)| <= |s| && s[c + |RuleText(r)|..] == others
    ensures load(c, l) == load(c + |RuleText(r)|, WithRule(l, r))
  {
    RestSplits(s, c, RuleText(r), others);
    RuleReadsBack(s, c, r, l);
    assert Place(c, l) && Place(c + |RuleText(r)|, WithRule(l, r));
  }

  lemma TextFrom(rs: seq<Rule>, n: nat)
    requires n < |rs|
    ensures GrammarText(rs[n..]) == RuleText(rs[n]) + GrammarText(rs[n + 1..])
  {
    assert rs[n..][0] == rs[n] && rs[n..][1..] == rs[n + 1..];
  }

  /** None of the rules from the n-th on is loaded yet. */
  ghost predicate Unread(rs: seq<Rule>, n: nat, l: Loaded) {
    forall i :: n <= i < |rs| ==> Lower(rs[i].name) !in l.rules
  }

  /** The first n rules of a printed grammar are read as they were written; `others` is what is left. */
  lemma {:induction false} PrefixReadsBack(s: string, rs: seq<Rule>, n: nat, others: string, load: Loading)
    returns (p: nat, more: Loaded)
    requires n <= |rs| && Distinct(rs) && (forall i :: 0 <= i < n ==> ScannableRule(rs[i]))
    requires s == GrammarText(rs) && others == GrammarText(rs[n..]) && Loads(s, load)
    ensures p <= |s| && s[p..] == others && load(0, NOTHING) == load(p, more) && Unread(rs, n, more)
    decreases n
  {
    if n == 0 {
      p, more := 0, NOTHING;
      assert rs[0..] == rs;
    } else {
      var r := rs[n - 1];
      TextFrom(rs, n - 1);
      var c, l := PrefixReadsBack(s, rs, n - 1, RuleText(r) + others, load);
      p, more := c + |RuleText(r)|, WithRule(l, r);
      OneRuleRead(s, c, r, others, l, load);
      UnreadNext(rs, n - 1, l);
    }
  }

  lemma UnreadNext(rs: seq<Rule>, n: nat, l: Loaded)
    requires Distinct(rs) && n < |rs| && Unread(rs, n, l)
    ensures Unread(rs, n + 1, WithRule(l, rs[n]))
  {
  }

  /** The first rule that does not come back. */
  lemma {:induction false} FirstLost(rs: seq<Rule>) returns (n: nat)
    requires exists i :: 0 <= i < |rs| && !ReadsBack(rs[i])
    ensures n < |rs| && !ReadsBack(rs[n]) && forall i :: 0 <= i < n ==> ReadsBack(rs[i])
  {
    if !ReadsBack(rs[0]) {
      n := 0;
    } else {
      var k :| 0 <= k < |rs| && !ReadsBack(rs[k]);
      assert rs[1..][k - 1] == rs[k];
      n := FirstLost(rs[1..]);
      n := n + 1;
    }
  }

  lemma RulesOfLoaded(s: string) returns (rs: seq<Rule>)
    requires Load(s).Some?
    ensures LoadedWell(Load(s).value) && rs == RulesOf(Load(s).value)
    ensures Distinct(rs) && forall i :: 0 <= i < |rs| ==> LoadedRule(rs[i])
    ensures forall i :: 0 <= i < |rs| ==>
      ClassesClosed(rs[i].expression) || (i == |rs| - 1 && OpenEnd(rs[i].expression))
  {
    ScanLoadsWell(s, 0, RuleName, NOTHING);
    ScanCloses(s, 0, RuleName, NOTHING);
    rs := RulesOf(Load(s).value);
  }

  lemma LostRule(rs: seq<Rule>, n: nat, load: Loading)
    requires Distinct(rs) && n < |rs| && !ReadsBack(rs[n]) && forall i :: 0 <= i < n ==> ReadsBack(rs[i])
    requires forall i :: 0 <= i < |rs| ==> LoadedRule(rs[i])
    requires ClassesClosed(rs[n].expression) || (n == |rs| - 1 && OpenEnd(rs[n].expression))
    requires Loads(GrammarText(rs), load)
    ensures Differs(load(0, NOTHING), rs[n])
  {
    var s := GrammarText(rs);
    PrefixScans(rs, n);
    var p, more := PrefixReadsBack(s, rs, n, GrammarText(rs[n..]), load);
    LostFrom(s, p, rs, n, more, load);
  }

  lemma LostFrom(s: string, c: nat, rs: seq<Rule>, n: nat, l: Loaded, load: Loading)
    requires n < |rs| && !ReadsBack(rs[n]) && forall i :: 0 <= i < |rs| ==> LoadedRule(rs[i])
    requires ClassesClosed(rs[n].expression) || (n == |rs| - 1 && OpenEnd(rs[n].expression))
    requires c <= |s| && s[c..] == GrammarText(rs[n..]) && Loads(s, load)
    ensures Differs(load(c, l), rs[n])
  {
    TextFrom(rs, n);
    FirstIsLost(s, c, rs[n], rs[n + 1..], l, load);
  }

  lemma PrefixScans(rs: seq<Rule>, n: nat)
    requires n <= |rs| && forall i :: 0 <= i < n ==> ReadsBack(rs[i]) && LoadedRule(rs[i])
    ensures forall i :: 0 <= i < n ==> ScannableRule(rs[i])
  {
    forall i | 0 <= i < n
      ensures ScannableRule(rs[i])
    {
      ScannableParts(rs[i].expression);
    }
  }

  lemma FirstIsLost(s: string, c: nat, r: Rule, rs: seq<Rule>, l: Loaded, load: Loading)
    requires LoadedRule(r) && !ReadsBack(r) && forall i :: 0 <= i < |rs| ==> LoadedRule(rs[i])
    requires ClassesClosed(r.expression) || (rs == [] && OpenEnd(r.expression))
    requires c <= |s| && s[c..] == RuleText(r) + GrammarText(rs) && Loads(s, load)
    ensures Differs(load(c, l), r)
  {
    var rest := ReadingOf(s, l);
    assert load(c, l) == rest(c, RuleName) by {
      assert Place(c, l) && Step(c, RuleName);
    }
    if Text(r.expression, true) == "" {
      EmptyIsLost(s, c, r, rs, l, rest);
    } else {
      OpenIsLost(s, c, r, l, rest);
    }
  }

  /** For every grammar text that loads: its rules printed, one a line, load again, in the same
      order, each itself up to the groups that do not show, exactly when no rule prints as nothing
      and every character class is closed. */
  lemma LoadedReloadsIff(s: string)
    requires Load(s).Some?
    ensures LoadedWell(Load(s).value)
    ensures
      var rs := RulesOf(Load(s).value);
      Load(GrammarText(rs)) == Some(AddAll(NOTHING, rs)) <==> forall i :: 0 <= i < |rs| ==> ReadsBack(rs[i])
  {
    var rs := RulesOfLoaded(s);
    if forall i :: 0 <= i < |rs| ==> ReadsBack(rs[i]) {
      LoadedReloads(s);
    } else {
      var n := FirstLost(rs);
      var load := LoadingOf(GrammarText(rs));
      LostRule(rs, n, load);
      AddedRule(NOTHING, rs, n);
    }
  }

  // ----- an input for each -----

  /** A text that is one head, " <- " and a body whose tokens are known: the one rule it loads. */
  lemma OneRuleLoads(s: string, body: string, last: ScanState, rest: Continuation)
    requires s == "a <- " + body && Reads(s, NOTHING, rest) && last.Definition?
    requires rest(5, Definition("a", [], [], 0, false)) == rest(|s|, last)
    requires last.tokens != [] && last.name == "a" && last.params == [] && Build(last.tokens).Ok?
    ensures Load(s) == Some(Loaded(map["a" := Rule("a", [], Build(last.tokens).value)], ["a"]))
  {
    assert s == "a" + (" <- " + body) && s[0..1] == "a" && s[1..5] == " <- ";
    HeadScans(s, 0, "a", [], rest);
    ArrowScans(s, 1, "a", [], rest);
    assert Step(0, RuleName) && Step(|s|, last);
    assert NOTHING.rules["a" := Rule("a", [], Build(last.tokens).value)]
      == map["a" := Rule("a", [], Build(last.tokens).value)];
    assert NOTHING.names + ["a"] == ["a"];
    assert Lower("a") == "a";
  }

  lemma OneRuleLost(s: string, r: Rule)
    requires r.name == "a" && Load(s) == Some(Loaded(map["a" := r], ["a"])) && !ReadsBack(r)
    ensures Load(GrammarText([r])) != Some(AddAll(NOTHING, [r]))
  {
    LoadedReloadsIff(s);
    assert Lower("a") == "a";
    var rs := RulesOf(Load(s).value);
    assert rs == [r];
    assert !ReadsBack(rs[0]);
  }

  /** The rule a <- () prints as nothing. */
  lemma EmptyRule()
    ensures
      var r := Rule("a", [], Sequence([]));
      && Load("a <- ()") == Some(Loaded(map["a" := r], ["a"]))
      && Load(GrammarText([r])) != Some(AddAll(NOTHING, [r]))
  {
    var s := "a <- ()";
    var rest := ReadingOf(s, NOTHING);
    var last := EmptyRuleScans(s, rest);
    EmptyGroupBuilt();
    OneRuleLoads(s, "()", last, rest);
    OneRuleLost(s, Rule("a", [], Sequence([])));
  }

  lemma EmptyRuleScans(s: string, rest: Continuation) returns (last: ScanState)
    requires s == "a <- ()" && Agrees(s, rest)
    ensures last == Definition("a", [], [Op('('), Op(')')], 0, false)
    ensures rest(5, Definition("a", [], [], 0, false)) == rest(7, last)
  {
    var first := Definition("a", [], [], 0, false);
    var open := Definition("a", [], [Op('(')], 1, false);
    last := Definition("a", [], [Op('('), Op(')')], 0, false);
    assert first.tokens + [Op('(')] == open.tokens && open.tokens + [Op(')')] == last.tokens;
    assert s[5] == '(' && DefinitionPiece(s, 5, first) == Piece(open, 6);
    StepPiece(s, 5, first, rest);
    assert s[6] == ')' && DefinitionPiece(s, 6, open) == Piece(last, 7);
    StepPiece(s, 6, open, rest);
  }

  lemma EmptyGroupBuilt()
    ensures Build([Op('('), Op(')')]) == Ok(Sequence([]), 2)
  {
    var ts := [Op('('), Op(')')];
    assert IsOp(ts, 0, '(') && IsOp(ts, 1, ')');
    assert ParseItems(ts, 1) == Ok([], 1) && ParseItems(ts, 2) == Ok([], 2);
    assert ParseSequence(ts, 1) == Ok(Sequence([]), 1);
    assert ParseChoice(ts, 1) == Ok(Sequence([]), 1);
    assert ParsePrimary(ts, 0) == Ok(Sequence([]), 2);
    assert ParsePostfix(ts, 0) == Ok(Sequence([]), 2);
    assert ParseItems(ts, 0) == Ok([Sequence([])] + [], 2);
    assert [Sequence([])] + [] == [Sequence([])];
  }

  /** The class in a <- [b has no closing bracket. */
  lemma OpenRule()
    ensures
      var r := Rule("a", [], Regex("[b"));
      && Load("a <- [b") == Some(Loaded(map["a" := r], ["a"]))
      && Load(GrammarText([r])) != Some(AddAll(NOTHING, [r]))
  {
    var s := "a <- [b";
    var rest := ReadingOf(s, NOTHING);
    assert ClassEnd(s, 6, ']') == 7;
    assert ClassEnd(s, 5, ']') == 7 && s[5..7] == "[b";
    var last := Definition("a", [], [PegToken(RegexToken, "[b")], 0, false);
    StepPiece(s, 5, Definition("a", [], [], 0, false), rest);
    var none: seq<PegToken> := [];
    assert none + [PegToken(RegexToken, "[b")] == [PegToken(RegexToken, "[b")];
    assert s[5] == '[' && DefinitionPiece(s, 5, Definition("a", [], none, 0, false)) == Piece(last, 7);
    ClassBuilt("[b");
    OneRuleLoads(s, "[b", last, rest);
    assert ClassEnd("[b", 1, ']') == 2;
    assert ClassEnd("[b", 0, ']') == 2;
    OneRuleLost(s, Rule("a", [], Regex("[b")));
  }

  lemma ClassBuilt(t: string)
    ensures Build([PegToken(RegexToken, t)]) == Ok(Regex(t), 1)
  {
    var ts := [PegToken(RegexToken, t)];
    assert !SequenceStops(ts, 0) && !IsOp(ts, 0, '!');
    assert ParsePrimary(ts, 0) == Ok(Regex(t), 1);
    assert ParsePostfix(ts, 0) == Ok(Regex(t), 1);
    assert ParseItems(ts, 1) == Ok([], 1);
    assert ParseItems(ts, 0) == Ok([Regex(t)] + [], 1);
    assert [Regex(t)] + [] == [Regex(t)];
    assert ParseSequence(ts, 0) == Ok(Regex(t), 1);
    assert ParseChoice(ts, 0) == Ok(Regex(t), 1);
  }
}
