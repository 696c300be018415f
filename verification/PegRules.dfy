/** Printing whole rules and grammars, and loading them again
    (internal/grammar/parser.go:133-315, internal/grammar/expression.go:45-85). */
module PegRules {
  import opened Tokens
  import opened ByteClasses
  import opened PegGrammar
  import opened PegSyntax
  import opened PegPrinter
  import opened PegText
  import opened PegRoundTrip

  function HeadText(name: string, params: seq<string>): string {
    if params == [] then name else name + "(" + params[0] + ")"
  }

  /** A rule as a line of grammar text. */
  function RuleText(r: Rule): string {
    HeadText(r.name, r.parameters) + (" <- " + (Text(r.expression, true) + "\n"))
  }

  /** A rule's name may begin with a percent sign. */
  predicate HeadNameScans(name: string) {
    name != "" && (name[0] == '%' || IsAlphaNumeric(name[0])) && forall i :: 0 < i < |name| ==> IsAlphaNumeric(name[i])
  }

  ghost predicate ScannableRule(r: Rule) {
    && HeadNameScans(r.name) && |r.parameters| <= 1
      && (forall i :: 0 <= i < |r.parameters| ==> NameScans(r.parameters[i]))
    && TopShape(r.expression) && Scannable(r.expression) && Text(r.expression, true) != ""
  }

  lemma NameOfRule(s: string, c: nat, name: string, rest: Continuation)
    requires Agrees(s, rest)
    requires HeadNameScans(name) && At(s, c, name) && c + |name| < |s| && !IsAlphaNumeric(s[c + |name|])
    ensures rest(c, RuleName) == rest(c + |name|, Separator(name, []))
  {
    assert s[c] == s[c..c + |name|][0] == name[0];
    HeadNameFound(s, c, name);
    StepHead(s, c, RuleName, rest);
  }

  lemma HeadNameFound(s: string, c: nat, name: string)
    requires HeadNameScans(name) && At(s, c, name) && c + |name| < |s| && !IsAlphaNumeric(s[c + |name|])
    requires s[c] == name[0]
    ensures NameEnd(s, if s[c] == '%' then c + 1 else c) == c + |name|
  {
    if name[0] == '%' {
      assert name == ['%'] + name[1..];
      AtSplit(s, c, ['%'], name[1..]);
      NameFound(s, c + 1, name[1..], 0);
    } else {
      NameFound(s, c, name, 0);
    }
  }

  lemma ParameterOfRule(s: string, p: nat, name: string, param: string, rest: Continuation)
    requires Agrees(s, rest)
    requires NameScans(param) && p < |s| && s[p] == '(' && At(s, p + 1, param)
    requires p + 1 + |param| < |s| && s[p + 1 + |param|] == ')'
    ensures rest(p, Separator(name, [])) == rest(p + |param| + 2, Separator(name, [param]))
  {
    NameFound(s, p + 1, param, 0);
    StepHead(s, p, Separator(name, []), rest);
    assert [] + [param] == [param];
  }

  lemma HeadScans(s: string, c: nat, name: string, params: seq<string>, rest: Continuation)
    requires Agrees(s, rest)
    requires HeadNameScans(name) && |params| <= 1 && forall i :: 0 <= i < |params| ==> NameScans(params[i])
    requires At(s, c, HeadText(name, params)) && At(s, c + |HeadText(name, params)|, " <- ")
    ensures rest(c, RuleName) == rest(c + |HeadText(name, params)|, Separator(name, params))
  {
    var gap := c + |HeadText(name, params)|;
    assert s[gap] == s[gap..gap + 4][0] == ' ';
    if params == [] {
      NameOfRule(s, c, name, rest);
    } else {
      assert params == [params[0]];
      MacroHeadScans(s, c, name, params[0], rest);
    }
  }

  lemma MacroHeadScans(s: string, c: nat, name: string, param: string, rest: Continuation)
    requires Agrees(s, rest)
    requires HeadNameScans(name) && NameScans(param) && At(s, c, name + "(" + param + ")")
    ensures rest(c, RuleName) == rest(c + |name| + |param| + 2, Separator(name, [param]))
  {
    var inside, end := CallLayout(s, c, name, param);
    NameOfRule(s, c, name, rest);
    ParameterOfRule(s, inside - 1, name, param, rest);
  }

  lemma ArrowScans(s: string, c: nat, name: string, params: seq<string>, rest: Continuation)
    requires Agrees(s, rest) && At(s, c, " <- ")
    ensures rest(c, Separator(name, params)) == rest(c + 4, Definition(name, params, [], 0, false))
  {
    var arrow := s[c..c + 4];
    assert s[c] == arrow[0] == ' ' && s[c + 1] == arrow[1] == '<' && s[c + 2] == arrow[2] == '-'
      && s[c + 3] == arrow[3] == ' ';
    StepSpace(s, c, Separator(name, params), rest);
    StepHead(s, c + 1, Separator(name, params), rest);
    StepSpace(s, c + 3, Definition(name, params, [], 0, false), rest);
  }

  lemma {:induction false} TextIsEmpty(e: Expr)
    requires TopShape(e) && Scannable(e)
    ensures Text(e, true) == "" <==> Print(e, true) == []
  {
    if (e.Sequence? || e.Choice?) && e.children != [] {
      NeverEmpty(e.children[0]);
      ShowsSomething(e.children[0]);
    }
  }

  lemma {:induction false} ShowsSomething(e: Expr)
    requires Scannable(e)
    ensures Text(e, false) != ""
  {
  }

  /** A printed rule up to its newline, whatever reads on from there. */
  lemma RuleScans(s: string, c: nat, r: Rule, start: nat, rest: Continuation)
    requires Agrees(s, rest)
    requires ScannableRule(r) && start == c + |HeadText(r.name, r.parameters)| + 4
    requires At(s, c, HeadText(r.name, r.parameters)) && At(s, start - 4, " <- ")
    requires At(s, start, Text(r.expression, true)) && Follows(s, start + |Text(r.expression, true)|)
    ensures Print(r.expression, true) != []
    ensures rest(c, RuleName) ==
      rest(start + |Text(r.expression, true)|, Definition(r.name, r.parameters, Print(r.expression, true), 0, false))
  {
    HeadScans(s, c, r.name, r.parameters, rest);
    ArrowScans(s, start - 4, r.name, r.parameters, rest);
    TextScans(s, start, r.expression, true, Definition(r.name, r.parameters, [], 0, false), rest);
    TextIsEmpty(r.expression);
    assert [] + Print(r.expression, true) == Print(r.expression, true);
  }

  /** Loading is one way to read on. */
  lemma LoadingAgrees(s: string, l: Loaded) returns (rest: Continuation)
    ensures Agrees(s, rest)
    ensures forall c: nat, st :: c <= |s| ==> rest(c, st) == Scan(s, c, st, l)
  {
    rest := (p: nat, x: ScanState) => if p <= |s| then Scan(s, p, x, l) else None;
    forall p: nat, x: ScanState {:trigger Step(p, x)} | Step(p, x) && p < |s|
      ensures AgreesAt(s, rest, p, x)
    {
    }
  }

  /** One rule more, without the groups that do not show. */
  function WithRule(l: Loaded, r: Rule): Loaded {
    Loaded(l.rules[Lower(r.name) := Rule(r.name, r.parameters, Normal(r.expression, true))], l.names + [r.name])
  }

  /** A printed rule, anywhere in a grammar text, is loaded as one rule more: itself up to the
      groups that do not show. */
  lemma RuleReadsBack(s: string, c: nat, r: Rule, l: Loaded)
    requires ScannableRule(r) && At(s, c, RuleText(r)) && Lower(r.name) !in l.rules
    ensures Scan(s, c, RuleName, l) == Scan(s, c + |RuleText(r)|, RuleName, WithRule(l, r))
  {
    var start, end := RuleLayout(s, c, r);
    RuleLoads(s, c, r, start, end, l);
  }

  lemma RuleLoads(s: string, c: nat, r: Rule, start: nat, end: nat, l: Loaded)
    requires ScannableRule(r) && start == c + |HeadText(r.name, r.parameters)| + 4 && Lower(r.name) !in l.rules
    requires At(s, c, HeadText(r.name, r.parameters)) && At(s, start - 4, " <- ")
    requires At(s, start, Text(r.expression, true)) && end == start + |Text(r.expression, true)|
    requires end < |s| && s[end] == '\n'
    ensures Scan(s, c, RuleName, l) == Scan(s, end + 1, RuleName, WithRule(l, r))
  {
    RuleToNewline(s, c, r, start, l);
    RuleAdded(s, end, r, l);
  }

  /** The line end completes the rule its tokens make. */
  lemma RuleAdded(s: string, c: nat, r: Rule, l: Loaded)
    requires c < |s| && s[c] == '\n' && ScannableRule(r) && Lower(r.name) !in l.rules
    requires Print(r.expression, true) != []
    ensures Scan(s, c, Definition(r.name, r.parameters, Print(r.expression, true), 0, false), l)
      == Scan(s, c + 1, RuleName, WithRule(l, r))
  {
    PrintedReadsBack(r.expression);
    RuleEnds(s, c, r.name, r.parameters, Print(r.expression, true), l);
  }

  lemma RuleToNewline(s: string, c: nat, r: Rule, start: nat, l: Loaded)
    requires ScannableRule(r) && start == c + |HeadText(r.name, r.parameters)| + 4
    requires At(s, c, HeadText(r.name, r.parameters)) && At(s, start - 4, " <- ")
    requires At(s, start, Text(r.expression, true)) && Follows(s, start + |Text(r.expression, true)|)
    ensures Print(r.expression, true) != []
    ensures Scan(s, c, RuleName, l) == Scan(s, start + |Text(r.expression, true)|,
      Definition(r.name, r.parameters, Print(r.expression, true), 0, false), l)
  {
    var rest := LoadingAgrees(s, l);
    RuleScans(s, c, r, start, rest);
  }

  lemma RuleLayout(s: string, c: nat, r: Rule) returns (start: nat, end: nat)
    requires At(s, c, RuleText(r))
    ensures start == c + |HeadText(r.name, r.parameters)| + 4 && end == start + |Text(r.expression, true)|
    ensures At(s, c, HeadText(r.name, r.parameters)) && At(s, start - 4, " <- ")
    ensures At(s, start, Text(r.expression, true)) && end + 1 == c + |RuleText(r)|
    ensures end < |s| && s[end] == '\n'
  {
    var head, body := HeadText(r.name, r.parameters), Text(r.expression, true);
    AtSplit(s, c, head, " <- " + (body + "\n"));
    AtSplit(s, c + |head|, " <- ", body + "\n");
    start := c + |head| + 4;
    end := start + |body|;
    AtSplit(s, start, body, "\n");
    AtOne(s, end, '\n');
  }

  lemma RuleEnds(s: string, c: nat, name: string, params: seq<string>, tokens: seq<PegToken>, l: Loaded)
    requires c < |s| && s[c] == '\n' && tokens != [] && Build(tokens).Ok? && Lower(name) !in l.rules
    ensures Scan(s, c, Definition(name, params, tokens, 0, false), l) == Scan(s, c + 1, RuleName,
      Loaded(l.rules[Lower(name) := Rule(name, params, Build(tokens).value)], l.names + [name]))
  {
  }

  /** A grammar text of one rule a line. */
  function GrammarText(rs: seq<Rule>): string {
    if rs == [] then "" else RuleText(rs[0]) + GrammarText(rs[1..])
  }

  function AddAll(l: Loaded, rs: seq<Rule>): Loaded
    decreases rs
  {
    if rs == [] then l
    else AddAll(WithRule(l, rs[0]), rs[1..])
  }

  /** Loading the printed form of a grammar gives its rules back, in order, each up to the groups
      that do not show. */
  lemma GrammarReadsBack(rs: seq<Rule>)
    requires forall i :: 0 <= i < |rs| ==> ScannableRule(rs[i])
    requires forall i, j :: 0 <= i < j < |rs| ==> Lower(rs[i].name) != Lower(rs[j].name)
    ensures Load(GrammarText(rs)) == Some(AddAll(NOTHING, rs))
  {
    var text := GrammarText(rs);
    RulesReadBack(text, 0, rs, text, NOTHING, Load(text), AddAll(NOTHING, rs));
  }

  /** Rules that print so as to scan back, under names that are new and distinct. */
  ghost predicate NewRules(rs: seq<Rule>, l: Loaded) {
    && (forall i :: 0 <= i < |rs| ==> ScannableRule(rs[i]))
    && (forall i, j :: 0 <= i < j < |rs| ==> Lower(rs[i].name) != Lower(rs[j].name))
    && (forall i :: 0 <= i < |rs| ==> Lower(rs[i].name) !in l.rules)
  }

  /** `loaded` is what scanning the rules from c on gives, `meant` what adding them gives. */
  lemma {:induction false} RulesReadBack(s: string, c: nat, rs: seq<Rule>, text: string, l: Loaded,
                                         loaded: Option<Loaded>, meant: Loaded)
    requires NewRules(rs, l) && text == GrammarText(rs) && c + |text| == |s| && s[c..] == text
    requires loaded == Scan(s, c, RuleName, l) && meant == AddAll(l, rs)
    ensures loaded == Some(meant)
    decreases rs
  {
    if rs == [] {
      NoMoreRules(s, l);
    } else {
      var one, others := RuleText(rs[0]), GrammarText(rs[1..]);
      RestSplits(s, c, one, others);
      var p, more := FirstRuleLoads(s, c, rs, one, l, loaded);
      RestIsNew(rs, l);
      FirstAdded(rs, l, meant);
      RulesReadBack(s, p, rs[1..], others, more, loaded, meant);
    }
  }

  lemma NoMoreRules(s: string, l: Loaded)
    ensures Scan(s, |s|, RuleName, l) == Some(l)
  {
  }

  lemma FirstRuleLoads(s: string, c: nat, rs: seq<Rule>, one: string, l: Loaded, loaded: Option<Loaded>)
    returns (p: nat, more: Loaded)
    requires rs != [] && NewRules(rs, l) && one == RuleText(rs[0]) && At(s, c, one)
    requires loaded == Scan(s, c, RuleName, l)
    ensures p == c + |one| <= |s| && more == WithRule(l, rs[0]) && loaded == Scan(s, p, RuleName, more)
  {
    p, more := c + |one|, WithRule(l, rs[0]);
    RuleReadsBack(s, c, rs[0], l);
  }

  lemma FirstAdded(rs: seq<Rule>, l: Loaded, meant: Loaded)
    requires rs != [] && meant == AddAll(l, rs)
    ensures meant == AddAll(WithRule(l, rs[0]), rs[1..])
  {
  }

  /** With the first rule loaded, the others are still new. */
  lemma RestIsNew(rs: seq<Rule>, l: Loaded)
    requires rs != [] && NewRules(rs, l)
    ensures NewRules(rs[1..], WithRule(l, rs[0]))
  {
  }

  lemma RestSplits(s: string, c: nat, one: string, others: string)
    requires c + |one + others| == |s| && s[c..] == one + others
    ensures At(s, c, one) && s[c + |one|..] == others && c + |one| + |others| == |s|
  {
    assert s[c..c + |one|] == s[c..][..|one|] == one;
    assert s[c + |one|..] == s[c..][|one|..] == others;
  }
}
