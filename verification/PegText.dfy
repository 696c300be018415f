/** Grammar text: the character state machine that loads rules, the printer's text, and the round
    trip through both (internal/grammar/parser.go:74-315, internal/grammar/expression.go:45-85). */
module PegText {
  import opened Tokens
  import opened ByteClasses
  import opened PegGrammar
  import opened PegSyntax
  import opened PegPrinter

  predicate IsNewline(c: char) { c == '\n' || c == '\r' }

  predicate IsAlphaNumeric(c: char) { 'A' <= c <= 'Z' || 'a' <= c <= 'z' || '0' <= c <= '9' }

  predicate IsPegOperator(c: char) {
    c == '/' || c == '?' || c == '(' || c == ')' || c == '*' || c == '+' || c == '!'
  }

  // ----- where the pieces of a rule end -----

  function CommentEnd(s: string, c: nat): (r: nat)
    requires c <= |s|
    ensures c <= r <= |s| && (c < |s| && !IsNewline(s[c]) ==> c < r)
    decreases |s| - c
  {
    if c == |s| || IsNewline(s[c]) then c else CommentEnd(s, c + 1)
  }

  function NameEnd(s: string, c: nat): (r: nat)
    requires c <= |s|
    ensures c <= r <= |s| && (c < |s| && IsAlphaNumeric(s[c]) ==> c < r)
    decreases |s| - c
  {
    if c == |s| || !IsAlphaNumeric(s[c]) then c else NameEnd(s, c + 1)
  }

  /** The closing quote of a literal, or past the end; a backslash takes the next byte along. */
  function LiteralEnd(s: string, c: nat): (r: nat)
    ensures c <= r && (r < |s| ==> s[r] == '\'')
    decreases |s| - c
  {
    if c >= |s| || s[c] == '\'' then c
    else if s[c] == '\\' then LiteralEnd(s, c + 2)
    else LiteralEnd(s, c + 1)
  }

  /** The closing bracket of a character class, or past the end. */
  function ClassEnd(s: string, c: nat, close: char): (r: nat)
    requires c <= |s|
    ensures c <= r <= |s| && (r < |s| ==> s[r] == close)
    decreases |s| - c
  {
    if c == |s| || s[c] == close then c
    else if s[c] == '\\' then ClassEnd(s, if c + 2 <= |s| then c + 2 else c + 1, close)
    else ClassEnd(s, c + 1, close)
  }

  function Closer(c: char): char { if c == '<' then '>' else ']' }

  // ----- loading rules -----

  /** The grammar so far and its rule names in order. */
  datatype Loaded = Loaded(rules: map<string, Rule>, names: seq<string>)

  const NOTHING := Loaded(map[], [])

  datatype ScanState =
    | RuleName
    | Separator(name: string, params: seq<string>)
    | Definition(name: string, params: seq<string>, tokens: seq<PegToken>, brackets: nat, inOrClause: bool)

  /** completeRule: build the expression, refuse a second rule of the same name. */
  function Completed(l: Loaded, name: string, params: seq<string>, tokens: seq<PegToken>): Option<Loaded> {
    match Build(tokens)
    case Err(_) => None
    case Ok(e, _) =>
      if Lower(name) in l.rules then None
      else Some(Loaded(l.rules[Lower(name) := Rule(name, params, e)], l.names + [name]))
  }

  datatype Piece = Piece(st: ScanState, next: nat) | Bad

  /** One rule name, separator or definition token at c. */
  function PieceAt(s: string, c: nat, st: ScanState): (p: Piece)
    requires c < |s|
    ensures p.Piece? ==> c < p.next <= |s|
  {
    match st
    case RuleName =>
      var start := if s[c] == '%' then c + 1 else c;
      var end := NameEnd(s, start);
      if end == c then Bad else Piece(Separator(s[c..end], []), end)
    case Separator(name, params) =>
      if s[c] == '(' then
        var end := NameEnd(s, c + 1);
        if params != [] || end == c + 1 || end >= |s| || s[end] != ')' then Bad
        else Piece(Separator(name, params + [s[c + 1..end]]), end + 1)
      else if c + 1 >= |s| || s[c] != '<' || s[c + 1] != '-' then Bad
      else Piece(Definition(name, params, [], 0, false), c + 2)
    case Definition(_, _, _, _, _) => DefinitionPiece(s, c, st)
  }

  function WithToken(st: ScanState, t: PegToken, brackets: nat, inOrClause: bool): ScanState
    requires st.Definition?
  {
    st.(tokens := st.tokens + [t], brackets := brackets, inOrClause := inOrClause)
  }

  function DefinitionPiece(s: string, c: nat, st: ScanState): (p: Piece)
    requires c < |s| && st.Definition?
    ensures p.Piece? ==> c < p.next <= |s|
  {
    if s[c] == '\'' then
      var end := LiteralEnd(s, c + 1);
      if end >= |s| || (end + 1 < |s| && s[end + 1] == 'i') then Bad
      else Piece(WithToken(st, PegToken(LiteralToken, s[c + 1..end]), st.brackets, false), end + 1)
    else if IsAlphaNumeric(s[c]) then
      var end := NameEnd(s, c);
      if end < |s| && s[end] == '(' then
        Piece(WithToken(st, PegToken(FunctionCallToken, s[c..end]), st.brackets + 1, false), end + 1)
      else Piece(WithToken(st, PegToken(ReferenceToken, s[c..end]), st.brackets, false), end)
    else if s[c] == '[' || s[c] == '<' then
      var end := ClassEnd(s, c, Closer(s[c]));
      var after := if end < |s| then end + 1 else end;
      Piece(WithToken(st, PegToken(RegexToken, s[c..after]), st.brackets, false), after)
    else if IsPegOperator(s[c]) then
      if s[c] == ')' && st.brackets == 0 then Bad
      else
        var brackets := if s[c] == '(' then st.brackets + 1 else if s[c] == ')' then st.brackets - 1 else st.brackets;
        Piece(WithToken(st, Op(s[c]), brackets, s[c] == '/'), c + 1)
    else Bad
  }

  /** A newline that completes the rule being defined. */
  predicate Completes(s: string, c: nat, st: ScanState)
    requires c < |s|
  {
    st.Definition? && IsNewline(s[c]) && st.brackets == 0 && !st.inOrClause && st.tokens != []
  }

  /** Everything parseRules loads from s[c..]. */
  function Scan(s: string, c: nat, st: ScanState, l: Loaded): Option<Loaded>
    requires c <= |s|
    decreases |s| - c
  {
    if c == |s| then
      match st
      case RuleName => Some(l)
      case Separator(_, _) => None
      case Definition(name, params, tokens, _, _) => if tokens == [] then None else Completed(l, name, params, tokens)
    else if s[c] == '#' then Scan(s, CommentEnd(s, c), st, l)
    else if Completes(s, c, st) then
      match Completed(l, st.name, st.params, st.tokens)
      case None => None
      case Some(more) => Scan(s, c + 1, RuleName, more)
    else if IsSpace(s[c]) then Scan(s, c + 1, st, l)
    else match PieceAt(s, c, st)
      case Bad => None
      case Piece(next, p) => Scan(s, p, next, l)
  }

  /** Parse (parser.go:79-85). */
  function Load(s: string): Option<Loaded> {
    Scan(s, 0, RuleName, NOTHING)
  }

  class GrammarLoader {
    const text: string
    var rules: map<string, Rule>
    var names: seq<string>

    constructor (text: string)
      ensures this.text == text && Now() == NOTHING
    {
      this.text, rules, names := text, map[], [];
    }

    function Now(): Loaded
      reads this
    {
      Loaded(rules, names)
    }

    /** completeRule and addRule (parser.go:64-72, 307-315). */
    method CompleteRule(name: string, params: seq<string>, tokens: seq<PegToken>) returns (ok: bool)
      requires WellFormedTokens(tokens)
      modifies this
      ensures ok == Completed(old(Now()), name, params, tokens).Some?
      ensures ok ==> Now() == Completed(old(Now()), name, params, tokens).value
    {
      var expr := BuildExpression(tokens);
      if expr.Err? {
        return false;
      }
      var key := Lower(name);
      if key in rules {
        return false;
      }
      rules := rules[key := Rule(name, params, expr.value)];
      names := names + [name];
      return true;
    }

    method SkipName(from: nat) returns (c: nat)
      requires from <= |text|
      ensures c == NameEnd(text, from)
    {
      c := from;
      while c < |text| && IsAlphaNumeric(text[c])
        invariant from <= c <= |text| && NameEnd(text, c) == NameEnd(text, from)
      {
        c := c + 1;
      }
    }

    method SkipComment(from: nat) returns (c: nat)
      requires from <= |text|
      ensures c == CommentEnd(text, from)
    {
      c := from;
      while c < |text| && !IsNewline(text[c])
        invariant from <= c <= |text| && CommentEnd(text, c) == CommentEnd(text, from)
      {
        c := c + 1;
      }
    }

    /** stateRuleName and stateRuleSeparator (parser.go:167-209). */
    method ReadHead(c0: nat, st: ScanState) returns (p: Piece)
      requires c0 < |text| && !st.Definition?
      ensures p == PieceAt(text, c0, st)
    {
      var n := |text|;
      var c := c0;
      if st.RuleName? {
        if text[c] == '%' {
          c := c + 1;
        }
        c := SkipName(c);
        if c == c0 {
          return Bad;
        }
        return Piece(Separator(text[c0..c], []), c);
      }
      if text[c] == '(' {
        if |st.params| > 0 {
          return Bad;
        }
        c := c + 1;
        var parameterStart := c;
        c := SkipName(c);
        if parameterStart == c {
          return Bad;
        }
        var params := st.params + [text[parameterStart..c]];
        if c >= n || text[c] != ')' {
          return Bad;
        }
        return Piece(Separator(st.name, params), c + 1);
      }
      if c + 1 >= n || text[c] != '<' || text[c + 1] != '-' {
        return Bad;
      }
      return Piece(Definition(st.name, st.params, [], 0, false), c + 2);
    }

    /** stateRuleDefinition (parser.go:210-288). */
    method ReadToken(c0: nat, st: ScanState) returns (p: Piece)
      requires c0 < |text| && st.Definition?
      ensures p == DefinitionPiece(text, c0, st)
    {
      var n := |text|;
      var c := c0;
      if text[c] == '\'' {
        c := c + 1;
        while c < n && text[c] != '\''
          invariant c0 < c && LiteralEnd(text, c) == LiteralEnd(text, c0 + 1)
          decreases n - c
        {
          if text[c] == '\\' {
            c := c + 1;
          }
          c := c + 1;
        }
        if c >= n {
          return Bad;
        }
        if c + 1 < n && text[c + 1] == 'i' {
          return Bad;
        }
        return Piece(WithToken(st, PegToken(LiteralToken, text[c0 + 1..c]), st.brackets, false), c + 1);
      }
      if IsAlphaNumeric(text[c]) {
        c := SkipName(c);
        if c < n && text[c] == '(' {
          return Piece(WithToken(st, PegToken(FunctionCallToken, text[c0..c]), st.brackets + 1, false), c + 1);
        }
        return Piece(WithToken(st, PegToken(ReferenceToken, text[c0..c]), st.brackets, false), c);
      }
      if text[c] == '[' || text[c] == '<' {
        var finalChar := if text[c] == '<' then '>' else ']';
        while c < n && text[c] != finalChar
          invariant c0 <= c <= n && ClassEnd(text, c, finalChar) == ClassEnd(text, c0, finalChar)
          decreases n - c
        {
          if text[c] == '\\' {
            c := c + 1;
          }
          if c < n {
            c := c + 1;
          }
        }
        c := c + 1;
        var end := if c > n then n else c;
        return Piece(WithToken(st, PegToken(RegexToken, text[c0..end]), st.brackets, false), end);
      }
      if IsPegOperator(text[c]) {
        var brackets := st.brackets;
        var inOrClause := false;
        if text[c] == '(' {
          brackets := brackets + 1;
        } else if text[c] == ')' {
          if brackets == 0 {
            return Bad;
          }
          brackets := brackets - 1;
        } else if text[c] == '/' {
          inOrClause := true;
        }
        return Piece(WithToken(st, Op(text[c]), brackets, inOrClause), c + 1);
      }
      return Bad;
    }

    /** parseRules (parser.go:133-302). */
    method ParseRules() returns (ok: bool)
      requires Now() == NOTHING
      modifies this
      ensures ok == Load(text).Some?
      ensures ok ==> Now() == Load(text).value
    {
      var n := |text|;
      var st := RuleName;
      var c := 0;
      while c < n
        invariant c <= n && Scan(text, c, st, Now()) == Load(text)
        invariant st.Definition? ==> WellFormedTokens(st.tokens)
        decreases n - c
      {
        if text[c] == '#' {
          c := SkipComment(c);
          continue;
        }
        if st.Definition? && IsNewline(text[c]) && st.brackets == 0 && !st.inOrClause && |st.tokens| > 0 {
          var done := CompleteRule(st.name, st.params, st.tokens);
          if !done {
            return false;
          }
          st := RuleName;
          c := c + 1;
          continue;
        }
        if IsSpace(text[c]) {
          c := c + 1;
          continue;
        }
        var p;
        if st.Definition? {
          p := ReadToken(c, st);
        } else {
          p := ReadHead(c, st);
        }
        if p.Bad? {
          return false;
        }
        st, c := p.st, p.next;
      }
      match st
      case RuleName => return true;
      case Separator(_, _) => return false;
      case Definition(name, params, tokens, _, _) =>
        if |tokens| == 0 {
          return false;
        }
        ok := CompleteRule(name, params, tokens);
    }
  }
}
