# Verified model of darkwing's SQL front end

Darkwing parses DuckDB SQL with a PEG engine. It loads grammar text into expression trees, compiles
them to a graph of matchers, tokenizes the source, matches the tokens with backtracking and a packrat
cache, and turns the result tree into an AST. This project models the parts of that path whose
correctness spans many functions, and proves what they promise:

- the compiled matcher graph, with or without the cache, does exactly what the grammar says, a rule
  is compiled once, and a memoized rule's body runs at most once per token position;
- the tokenizer loses nothing, and statement spans tile the source;
- what is printed is read back: grammar text, identifiers, strings, numbers, corpus files;
- the rewrites of the transformer (set operations, recursive CTEs, GROUP BY, ANY/ALL, AND/OR) keep
  the meaning of what was written;
- literals, parameters and UTF-8 validation are exact, or exactly as inexact as stated.

`dafny verify dfyconfig.toml` checks everything.

## Layout

| modules | what they model |
|---|---|
| `Tokens`, `ByteClasses` | tokens, spans, keyword categories, byte classes |
| `ParseTree`, `SpecialMatchers` | result trees; leaf matchers for identifiers, numbers, strings, operators |
| `PegSemantics`, `RankIndependence` | what matching means, with its termination argument |
| `Packrat`, `Matching` | the stateful matcher with its cache; one match, error location, the match loop |
| `LeafJudgment`, `PegJudgment`, `GraphJudgment`, `GrammarJudgment` | what a match is, as derivations that can be checked: of leaves, of any PEG, of a matcher graph, of a grammar |
| `PegProgram`, `PegGrammar`, `Substitution`, `Compilation`, `Factory`, `Raising`, `Engines` | the meaning of a grammar, the compiler from grammar to matchers, its derivations carried back to the grammar, and matching by rule name |
| `LexRules`, `LexSpec`, `Lexer`, `LexFacts`, `Quoting` | the tokenizer: specification, state machine, losslessness, quoting |
| `LexShapes`, `LexPieces`, `LexTokens`, `LexGaps` | what numbers, words, operators, strings and comments look like, what each leaves behind, what is refused, and what a token remembers of the gap before it |
| `Statements` | the statement loop and its spans |
| `PegSyntax`, `PegNotation`, `PegPrinter`, `PegText`, `PegLayout`, `PegRoundTrip`, `PegRules`, `PegReload` | rule expressions and grammar text: parser and loader, the notation and layout they accept, printer, round trips |
| `PegWeights`, `PegOpenEnds`, `PegLosses` | the grammars that do not load again from their printed form |
| `Decimal`, `Numbers`, `NumberLiterals`, `DecimalText`, `ValueText` | 128-bit parsing on 64-bit words, number literals, and their values rendered again |
| `GroupingSets`, `GroupMeaning`, `GroupBy` | slices that share arrays, CUBE and ROLLUP, what GROUP BY means, GROUP BY |
| `Relations`, `Queries`, `RecursiveCtes`, `SetOps` | relations, set-operation chains, the recursive split, the in-place tree |
| `SqlExpressions`, `AnyAll`, `Conjunctions` | three-valued expressions and their rewrites |
| `Corpus`, `CorpusShape`, `CorpusRoundTrip` | corpus files: writing and reading, the shape of what is read, what survives |
| `Parameters` | parameter numbering |
| `Utf8` | query text validation |

## How it is modelled

- A Go string is a `string` with one character per byte; in `Utf8` it is a sequence of bytes.
  Machine words are bounded subset types, and wrapping is written out.
- Code that mutates an object is a class here; its methods are proved against functions of its state,
  and the main results are about those functions. Code that computes values is functions.
- Matching is total only on grammars without left recursion and without a repeated expression that
  can match nothing. The evidence is a ghost `Witness` (a rank and a nullability for every matcher),
  which follows from a `RuleWitness` on the grammar (`Compilation.CompiledIsRanked`) and does not
  influence any outcome (`RankIndependence.SameRun`).
- What a match is supposed to be is said a second time, without running anything: a derivation is a
  tree of verdicts, each of which follows from those below it by the rule of its form (parts in
  order, the first alternative that matches, zero or one, one or more, zero or more), down to leaves
  given by the shape of their token. A goal has one derivation (`PegJudgment.OneDerivation`). The
  matcher graph runs as derived of its matchers (`GraphJudgment.RunIsJudged`), and the engine the
  compiler returns as derived of the grammar's own expressions, a macro's parameter standing for the
  argument of the call (`Factory.New`, `Raising.FinishedIsJudged`).
- Likewise a lexeme, a grammar text, a corpus file, a query's rows and the grouping sets of an entry
  are described by what they look like, and the functions the code is proved against are proved to
  find exactly that.
- `MatchError`, which the code raises by panicking, is a third outcome beside success and failure.
- The compiler's promise needs two things of the rules compilation reaches from the root, which are
  the keys of the ghost map `levels`, and nothing of the others: references use the spelling of the
  rule they name, and macro calls never come back to the same macro.
- A slice that grows gets any amount of room, chosen anew at each `append`.
- The float parser, regular expressions, the query engine under a SELECT, fingerprints and the
  statement transformers are parameters.

## Where the code does not do what is said of it

- `parseHugeint` (parser/transform_single.go:409-453) misses overflows of the upper word's product by
  ten: `400000000000000000000000000000000000000` reads as 59717633079061536536625392568231788544.
  `Numbers.HugeintRightIff` says exactly when the result is right, `Numbers.OverflowsMissed` gives a
  whole range where it is not.
- `CanStore` (internal/testfile/testfile.go:61-82) is said to report whether a statement survives a
  corpus file. It takes lines that end in a carriage return, which reading drops, and refuses the
  empty statement, which survives (`CorpusRoundTrip.CanStoreIsRightIff`).
- `consumedEnd` (parser/parser.go:156-161) expects dollar-quoted tokens whose recorded length is not
  their length in the source. The tokenizer keeps the raw text, so every span end lies inside the
  source (`LexFacts.TokensWellSpanned`) and its clamp has no effect.
- A token pushed directly after a parameter's `$` gets a span one byte early
  (lexer/lexer.go:416-417), as the parenthesis of `$(` does (`LexFacts.ShiftedSpan`);
  `LexFacts.LosslessTokenizing` carries the true extent beside it.
- The modifiers of an outer statement are attached to a node that already holds the CTEs of the
  statement in its parentheses (parser/transform_select.go:34-49, 625-638), and are captured by them:
  `WITH a AS (SELECT 1 AS x) (WITH a AS (SELECT 2 AS x) SELECT 10) LIMIT (SELECT x FROM a)`
  (`Queries.LimitIsCaptured`). `Queries.AttachedMeansIff` says exactly when attaching is right,
  `Queries.AllAsWrittenIff` when a statement and all those inside it are.
- The recursive-CTE split leaves a percentage limit on the left part, or drops it
  (parser/transform_select.go:115-144). The union is kept exactly when nothing was attached to it
  (`RecursiveCtes.StatementSplitIff`, under any reading of EXCEPT and INTERSECT;
  `RecursiveCtes.SqlSplitIff` with their real rows, for two inputs or without ALL);
  `RecursiveCtes.PercentLimitIsMisplaced` is a union of two and a union of three where it is not.
  Of three or more with ALL a last input that never has a row hides the misplaced limit
  (`RecursiveCtes.EmptyLastSplits`).
- The ANY/ALL rewriting of regular expressions puts the left side under a lambda; a column named like
  its parameter is captured, and every pattern is matched against itself (`AnyAll.CapturedName`); a
  column is matched rightly exactly when it has another name (`AnyAll.ColumnIsRightIff`).
- A parameter name that spells a number takes that number's place (`Parameters.NumeralNameClashes`);
  numbers are recorded rightly exactly when no positional parameter's numeral was a name with another
  number (`Parameters.AllRecordedIff`). The counter wraps after the largest explicit number
  (`Parameters.CounterWraps`); fresh numbers are the largest exactly when no fresh parameter finds it
  there (`Parameters.FreshIsLargerIff`, `Parameters.CountIsLargestIff`).
- `valueString` reads the bits of a UHUGEINT as signed (parser/transform_expr.go:1041-1046):
  `COLLATE 340282366920938463463374607431768211455` names the collation `-1`. Integers round-trip
  exactly when they are no UHUGEINT (`ValueText.IntegerRoundTripsIff`).
- `5.` is a DECIMAL, is rendered `5` and reads back as an INTEGER (`ValueText.FivePoint`); a DECIMAL
  with 38 digits behind the point is rendered with 39 and reads back as a DOUBLE
  (`ValueText.AllBehindThePoint`). A rendering reads back as a DECIMAL exactly when its scale is
  between 1 and 37 and it has at most 38 digits (`ValueText.DecimalRoundTrips`).
- A loaded grammar is lost when printed if a rule prints as nothing (`a <- ()`), since the next
  rule's name becomes its body, or if the text ended inside a character class (`a <- [b`), which then
  takes the line end along (`PegLosses.EmptyRule`, `PegLosses.OpenRule`); in no other case
  (`PegLosses.LoadedReloadsIff`).
- The cache's branch that raises the furthest token on a hit (internal/matcher/packrat.go:31-33) is
  never taken: what an entry reached, the match has already seen.

## Model

| member | source | states |
|---|---|---|
| `Packrat.Match` | internal/matcher/matcher.go:78-90 | every match, cached or not, gives the tree, end position, furthest token and abort of the uncached big-step run, restores the position on failure, and keeps the cache faithful |
| `Packrat.CachedMatch` | internal/matcher/packrat.go:27-52 | a hit answers what a fresh run would; a miss runs the body, records it and counts it once for its position |
| `Packrat.Recall` | internal/matcher/packrat.go:28-38 | answering from an entry moves the state exactly as the run would have |
| `Packrat.MatchInternal` | internal/matcher/matcher.go:65-74 | every matcher kind's body agrees with the semantics of its kind |
| `Packrat.MatchList` | internal/matcher/matcher.go:122-143 | children in order, first failure fails the list and the position is put back |
| `Packrat.MatchChoice` | internal/matcher/matcher.go:160-173 | the first alternative that matches, with the furthest token of the failed ones kept |
| `Packrat.MatchOptional` | internal/matcher/matcher.go:190-201 | agrees with the run of an optional, which is judged zero or one (`GraphJudgment.RunIsJudged`): at its child's end, or where it stood |
| `Packrat.MatchRepeat` | internal/matcher/matcher.go:214-234 | one or more, all matches up to the first failure |
| `Packrat.MatchKeyword` | internal/matcher/matcher.go:258-272 | one token that equals the keyword, ignoring ASCII case |
| `Packrat.MatchEndOfInput` | internal/matcher/matcher.go:284-291 | only the sentinel matches |
| `Packrat.MatchIdentifier` | internal/matcher/special.go:138-179 | the value of an identifier or an allowed keyword, unquoted where the code unquotes |
| `Packrat.MatchNumber` | internal/matcher/special.go:199-246 | a number, no number, or the malformed number that aborts the match |
| `Packrat.MatchOperator` | internal/matcher/special.go:400-421 | an operator text, including the sentinel's empty one |
| `Packrat.MatchString` | internal/matcher/special.go:333-360 | a string with its continuation literals joined |
| `SpecialMatchers.CompareIgnoringCase` | internal/matcher/matcher.go:93-110 | equal exactly when the ASCII-lowered texts are equal |
| `SpecialMatchers.JudgeNumber` | internal/matcher/special.go:199-246 | the loop over digits, dot and exponent agrees with the recursive verdict |
| `ParseTree.EncloseAllReaches` | internal/matcher/result.go:130-153 | enclosing children in order ends where the last child with a location ends |
| `LeafJudgment.LeafRuleIff` | internal/matcher/special.go:48-421 | which token each leaf takes and with what tree, by the token's shape: a word in any case, a name bare or quoted, digits with one point and exponent, operator bytes, a literal and the literals that continue it; the leaf's verdict is that one and no other |
| `PegJudgment.OneDerivation` | internal/matcher/matcher.go:78-234 | of a goal at a token there is one derivation: verdict, end and tree are settled by the rules, places of nodes included |
| `PegJudgment.JudgedOnce` | internal/matcher/matcher.go:78-234 | so an outcome that is judged is the only one |
| `GraphJudgment.RunIsDerived` | internal/matcher/matcher.go:78-234 | what running a matcher gives is what a derivation says: the tree, the end, and the furthest token anything in it came to |
| `GraphJudgment.RunIsJudged` | internal/matcher/matcher.go:78-234 | an outcome is judged of a matcher exactly when running it gives that outcome |
| `GraphJudgment.OptionalNeverFails` | internal/matcher/matcher.go:190-201 | an optional never fails: it ends where its child ends, or stays where it stood when its child fails |
| `PegSemantics.Run` | internal/matcher/matcher.go:78-90 | on every ranked graph a match ends: success never lowers the position, a matcher not nullable consumes a token, the furthest token is at least the position |
| `PegSemantics.RunChildren` | internal/matcher/matcher.go:122-143 | a list that consumed nothing has only nullable children |
| `PegSemantics.RunRepeat` | internal/matcher/matcher.go:214-234 | a repeat never fails halfway, and every round consumes a token |
| `RankIndependence.SameRun` | internal/matcher/matcher.go:78-90 | any two termination arguments for the same graph give the same outcome |
| `Matching.RunMatch` | internal/matcher/engine.go:152-173 | with the cache: verdict, tree, end and error token are those of matching without it, and those derived of the matcher; body runs are distinct and at most memoized matchers times tokens plus one |
| `Matching.RunUncached` | internal/matcher/matcher.go:80-85 | without the cache: the same verdict, and the one derived |
| `Matching.OneVerdict` | internal/matcher/engine.go:152-192 | only one verdict follows from the derivations, the error token included |
| `Matching.BodyRunsBound` | internal/matcher/packrat.go:27-52 | distinct runs of memoized matchers at positions up to n are at most matchers times n + 1 |
| `Matching.LocateError` | internal/matcher/engine.go:177-192 | the token the error names, for every furthest index |
| `Matching.ErrorNamesRealToken` | internal/matcher/engine.go:177-192 | a syntax error names the furthest token reached, or the last real one at the end of the input, whenever there is a real token |
| `Matching.MatchAll` | internal/matcher/engine.go:133-150 | the loop peels statements as the recursive reading does, and keeps the results before an error |
| `Matching.PeeledInARow` | internal/matcher/engine.go:133-150 | the results are those of matches in a row, each from where the one before ended; the error is what comes at the last place: no accepted match, or one that takes nothing |
| `Matching.PeelingProgresses` | internal/matcher/engine.go:133-150 | a statement rule that cannot match nothing never stalls the loop |
| `Engines.MatchRule` | internal/matcher/engine.go:107-173 | matching a rule by name gives the one verdict derived of the grammar's own expressions, with the cache running at most memoized rules times tokens plus one bodies, and the body of each rule that is no macro at most once at a token |
| `Engines.RankedGrammarRuns` | internal/matcher/engine.go:50-107 | the engine of a ranked grammar runs every rule to an end, as the grammar's evaluation does and as derived of the grammar |
| `Engines.RunsPerRule` | internal/matcher/packrat.go:27-52 | two body runs of one rule, other than a macro, are at different tokens: its matcher is one, however often the rule is named |
| `Engines.MemoizedMatchers` | internal/matcher/factory.go:87-145 | there are at most as many memoized matchers as memoized rules, as long as none of these is a macro |
| `PegProgram.Eval` | internal/matcher/matcher.go:122-234 | the grammar's own meaning ends on every ranked grammar, never moves back, and consumes unless nullable |
| `PegProgram.EvalRule` | internal/matcher/matcher.go:78-90 | the same for a rule by name |
| `Compilation.CompiledIsRanked` | internal/matcher/factory.go:104-207 | a grammar without left recursion or nullable repeats compiles to a graph without them |
| `Compilation.MatcherMeansExpression` | internal/matcher/factory.go:149-207 | every matcher succeeds, fails and consumes as the expression it was made for |
| `Compilation.DenotedMeans` | internal/matcher/factory.go:104-207 | the same for a child that may be a rule, a keyword or a parameter |
| `Compilation.ListMeansParts` | internal/matcher/factory.go:168-178 | a compiled sequence does what its parts do in order |
| `Compilation.ChoiceMeansAlternatives` | internal/matcher/factory.go:168-184 | a compiled choice picks the alternative the grammar picks |
| `Factory.Compiler.Alloc` | internal/matcher/factory.go:37-42 | ids are the allocation order, and everything compiled before keeps its meaning |
| `Factory.Compiler.KeywordMatcher` | internal/matcher/factory.go:74-83 | one matcher per keyword text, reused |
| `Factory.Compiler.AddRuleOverride` | internal/matcher/factory.go:87-98 | an overridden rule is its leaf matcher from then on |
| `Factory.Compiler.InstallOverrides` | internal/matcher/factory.go:229-267 | all overrides installed, nothing else |
| `Factory.Compiler.CreateMatcher` | internal/matcher/factory.go:104-145 | a plain rule's matcher is the registered one, an existing one unchanged, a macro call's stands for the rule with its arguments put in, and every earlier matcher stays; an error only if some rule has no meaning |
| `Factory.Compiler.CompileRule` | internal/matcher/factory.go:117-144 | the same for a rule not compiled yet and for one more call of a macro |
| `Factory.RootOnce` | internal/matcher/factory.go:115-144 | the list that gets the rule name and the memo flag is the one registered for the rule, or a macro call's |
| `Factory.OneMatcherPerRule` | internal/matcher/factory.go:104-120 | in a finished engine two matchers of one plain or overridden rule are the same matcher |
| `Factory.Compiler.EnterRoot` | internal/matcher/factory.go:115-120 | the root is registered before its children exist |
| `Factory.Compiler.BuildBody` | internal/matcher/factory.go:128-145 | filling the root's children makes good what its registration promised |
| `Factory.Compiler.CreateExpression` | internal/matcher/factory.go:149-207 | each expression form becomes the matcher of its substituted meaning; a character class or unknown name is an error |
| `Factory.Compiler.CreatePostfix` | internal/matcher/factory.go:185-201 | `?`, `+` and `*` become the matcher of their substituted meaning; that it matches zero or one, one or more and zero or more is `Raising.FinishedIsJudged` |
| `Raising.RaiseStar` | internal/matcher/factory.go:185-201 | what is derived of the optional over a repeat that `*` compiles to is derived of zero or more |
| `Raising.RaiseCall` | internal/matcher/factory.go:158-167 | what is derived of a macro call's list is derived of the rule with its parameter bound to the argument |
| `Raising.RuleIsJudged` | internal/matcher/factory.go:104-207 | of a finished compilation: running a rule's matcher gives what is judged of the rule in the grammar |
| `Raising.FinishedIsJudged` | internal/matcher/factory.go:104-207 | for every rule, tokens and place, whatever the evidence of termination |
| `Substitution.WellNamedMeans` | internal/matcher/factory.go:149-207 | an expression has a meaning when every name in it and in the rules reached is a parameter, an override or a rule called with its number of parameters, and no character class is used |
| `Factory.New` | internal/matcher/engine.go:50-71 | the finished engine matches every rule as judged of the grammar, where `?`, `*` and `+` are zero or one, zero or more and one or more and a call is its rule with the argument for the parameter; it represents the grammar reached from the root with one matcher for each plain rule; it is returned whenever the reached rules are well named, and fails only when one has no meaning or the root is missing or a macro |
| `Factory.FinishedRepresents` | internal/matcher/factory.go:104-145 | when nothing is left open, every matcher fits its expression, every rule its definition, and every plain rule has one matcher |
| `Factory.EngineMeansGrammar` | internal/matcher/factory.go:104-207 | from any compiled rule, on any tokens, the engine does what the grammar says |
| `Lexer.Tokenizer.Run` | lexer/lexer.go:356-684 | the nine-state machine, stepping back included, ends and gives the tokens or the error of the specification |
| `Lexer.Tokenize` | lexer/lexer.go:347-354 | tokens and sentinel, or message and offset, as specified |
| `Lexer.Tokenizer.StepStandard` | lexer/lexer.go:370-490 | one step of the standard state keeps what is left to specify |
| `Lexer.Tokenizer.StepStandardDollar` | lexer/lexer.go:390-426 | a parameter's `$`, a dollar quote or a `$` alone |
| `Lexer.Tokenizer.StepNumeric` | lexer/lexer.go:492-521 | one step inside a number keeps what is left to specify, the step back over a misplaced exponent or sign included; where a number ends is `LexShapes.ShapeIsToken` and `LexShapes.LongestNumber` |
| `Lexer.Tokenizer.StepString` | lexer/lexer.go:552-569 | string bodies with doubled quotes and escapes |
| `Lexer.Tokenizer.StepQuoted` | lexer/lexer.go:571-583 | quoted identifiers; an empty one is an error |
| `Lexer.Tokenizer.StepBlockComment` | lexer/lexer.go:594-608 | nested block comments |
| `Lexer.Tokenizer.PushText` | lexer/lexer.go:264-307 | one token for the range, flagged for newlines and comments before it |
| `Lexer.Tokenizer.PushOperatorText` | lexer/lexer.go:313-338 | an operator with its trailing signs split off |
| `LexShapes.ShapeIsToken` | lexer/lexer.go:492-521 | digits, a point and digits, an exponent with its sign, and `_` between digits: such a text is one Number token, before any byte that cannot continue it |
| `LexShapes.LongestNumber` | lexer/lexer.go:492-521 | a Number token never stops where a longer text still has the shape |
| `LexShapes.NumberAlone` | lexer/lexer.go:492-521 | by itself such a text is the one token of its source |
| `LexPieces.LexemeTable` | lexer/lexer.go:370-490 | which kind of lexeme begins at a byte, by the bytes there, and no other kind |
| `LexPieces.UnicodeSpaceIff` | lexer/lexer.go:78-101 | blanks past ASCII are the UTF-8 forms of the White_Space code points |
| `LexPieces.WordIsToken` | lexer/lexer.go:540-550 | a word is one token up to the first byte that is not a word's, a keyword when it has a category |
| `LexPieces.OperatorIsTokens` | lexer/lexer.go:313-338 | a run of operator bytes is one token, but signs at its end are tokens of their own unless a byte in it allows them |
| `LexPieces.StringEndIff` | lexer/lexer.go:552-569 | a string ends at the first quote neither doubled nor escaped |
| `LexPieces.QuotedEndIff` | lexer/lexer.go:571-583 | a quoted identifier at the first delimiter not doubled |
| `LexPieces.LineCommentIff` | lexer/lexer.go:585-592 | a line comment takes the first line break along |
| `LexPieces.BlockCommentsNest` | lexer/lexer.go:594-608 | a comment within a block comment is closed first |
| `LexTokens.SymbolIsToken` | lexer/lexer.go:383-466 | which single bytes and pairs are tokens by themselves, of which kind, and where each is recorded, behind a parameter's `$` as well |
| `LexTokens.RefusedIff` | lexer/lexer.go:340-346 | the source is refused at a lexeme exactly when it is a string, a quoted identifier or a block comment that nothing closes, or an identifier with nothing in it; with which message and offset |
| `LexGaps.StringBehindGap` | lexer/lexer.go:264-307 | a string behind blanks and comments is one token more, and knows exactly whether a line break and whether a block comment stands in between |
| `LexFacts.StaysFaithful` | lexer/lexer.go:356-684 | from any point of the run the tokens stay slices of the source at ascending extents with only blanks and comments between |
| `LexFacts.NextKeeps` | lexer/lexer.go:370-646 | one lexeme of any kind keeps this, whatever came before it |
| `LexFacts.LosslessTokenizing` | lexer/lexer.go:356-684 | of every accepted source: texts are slices at strictly increasing disjoint extents and the bytes outside are exactly whitespace and comments |
| `LexFacts.TokensWellSpanned` | lexer/lexer.go:249-354 | span ends never decrease and lie in the source; only the last token is the sentinel |
| `LexFacts.ShiftedSpan` | lexer/lexer.go:416-464 | the one exception to true spans at its shortest: a `$` and a one-byte operator |
| `Quoting.SqlIdentifier` | parser/transform_ddl.go:343-359 | itself exactly when it is a word of letters, digits and underscores, in the case it has, that begins neither with a digit nor with an underscore and a digit, and is no keyword; else quoted |
| `Quoting.QuotedIdentRoundTrip` | parser/transform_ddl.go:334-336 | a quoted identifier lexes as one token and unquotes to the name, for every non-empty name |
| `Quoting.EmptyIdentIsRejected` | lexer/lexer.go:268-272 | the empty name does not |
| `Quoting.SqlIdentifierRoundTrip` | parser/transform_ddl.go:343-359 | the identifier as rendered lexes as one token that reads as the name |
| `Quoting.QuotedStringRoundTrip` | internal/matcher/special.go:315-320 | a string with its quotes doubled lexes as one token and strips to the string |
| `Quoting.DollarQuoteScan` | lexer/lexer.go:610-645 | the scan of a dollar quote stops at its own closing delimiter exactly when the delimiter does not occur earlier |
| `Quoting.DollarQuoteRoundTrip` | internal/matcher/special.go:296-320 | then the token strips to the body |
| `Quoting.UndoubleDouble` | internal/matcher/special.go:63-66 | doubling a quote and undoubling it is nothing |
| `Statements.FindConsumedEnd` | parser/parser.go:162-173 | the end of the last consumed token that is not the sentinel |
| `Statements.ParseString` | parser/parser.go:90-154 | the source is refused with its UTF-8 verdict, or the statements, with the spans set on them in place, are those of the recursive reading, or its error |
| `Statements.PeelStatements` | parser/parser.go:107-144 | the loop before the last span is stretched |
| `Statements.StretchLast` | parser/parser.go:145-152 | only the last statement's span changes, to the end of the source |
| `Statements.StatementsInARow` | parser/parser.go:107-144 | the statements are those of top-level matches in a row up to the end of the tokens: every match that holds a statement makes one, in order, and each but the last ends with its last token |
| `Statements.RefusalIsFirst` | parser/parser.go:107-144 | a refusal is for the first match in the row that fails, takes nothing, has another shape or is refused by its transformer |
| `Statements.ConsumedEndIs` | parser/parser.go:162-173 | the end of the last consumed token that is not the sentinel, within the source, and the source's end when there is none |
| `Statements.SpansChain` | parser/parser.go:107-144 | from any point each span starts where the one before ended and none is inverted |
| `Statements.SpansTile` | parser/parser.go:90-154 | with at least one statement the spans tile the whole source |
| `Statements.SlicesRecoverSource` | parser/parser.go:126-153 | the slices at such spans, joined, are the source |
| `PegSyntax.ParseChoice` | internal/grammar/expression.go:116-134 | what it accepts has the shape of a rule body, and it moves forward |
| `PegSyntax.ExprParser.ReadChoice` | internal/grammar/expression.go:116-134 | the cursor-moving parser gives the specified tree and position |
| `PegSyntax.ExprParser.ReadSequence` | internal/grammar/expression.go:137-151 | the same for sequences |
| `PegSyntax.ExprParser.ReadPostfix` | internal/grammar/expression.go:154-169 | the same for postfix operators |
| `PegSyntax.ExprParser.ReadPrimary` | internal/grammar/expression.go:172-221 | the same for groups, calls and atoms; `!` is dropped |
| `PegSyntax.BuildExpression` | internal/grammar/expression.go:94-104 | the whole token list is one choice |
| `PegNotation.BuildIff` | internal/grammar/expression.go:87-221 | a token list is accepted exactly when it is a rule body as written, with `?`, `*` and `+` behind, `/` between, parentheses, calls and ignored `!`, and gives the one expression that stands for |
| `PegPrinter.PrintedReadsBack` | internal/grammar/expression.go:47-104 | every tree the parser builds, printed and parsed, is itself up to groups that do not show |
| `PegPrinter.ExactWhenGroupsShow` | internal/grammar/expression.go:47-85 | the round trip is exact for precisely the trees whose every group shows |
| `PegPrinter.PrintingIsStable` | internal/grammar/expression.go:47-85 | printing what was read back gives the same tokens |
| `PegText.GrammarLoader.ParseRules` | internal/grammar/parser.go:133-302 | the character machine loads the rules of the specification, or refuses with it |
| `PegText.GrammarLoader.CompleteRule` | internal/grammar/parser.go:304-315 | a finished rule is built and added; a second one of the name is refused |
| `PegText.GrammarLoader.ReadHead` | internal/grammar/parser.go:167-209 | rule names, parameters and arrows |
| `PegText.GrammarLoader.ReadToken` | internal/grammar/parser.go:210-287 | literals, names, calls, classes and operators with the bracket count |
| `PegLayout.LaidGrammarLoads` | internal/grammar/parser.go:133-302 | a grammar laid out with any spaces, line ends and comments loads as its rules in order; a line end completes a rule unless a bracket is open or an alternative is due |
| `PegLayout.LaidRuleLoads` | internal/grammar/parser.go:133-315 | one rule, wherever it stands: its name, its parameter and the expression of its tokens, or a refusal when they make none or the name is taken |
| `PegLayout.PieceIsToken` | internal/grammar/parser.go:210-287 | there are no other tokens: what is read in a definition is a spelled literal, word, call, class or operator, or a class that the end of the text leaves open |
| `PegRoundTrip.Builder.Write` | internal/grammar/expression.go:53-85 | the builder gets exactly the expression's text |
| `PegRoundTrip.TextScans` | internal/grammar/parser.go:210-288 | scanning a printed expression gives its tokens, whatever comes before or after |
| `PegRules.RuleReadsBack` | internal/grammar/parser.go:133-315 | a printed rule anywhere in a grammar text loads as one rule more |
| `PegRules.GrammarReadsBack` | internal/grammar/parser.go:79-85 | a printed grammar loads as its rules, in order |
| `PegLosses.LoadedReloadsIff` | internal/grammar/parser.go:79-85 | of every grammar text that loads: the rules printed load as the same rules exactly when none prints as nothing and every character class is closed |
| `PegLosses.EmptyRule` | internal/grammar/parser.go:290-300 | a rule that prints as nothing, and is lost |
| `PegLosses.OpenRule` | internal/grammar/parser.go:248-269 | a class the text ends inside, and is lost |
| `PegOpenEnds.BuiltEnds` | internal/grammar/expression.go:94-221 | a token list whose last class is open builds a tree that is open at its very end and nowhere else |
| `PegOpenEnds.OpenScans` | internal/grammar/parser.go:248-269 | printed and read again, such a tree takes the rest of the text along: its tokens hold more text than it did |
| `PegWeights.BuiltWeighs` | internal/grammar/expression.go:94-221 | a tree holds exactly the text of the tokens it was built from |
| `PegReload.TextIsStable` | internal/grammar/expression.go:47-85 | printing is idempotent |
| `PegReload.NormalIsStable` | internal/grammar/expression.go:47-104 | the second round trip changes nothing |
| `Numbers.Mul64RightIff` | parser/transform_single.go:486-493 | low word and carry are the product, for every word, exactly when the factor is at most 2^32 |
| `Numbers.NegateHugeint` | parser/transform_expr.go:1116-1124 | the negated value, except for the smallest, which stays |
| `Numbers.TakeUnsigned` | parser/transform_single.go:464-482 | one more digit, refused exactly when the value reaches 2^128 |
| `Numbers.ParseUint128` | parser/transform_single.go:455-484 | accepts exactly the digit strings below 2^128, with their value |
| `Numbers.TakeSigned` | parser/transform_single.go:425-441 | one more digit modulo 2^128, refused exactly when the carry test trips |
| `Numbers.ParseHugeint` | parser/transform_single.go:410-453 | accepts by the tests it makes and gives the signed value modulo 2^128 |
| `Numbers.HugeintExactBelow128` | parser/transform_single.go:410-453 | on magnitudes below 2^128: accepted exactly when below 2^127, and exact |
| `Numbers.HugeintRightIff` | parser/transform_single.go:410-453 | on every text: right unless the magnitude reaches 2^128 unseen and wraps into range |
| `Numbers.OverflowsMissed` | parser/transform_single.go:430-433 | a whole range of magnitudes past 2^128 is accepted with a wrong value |
| `Numbers.FourE38IsMisread` | parser/transform_single.go:430-433 | the concrete case |
| `Numbers.HugeintStringReadsBack` | parser/transform_expr.go:1041-1046 | rendering and parsing is the identity on all 128-bit integers but the smallest |
| `NumberLiterals.NumberValue` | parser/transform_single.go:316-349 | every text, malformed ones included, gets the constant, or the refusal, of the specification |
| `NumberLiterals.IntegerIsClassified` | parser/transform_single.go:322-349 | an integer text gets the narrowest class with the exact value, a float past the classes, and a wrong HUGEINT exactly where parseHugeint is wrong |
| `NumberLiterals.DecimalRefusedIff` | parser/transform_single.go:375-407 | a text with a point and at most 38 digits has no value exactly when its digits are no integer text |
| `NumberLiterals.SecondPointIsRefused` | parser/transform_single.go:375-407 | a number token of at most 38 digits with a point is refused exactly when it has a second one |
| `NumberLiterals.TwoPointsAreRefused` | parser/transform_single.go:375-407 | so are digits, a point, digits, a point and digits, such as 2.03.0 |
| `NumberLiterals.DecimalValue` | parser/transform_single.go:375-407 | the DECIMAL, the float or the refusal of the specification, for every text |
| `NumberLiterals.DecimalIsExact` | parser/transform_single.go:375-407 | of sign, digits, point and digits: a DECIMAL of that width, scale and exact value up to 38 digits, a float above |
| `NumberLiterals.UnscaledIsExact` | parser/transform_single.go:386-399 | the digits left after the leading zeros denote the value without its point |
| `DecimalText.DecimalValueString` | parser/transform_expr.go:1051-1064 | digits padded and the point put in |
| `DecimalText.RenderedDecimalReads` | parser/transform_expr.go:1051-1064 | a rendered decimal with a place behind the point has the value and scale it was made from |
| `ValueText.ValueString` | parser/transform_expr.go:1011-1038 | the text of a constant of every class |
| `ValueText.RenderedDecimalDenotes` | parser/transform_expr.go:1011-1064 | what the rendering of any value at any scale denotes: an integer at scale 0, a DECIMAL of the digits shown up to 38, a float above |
| `ValueText.DecimalRoundTrips` | parser/transform_expr.go:1011-1064 | over every value and scale, a DECIMAL exactly when the scale is between 1 and 37 and the value has at most 38 digits |
| `ValueText.DecimalConstantRoundTripsIff` | parser/transform_expr.go:1011-1064 | the same DECIMAL exactly when it has a place behind the point and its width is the digits shown |
| `ValueText.FivePoint` | parser/transform_single.go:375-407 | 5. is a DECIMAL, is rendered 5, and 5 is an INTEGER |
| `ValueText.AllBehindThePoint` | parser/transform_single.go:375-407 | thirty-eight digits behind the point are a DECIMAL whose rendering is a float |
| `ValueText.IntegerRoundTripsIff` | parser/transform_expr.go:1011-1046 | over the four integer classes: rendered and read, the same constant exactly when it is no UHUGEINT |
| `ValueText.UhugeintRendersNegative` | parser/transform_expr.go:1041-1046 | every UHUGEINT n is rendered as the negative of 2^128 - n |
| `ValueText.LargestRendersMinusOne` | parser/transform_expr.go:1041-1046 | the largest as -1 |
| `GroupingSets.NormalizeSet` | parser/transform_select.go:488-499 | strictly increasing, the same elements |
| `GroupingSets.OneListing` | parser/transform_select.go:488-499 | a set has one such listing |
| `GroupingSets.MergeSet` | parser/transform_select.go:484-486 | the union |
| `GroupingSets.Append` | parser/transform_select.go:598-623 | in place when the array has room, else a copy with any room to spare; no earlier element changes |
| `GroupingSets.CubeWalker.Walk` | parser/transform_select.go:614-620 | siblings share arrays and still every set comes out as if each call had its own |
| `GroupingSets.CubeSets` | parser/transform_select.go:610-623 | the walk's list, whatever room each grown slice gets |
| `GroupingSets.ChoicesComplete` | parser/transform_select.go:610-623 | 2^n choices, each once, in depth-first pre-order, all and only the subsets |
| `GroupingSets.WalkIsEveryChoice` | parser/transform_select.go:610-623 | the walk lists the union of every choice in that order |
| `GroupingSets.RollupSets` | parser/transform_select.go:598-608 | the n + 1 prefixes |
| `GroupBy.SelectNode.AddGroupExpression` | parser/transform_select.go:533-545 | an equal expression keeps its index, a new one goes to the end; no duplicates |
| `GroupBy.SelectNode.GroupByUnit` | parser/transform_select.go:518-531 | the set of indexes names exactly the unit's expressions |
| `GroupBy.SelectNode.TransformEntry` | parser/transform_select.go:547-589 | the sets an entry means, in order, over a group list grown by its expressions, or its error |
| `GroupBy.SelectNode.CrossEntries` | parser/transform_select.go:457-472 | the cross product of the entries' meanings, with the cap checked entry by entry |
| `GroupBy.SelectNode.TransformGroupBy` | parser/transform_select.go:443-473 | force aggregates for ALL and a lone star; else the list is accepted exactly when every CUBE and ROLLUP has elements and all counts stay in the cap, and the grouping sets name those of the entry, or of several one set for every pick of one of each |
| `GroupBy.CheckCubes` | parser/transform_select.go:569-575 | within the cap exactly when 2^n is |
| `GroupMeaning.CrossHoldsEveryPick` | parser/transform_select.go:457-471 | every union of one set per entry is in the result, at its place in lexicographic order |
| `GroupMeaning.CrossHoldsOnlyPicks` | parser/transform_select.go:457-471 | and nothing else is |
| `GroupMeaning.CrossStaysBelowCap` | parser/transform_select.go:475-482 | never more than 65535 sets |
| `GroupMeaning.CubeGiven` | parser/transform_select.go:569-577 | CUBE: 2^n sets, in depth-first pre-order, each the names of some choice of elements and each choice there |
| `GroupMeaning.RollupGiven` | parser/transform_select.go:578-580 | ROLLUP: the names of the first k elements, for k from none to all |
| `GroupMeaning.MeaningIsGiven` | parser/transform_select.go:547-589 | an entry is taken exactly when its CUBEs and ROLLUPs have elements and its CUBEs fit, with exactly its sets; those of GROUPING SETS one list after another |
| `GroupMeaning.CrossGroups` | parser/transform_select.go:457-472 | which lists of entries are taken, and that their sets are one for every pick |
| `GroupBy.AddingKeeps` | parser/transform_select.go:533-545 | the group list keeps what it had in front, gains exactly what is named, and has nothing twice |
| `GroupBy.CubeLists` | parser/transform_select.go:569-577 | CUBE's index sets name the union of every choice of units |
| `Relations.UnionGrows` | parser/transform_select.go:225-234 | a union of all inputs at once is the union of the earlier ones with the last, by position and by name, with and without ALL |
| `Relations.DistinctThroughMap` | parser/transform_select.go:219-234 | duplicates may go before or after rows are realigned by name |
| `Relations.UnionIs` | parser/transform_select.go:207-238 | UNION of two: the first's columns, with ALL the rows of both one after the other, else each row of either once |
| `Relations.UnionByNameIs` | parser/transform_select.go:219-224 | BY NAME: every name once, the first's in front, and every row's value under its own names, NULL under the others |
| `Relations.ExceptIs` | parser/transform_select.go:207-238 | EXCEPT: with ALL as often as the first has a row more than the second, else once if only the first has it |
| `Relations.IntersectIs` | parser/transform_select.go:240-257 | INTERSECT: with ALL as often as both have a row, else once if both have it |
| `Queries.BuiltMeans` | parser/transform_select.go:207-238 | one set operation, flattened or not, has the rows of its clause as written: EXCEPT, or else UNION by position or by name |
| `Queries.BuiltInRows` | parser/transform_select.go:207-238 | in rows: EXCEPT takes the right's from the left's, UNION adds them, with ALL one for one and else no row twice |
| `Queries.IntersectedInRows` | parser/transform_select.go:240-257 | the same of INTERSECT |
| `Queries.RefusedIff` | parser/transform_select.go:219-224 | a statement is refused exactly when an EXCEPT anywhere in it is BY NAME |
| `Queries.AttachedMeansIff` | parser/transform_select.go:34-49 | merging a statement's CTEs and modifiers into a node keeps order and scope, under every reading of selects and modifiers in their CTEs, exactly when it attaches no modifier or the node has no CTEs of its own |
| `Queries.FlatMeans` | parser/transform_select.go:193-257 | for every statement whose modifiers, at every depth, come under no CTEs from inside their parentheses: the flattened tree has the rows of the chain read two at a time, each clause as it is written |
| `Queries.FlatIsWellBuilt` | parser/transform_select.go:193-257 | of every statement, whatever its parentheses: no union in the tree built has a first input it would have flattened |
| `Queries.FlatMeansIff` | parser/transform_select.go:28-49 | of a statement that is so below its top: the tree means what was written, under every reading, exactly when it is so at the top |
| `Queries.AllAsWrittenIff` | parser/transform_select.go:28-49 | a statement and every statement in parentheses in it mean what was written, under every reading, exactly when no modifier in it comes under CTEs from inside its parentheses |
| `Queries.LimitIsCaptured` | parser/transform_select.go:34-49 | a LIMIT whose subquery names a CTE that the parentheses define anew |
| `RecursiveCtes.SplitKeepsUnion` | parser/transform_select.go:111-147 | left part union right part is the union that was split |
| `RecursiveCtes.SplitIff` | parser/transform_select.go:111-126 | a union of two or more is split exactly when every modifier on it is a percentage limit; else the first other one decides the message |
| `RecursiveCtes.SplitKeepsUnionIff` | parser/transform_select.go:111-147 | under every reading, exactly when no modifier survived on it |
| `RecursiveCtes.StatementSplitIff` | parser/transform_select.go:111-147 | of every statement whose tree is split: the two parts reunite to it, under every reading, exactly when no modifier survived on it |
| `RecursiveCtes.SqlSplitIff` | parser/transform_select.go:111-147 | of two inputs, or without ALL, EXCEPT and INTERSECT being what they are: the parts reunite, whatever selects and modifiers mean, exactly when no modifier survived |
| `RecursiveCtes.EmptyLastSplits` | parser/transform_select.go:140-145 | a union of three with ALL whose last input is empty: a modifier survived and still the parts reunite |
| `RecursiveCtes.PercentLimitIsMisplaced` | parser/transform_select.go:111-147 | a union of three keeps a LIMIT 10% on its left part, a union of two loses it, and neither split keeps the union |
| `SetOps.QueryNode.AddInput` | parser/transform_select.go:227-233 | appending an input in place changes nothing else of the tree |
| `SetOps.BuildSetOp` | parser/transform_select.go:207-238 | the left node grown in place, or a new node, is the specified tree, whose rows are those of the clause as written (`Queries.BuiltMeans`); BY NAME with EXCEPT is refused |
| `SetOps.TransformStatement` | parser/transform_select.go:34-49 | the tree of a whole statement, or none |
| `SetOps.TransformChain` | parser/transform_select.go:195-205 | the tree of a chain of UNION and EXCEPT |
| `SetOps.TransformIntersects` | parser/transform_select.go:240-257 | the tree of a chain of INTERSECT |
| `SetOps.ToRecursive` | parser/transform_select.go:111-147 | the union node itself becomes the left part, its CTEs move, or the modifier is refused |
| `AnyAll.NegatedAnyIsAll` | parser/transform_expr.go:617-626 | NOT ANY with the negated comparison is ALL, NULLs included |
| `AnyAll.RegexEvaluates` | parser/transform_expr.go:780-843 | for every left side, list and environment: the disjunction or conjunction, in three-valued logic, of the matches as the lambda sees them |
| `AnyAll.RegexMeans` | parser/transform_expr.go:780-843 | the matches of the left side's own value, whenever it does not mention the lambda's name |
| `AnyAll.AnyAllMeans` | parser/transform_expr.go:637-645 | `<`, `>`, `<=` and `>=` are accepted with ANY and ALL, and mean the disjunction or conjunction, in three-valued logic, of less, greater, less or equal and greater or equal over the elements |
| `AnyAll.EqualityMeans` | parser/transform_expr.go:632-636 | `=` and `==`, `!=` and `<>`: the same of equality and of difference |
| `AnyAll.MatchesMean` | parser/transform_expr.go:733-739 | `~`, `~*`, `!~` and `!~*` over a list: the same of matching, in any case or not, negated or not, as long as the left side does not use the lambda's name |
| `AnyAll.AcceptedIff` | parser/transform_expr.go:724-751 | over a query exactly the comparisons are accepted, over anything else the four regular-expression operators too; and which error the others give |
| `AnyAll.CapturedName` | parser/transform_expr.go:803-815 | a column of the lambda's name is captured: over every list, whatever it holds, each pattern is matched against itself |
| `AnyAll.ColumnIsRightIff` | parser/transform_expr.go:803-815 | a bare column is matched rightly, under every row, list and quantifier, exactly when it has another name |
| `SqlExpressions.Unmentioned` | parser/transform_expr.go:803-815 | an expression does not depend on a name it does not mention |
| `SqlExpressions.ByOperand` | parser/transform_expr.go:168-193 | AND and OR one operand at a time are the three-valued truth tables |
| `Conjunctions.TransformOrs` | parser/transform_expr.go:172-193 | the loop over an OR chain builds the spliced conjunction |
| `Conjunctions.TransformAnds` | parser/transform_expr.go:176-193 | the same for AND |
| `Conjunctions.SplicedAllMeans` | parser/transform_expr.go:195-202 | splicing keeps the three-valued value |
| `Conjunctions.FlatOrsMean` | parser/transform_expr.go:168-229 | under every assignment the flat condition has the value of the nested one |
| `Conjunctions.FlatOrsFlat` | parser/transform_expr.go:168-229 | every conjunction has at least two operands and none of its own kind |
| `Conjunctions.FlatOrsInOrder` | parser/transform_expr.go:168-229 | however deep the parentheses: the parts are those written, none dropped, in their order |
| `Corpus.Write` | internal/testfile/testfile.go:178-206 | the text is the file's lines |
| `Corpus.Read` | internal/testfile/testfile.go:84-176 | the scanner loop with its flush gives the specified file, or refuses with it |
| `Corpus.CorpusReader.TakeLine` | internal/testfile/testfile.go:132-168 | one line: header, separator, statement or expectation |
| `Corpus.CorpusReader.Flush` | internal/testfile/testfile.go:102-129 | a finished case is added, or the file refused |
| `CorpusShape.ReadIff` | internal/testfile/testfile.go:84-176 | lines are read as a file exactly when they have its shape: header lines, then cases of statement, separator, verdict and remarks, with blank lines and separators between; verdicts and header are what they say |
| `CorpusShape.WrittenInFull` | internal/testfile/testfile.go:178-206 | a file in full, byte for byte |
| `CorpusRoundTrip.CanStore` | internal/testfile/testfile.go:68-82 | the loop decides the predicate |
| `CorpusRoundTrip.WrittenReadsBack` | internal/testfile/testfile.go:61-206 | every file of storable single-line parts comes back: cases, verdicts, header |
| `CorpusRoundTrip.RoundTripsIff` | internal/testfile/testfile.go:61-206 | which statements survive by themselves, exactly |
| `CorpusRoundTrip.CanStoreIsRightIff` | internal/testfile/testfile.go:61-82 | when CanStore tells the truth |
| `CorpusRoundTrip.WindowsLineEndsAreLost` | internal/testfile/testfile.go:61-82 | a whole family it takes and that does not survive |
| `Parameters.RenderItoa` | ast/expr.go:117-137 | the buffer filled from the right is the decimal rendering, and a bare sign for the smallest integer |
| `Parameters.ItoaInjective` | ast/expr.go:117-137 | no two numbers render alike |
| `Parameters.ItoaReads` | ast/expr.go:117-137 | the text of a number, but for the smallest, is its sign and the digits of its value without leading zeros |
| `Parameters.TransformContext.RegisterParam` | parser/transform.go:143-171 | number, counter, record and order after a registration |
| `Parameters.OrderIsFirstUse` | parser/transform.go:143-171 | the order lists exactly the identifiers used, each once and each before those used only later, after any registrations |
| `Parameters.AllRecordedIff` | parser/transform.go:143-171 | over every run: each parameter's number is the one recorded for its identifier exactly when no name is the numeral of a later positional parameter with another number |
| `Parameters.SameIdentifierSameNumber` | parser/transform.go:163-170 | and exactly when parameters of one identifier have one number |
| `Parameters.CountIsLargestIff` | parser/transform.go:143-162 | the counter is always the largest number given exactly when no fresh parameter finds it at its end |
| `Parameters.FreshIsLargerIff` | parser/transform.go:143-162 | each `?` and each new name gets a number above all before it under exactly the same condition |
| `Parameters.FreshIsNext` | parser/transform.go:143-162 | and it is the next one: the number just below it, unless that is zero, was given before |
| `Parameters.GivenNumbers` | parser/transform.go:143-162 | an explicit parameter has its own number, and a name used again the number of an earlier use |
| `Parameters.NumeralNameClashes` | parser/transform.go:152-170 | $2 after a parameter named "2" is recorded with another number |
| `Parameters.CounterWraps` | parser/transform.go:145-148 | ? after the largest explicit number gets the smallest |
| `Utf8.Analyze` | parser/utf8.go:22-55 | valid, or the start of the first bad sequence after a valid prefix and which way it is bad |
| `Utf8.ErrorsAreRight` | parser/utf8.go:22-55 | the verdict is valid exactly when the bytes split into accepted characters |
| `Utf8.VerdictIsUnique` | parser/utf8.go:22-55 | and a text has only one verdict, so the offset is the first bad place |
| `Utf8.AcceptedIff` | parser/utf8.go:17-50 | accepted characters are those of section 4 of RFC 3629 and the overlong forms of scalar values |
| `Utf8.EncodingRoundTrips` | parser/utf8.go:33-50 | decoding the standard encoding of a scalar value gives it back |
| `Utf8.DecodingRoundTrips` | parser/utf8.go:33-50 | and encoding a decoded standard character |

## Left out

- Grammars on which matching does not end: left recursion or a repeated expression that matches nothing. The code has no guard, and the model speaks only of ranked grammars.
- Case folding of non-ASCII letters in literals and rule names; `Lower` is ASCII.
- Negative start positions of a match, which no caller passes.
- A token that is a lone quote: `isSingleQuoted` would index past it, and the tokenizer never makes one.
- The contents of the vendored grammar, keyword and memo lists; they are parameters, the override table with distinct rule names.
- The compiler's checks that a call or a postfix expression has one child, which the expression type here rules out, and the exact wording of most grammar errors.
- The float parser, `strconv.ParseInt` beyond its range check, and regular expressions, which are parameters.
- `GroupBy.SelectNode.TransformGroupBy`: expressions stand for themselves by fingerprint, and a lone entry is not transformed twice as `peekBareStar` does; that only moves parameter numbers.
- `GroupingSets.NormalizeSet`: sorts a value, where the code sorts a slice in place that nobody else holds.
- Case folding of column names: a row's columns are looked up by exact name, so a column that spells the lambda's name in capitals is not seen as captured.
- Column types, arity errors and the engine under a SELECT. A relation's rows are a list: EXCEPT and INTERSECT keep the order of the left side, which SQL leaves open.
- The iteration of a recursive CTE; only the split of its union is modelled.
- Lines longer than the corpus scanner's 8 MB buffer, and file access.
- Content hashes and metadata sidecars of corpus files.
- Spans on rewritten expressions and query nodes.
- The DDL, DML, COPY and utility transformers, JSON rendering, dumping, child traversal and the command-line tools: long field-by-field mappings.
- Depth limits, window frames, sequence and MERGE checks.
- Cancellation of a parse by its context.
- Concurrency: an engine is built once and only read afterwards.
