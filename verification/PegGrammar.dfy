/** Loaded grammars: rules with expression trees (internal/grammar/expression.go,
    internal/grammar/parser.go). */
module PegGrammar {
  import opened Tokens
  import opened SpecialMatchers

  datatype Expr =
    | Literal(text: string)
    | Reference(name: string)
    | Call(name: string, arg: Expr)
    | Sequence(children: seq<Expr>)
    | Choice(children: seq<Expr>)
    | Optional(child: Expr)
    | Repeat(child: Expr)
    | OptionalRepeat(child: Expr)
    | Regex(text: string)

  /** `parameters` lists the macro parameters in position order. */
  datatype Rule = Rule(name: string, parameters: seq<string>, expression: Expr)

  /** Rules keyed by lower-cased name. */
  datatype Grammar = Grammar(rules: map<string, Rule>)

  ghost predicate ValidGrammar(g: Grammar) {
    forall k :: k in g.rules ==> k == Lower(g.rules[k].name)
  }

  predicate HasRule(g: Grammar, name: string) { Lower(name) in g.rules }

  function RuleOf(g: Grammar, name: string): Rule
    requires HasRule(g, name)
  {
    g.rules[Lower(name)]
  }

  /** A rule override: the rule it replaces, the leaf, and the leaf's preset display name. */
  datatype Override = Override(rule: string, leaf: Leaf, preset: string)
}
