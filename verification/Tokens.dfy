/** The token model shared by the tokenizer, the matcher and the statement loop
    (token/token.go, token/keywords.go).  A Go byte string is a `string` here, one
    character per byte. */
module Tokens {

  datatype Option<+T> = None | Some(value: T)

  datatype Kind =
    | Keyword
    | StringLit
    | Number
    | Operator
    | Identifier
    | Comment
    | Terminator
    | EndOfInput

  /** A half-open byte range [start, end) of the source. */
  datatype Span = Span(start: int, end: int)

  datatype Token = Token(
    kind: Kind,
    text: string,
    span: Span,
    unterminated: bool,
    precededByNewline: bool,
    precededByBlockComment: bool)

  datatype Category = Reserved | Unreserved | ColumnName | FuncName | TypeName | BareLabel

  /** The keyword lists: lower-cased word to its categories. */
  type Lexicon = map<string, set<Category>>

  function Lower(s: string): (r: string)
    ensures |r| == |s|
    ensures forall i :: 0 <= i < |s| ==> r[i] == LowerChar(s[i])
  {
    seq(|s|, i requires 0 <= i < |s| => LowerChar(s[i]))
  }

  /** ASCII lower-casing of one byte. */
  function LowerChar(c: char): char {
    if 'A' <= c <= 'Z' then (c as int + 32) as char else c
  }

  function Categories(lexicon: Lexicon, word: string): set<Category> {
    if Lower(word) in lexicon then lexicon[Lower(word)] else {}
  }

  predicate IsKeyword(lexicon: Lexicon, word: string) {
    Categories(lexicon, word) != {}
  }

  function Max(a: int, b: int): int {
    if a < b then b else a
  }

  /** strings.ReplaceAll(s, qq, q): every doubled `q`, scanned left to right, becomes one. */
  function Undouble(s: string, q: char): string {
    if |s| < 2 then s
    else if s[0] == q && s[1] == q then [q] + Undouble(s[2..], q)
    else [s[0]] + Undouble(s[1..], q)
  }

  /** strings.ReplaceAll(s, q, qq): every `q` is written twice. */
  function Double(s: string, q: char): string {
    if s == [] then [] else (if s[0] == q then [q, q] else [s[0]]) + Double(s[1..], q)
  }
}
