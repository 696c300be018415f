/** The generic parse tree the matchers build (internal/matcher/result.go). */
module ParseTree {
  import opened Tokens

  /** resultBase: rule name and source location of a node. */
  datatype Base = Base(name: string, offset: Option<int>, length: Option<int>)

  datatype StringKind = Standard | National | Hexadecimal | Escape | Bit

  datatype ParseResult =
    | ListResult(base: Base, children: seq<ParseResult>)
    | RepeatResult(base: Base, children: seq<ParseResult>)
    | OptionalResult(base: Base, inner: Option<ParseResult>)
    | ChoiceResult(base: Base, chosen: ParseResult, index: nat)
    | IdentifierResult(base: Base, identifier: string)
    | KeywordResult(base: Base, keyword: string)
    | NumberResult(base: Base, number: string)
    | StringResult(base: Base, value: string, stringKind: StringKind)
    | OperatorResult(base: Base, operator: string)
    | EndOfInputResult(base: Base)

  const EMPTY_BASE := Base("", None, None)

  function Named(r: ParseResult, rule: Option<string>): ParseResult {
    if rule.Some? then r.(base := r.base.(name := rule.value)) else r
  }

  /** End of the byte range a located node covers (resultBase.Loc). */
  function EndOf(b: Base): int
    requires b.offset.Some?
  {
    b.offset.value + (if b.length.Some? then b.length.value else 0)
  }

  /** resultBase.encloseChild: the node keeps its own offset and grows its length so that
      its range reaches at least the child's end. */
  function Enclose(b: Base, child: Base): (r: Base)
    ensures r.name == b.name && r.offset == b.offset
    ensures b.offset.Some? && child.offset.Some? ==> EndOf(r) == Max(EndOf(b), EndOf(child))
    ensures b.offset.None? || child.offset.None? ==> r == b
  {
    if b.offset.None? || child.offset.None? then b
    else b.(length := Some(Max(EndOf(b), EndOf(child)) - b.offset.value))
  }

  function EncloseAll(b: Base, children: seq<ParseResult>): Base
    decreases |children|
  {
    if children == [] then b
    else Enclose(EncloseAll(b, children[..|children| - 1]), children[|children| - 1].base)
  }

  /** A composite node's range starts at its own first token and ends at the furthest end of
      its located children (or at its start when none is located further). */
  lemma {:induction false} EncloseAllReaches(b: Base, children: seq<ParseResult>)
    requires b.offset.Some?
    ensures var r := EncloseAll(b, children);
      && r.offset == b.offset && r.name == b.name
      && EndOf(r) >= EndOf(b)
      && (forall i :: 0 <= i < |children| && children[i].base.offset.Some? ==> EndOf(children[i].base) <= EndOf(r))
      && (EndOf(r) == EndOf(b)
          || exists i :: 0 <= i < |children| && children[i].base.offset.Some? && EndOf(children[i].base) == EndOf(r))
    decreases |children|
  {
    if children != [] {
      EncloseAllReaches(b, children[..|children| - 1]);
    }
  }
}
