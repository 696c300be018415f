/** What the tokenizer recognizes: byte classes and, for each kind of lexeme, where it ends
    (lexer/lexer.go). */
module LexRules {
  import opened Tokens
  import opened ByteClasses

  /** The three bytes at i are a, b, c. */
  predicate Bytes3(s: string, i: nat, a: int, b: int, c: int)
    requires i <= |s|
  {
    i + 2 < |s| && s[i] as int == a && s[i + 1] as int == b && s[i + 2] as int == c
  }

  /** unicodeSpaceLen: the byte length of the Unicode space at i, 0 when there is none. */
  function UnicodeSpaceLen(s: string, i: nat): (r: nat)
    requires i < |s|
    ensures r > 0 ==> s[i] as int >= 0x80 && i + r <= |s|
  {
    if s[i] as int < 0x80 then 0
    else if i + 1 < |s| && s[i] as int == 0xC2 && s[i + 1] as int in {0x85, 0xA0} then 2
    else if Bytes3(s, i, 0xE1, 0x9A, 0x80)
         || (i + 2 < |s| && s[i] as int == 0xE2 && s[i + 1] as int == 0x80
             && (0x80 <= s[i + 2] as int <= 0x8A || s[i + 2] as int in {0xA8, 0xA9, 0xAF}))
         || Bytes3(s, i, 0xE2, 0x81, 0x9F) || Bytes3(s, i, 0xE3, 0x80, 0x80) then 3
    else 0
  }

  predicate IsDollarTagChar(c: char) {
    'A' <= c <= 'Z' || 'a' <= c <= 'z' || IsDigit(c) || c == '_' || c as int >= 0x80
  }

  predicate CompoundColon(s: string, i: nat)
    requires i <= |s|
  {
    i + 1 < |s| && s[i] == ':' && (s[i + 1] == ':' || s[i + 1] == '=')
  }

  predicate StartsLineComment(s: string, i: nat)
    requires i <= |s|
  {
    i + 1 < |s| && s[i] == '-' && s[i + 1] == '-'
  }

  predicate StartsBlockComment(s: string, i: nat)
    requires i <= |s|
  {
    i + 1 < |s| && s[i] == '/' && s[i + 1] == '*'
  }

  // ----- where each lexeme ends; i is a position inside it -----

  /** Just past the closing quote of a string literal, None when there is no closing quote. */
  function StringEnd(s: string, i: nat, escape: bool): (r: Option<nat>)
    requires i <= |s|
    ensures r.Some? ==> i < r.value <= |s|
    decreases |s| - i
  {
    if i == |s| then None
    else if escape && s[i] == '\\' && i + 1 < |s| then StringEnd(s, i + 2, escape)
    else if s[i] == '\'' then
      if i + 1 < |s| && s[i + 1] == '\'' then StringEnd(s, i + 2, escape) else Some(i + 1)
    else StringEnd(s, i + 1, escape)
  }

  function QuotedEnd(s: string, i: nat, delimiter: char): (r: Option<nat>)
    requires i <= |s|
    ensures r.Some? ==> i < r.value <= |s|
    decreases |s| - i
  {
    if i == |s| then None
    else if s[i] == delimiter then
      if i + 1 < |s| && s[i + 1] == delimiter then QuotedEnd(s, i + 2, delimiter) else Some(i + 1)
    else QuotedEnd(s, i + 1, delimiter)
  }

  /** Just past the newline that ends a line comment, or the end of the source. */
  function LineCommentEnd(s: string, i: nat): (r: nat)
    requires i <= |s|
    ensures i <= r <= |s|
    decreases |s| - i
  {
    if i == |s| then i
    else if s[i] == '\n' || s[i] == '\r' then i + 1
    else LineCommentEnd(s, i + 1)
  }

  /** Just past the end of a block comment nested `depth` deep. */
  function BlockCommentEnd(s: string, i: nat, depth: nat): (r: Option<nat>)
    requires i <= |s| && depth > 0
    ensures r.Some? ==> i + 2 <= r.value <= |s|
    decreases |s| - i
  {
    if i == |s| then None
    else if StartsBlockComment(s, i) then BlockCommentEnd(s, i + 2, depth + 1)
    else if s[i] == '*' && i + 1 < |s| && s[i + 1] == '/' then
      if depth == 1 then Some(i + 2) else BlockCommentEnd(s, i + 2, depth - 1)
    else BlockCommentEnd(s, i + 1, depth)
  }

  /** First '$' at or after i, |s| when there is none. */
  function NextDollar(s: string, i: nat): (r: nat)
    requires i <= |s|
    ensures i <= r <= |s|
    ensures forall k :: i <= k < r ==> s[k] != '$'
    ensures r < |s| ==> s[r] == '$'
    decreases |s| - i
  {
    if i == |s| || s[i] == '$' then i else NextDollar(s, i + 1)
  }

  /** The '$' that closes an opening marker whose tag starts at i; None when the tag breaks off. */
  function MarkerEnd(s: string, i: nat): (r: Option<nat>)
    requires i <= |s|
    ensures r.Some? ==> i <= r.value < |s| && s[r.value] == '$'
    ensures r.Some? ==> forall k :: i <= k < r.value ==> IsDollarTagChar(s[k])
    decreases |s| - i
  {
    if i == |s| then None
    else if s[i] == '$' then Some(i)
    else if IsDollarTagChar(s[i]) then MarkerEnd(s, i + 1)
    else None
  }

  /** The closing marker $tag$ starts at i. */
  predicate ClosesDollar(s: string, i: nat, tag: string)
    requires i <= |s|
  {
    i + 1 < |s| && s[i] == '$' &&
    var end := NextDollar(s, i + 1);
    end < |s| && end - (i + 1) == |tag| && s[i + 1..end] == tag
  }

  /** Just past the closing marker of a dollar-quoted string. */
  function DollarStringEnd(s: string, i: nat, tag: string): (r: Option<nat>)
    requires i <= |s|
    ensures r.Some? ==> i < r.value <= |s|
    decreases |s| - i
  {
    if i == |s| then None
    else if ClosesDollar(s, i, tag) then Some(i + |tag| + 2)
    else DollarStringEnd(s, i + 1, tag)
  }

  /** Whether the byte at i may extend the number that starts at `start`. */
  predicate NumberContinues(s: string, start: nat, i: nat)
    requires start < i < |s|
  {
    IsInitialNumber(s[i])
    || (s[i] == '_' && IsDigit(s[i - 1]) && i + 1 < |s| && IsDigit(s[i + 1]))
    || (IsScientific(s[i]) && !IsScientific(s[i - 1]) && (IsDigit(s[start]) || IsDigit(s[i - 1])))
    || ((s[i] == '+' || s[i] == '-') && IsScientific(s[i - 1]))
  }

  function NumberStop(s: string, start: nat, i: nat): (r: nat)
    requires start < i <= |s|
    ensures i <= r <= |s|
    decreases |s| - i
  {
    if i == |s| || !NumberContinues(s, start, i) then i else NumberStop(s, start, i + 1)
  }

  /** Backtracking: the end of the longest prefix that ends in a digit or a dot. */
  function NumberEnd(s: string, start: nat, i: nat): (r: nat)
    requires start < i <= |s| && IsInitialNumber(s[start])
    ensures start < r <= i && IsInitialNumber(s[r - 1])
    decreases i
  {
    if IsInitialNumber(s[i - 1]) then i else NumberEnd(s, start, i - 1)
  }

  predicate OperatorStops(s: string, i: nat)
    requires i < |s|
  {
    StartsLineComment(s, i) || StartsBlockComment(s, i) || !IsOperatorCont(s[i])
  }

  function OperatorStop(s: string, i: nat): (r: nat)
    requires i <= |s|
    ensures i <= r <= |s|
    decreases |s| - i
  {
    if i == |s| || OperatorStops(s, i) then i else OperatorStop(s, i + 1)
  }

  predicate KeywordStops(s: string, i: nat)
    requires i < |s|
  {
    (s[i] != '$' && !IsKeywordChar(s[i])) || UnicodeSpaceLen(s, i) > 0
  }

  function KeywordStop(s: string, i: nat): (r: nat)
    requires i <= |s|
    ensures i <= r <= |s|
    ensures forall k :: i <= k < r ==> !KeywordStops(s, k)
    ensures r < |s| ==> KeywordStops(s, r)
    decreases |s| - i
  {
    if i == |s| || KeywordStops(s, i) then i else KeywordStop(s, i + 1)
  }

  predicate IsSpecialOperatorChar(c: char) {
    c == '~' || c == '!' || c == '@' || c == '#' || c == '%' || c == '^' || c == '&' || c == '|' || c == '`' || c == '?'
  }

  predicate HasSpecial(s: string, start: nat, end: nat)
    requires start <= end <= |s|
  {
    exists k :: start <= k < end && IsSpecialOperatorChar(s[k])
  }

  /** Trailing '+' and '-' given back, at least one byte kept. */
  function TrimSigns(s: string, start: nat, end: nat): (r: nat)
    requires start < end <= |s|
    ensures start < r <= end
    ensures forall k :: r <= k < end ==> s[k] == '+' || s[k] == '-'
    decreases end
  {
    if end > start + 1 && (s[end - 1] == '+' || s[end - 1] == '-') then TrimSigns(s, start, end - 1) else end
  }

  /** The PostgreSQL rule: an operator ends in '+' or '-' only when it has a special byte. */
  function OperatorEnd(s: string, start: nat, end: nat): (r: nat)
    requires start < end <= |s|
    ensures start < r <= end
    ensures forall k :: r <= k < end ==> s[k] == '+' || s[k] == '-'
  {
    if HasSpecial(s, start, end) then end else TrimSigns(s, start, end)
  }
}
