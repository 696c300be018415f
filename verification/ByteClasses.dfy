/** Byte classes shared by the tokenizer and the matchers (lexer/lexer.go:66-193,
    internal/matcher/special.go:47-91, 191-197, 391-398). */
module ByteClasses {

  predicate IsSpace(c: char) {
    c == ' ' || c == '\t' || c == '\n' || c == '\U{0b}' || c == '\U{0c}' || c == '\r'
  }

  predicate IsDigit(c: char) { '0' <= c <= '9' }

  predicate IsOperatorAny(c: char) {
    c != '_' && ('!' <= c <= '/' || ':' <= c <= '@' || '[' <= c <= '`' || '{' <= c <= '~')
  }

  predicate IsSingleByteOperator(c: char) {
    c == '(' || c == ')' || c == '{' || c == '}' || c == '[' || c == ']' || c == ',' || c == ':'
    || c == '?' || c == '$' || c == '#'
  }

  predicate IsInitialNumber(c: char) { IsDigit(c) || c == '.' }

  predicate IsScientific(c: char) { c == 'e' || c == 'E' }

  predicate IsControlFlow(c: char) { c == '\'' || c == ';' || c == '"' || c == '.' }

  predicate IsKeywordChar(c: char) {
    !IsSingleByteOperator(c) && !IsOperatorAny(c) && !IsSpace(c) && !IsControlFlow(c)
  }

  /** The PostgreSQL operator characters. */
  predicate IsOperatorCont(c: char) {
    c == '+' || c == '-' || c == '*' || c == '/' || c == '%' || c == '^' || c == '<' || c == '>'
    || c == '=' || c == '~' || c == '!' || c == '@' || c == '&' || c == '|'
  }

  predicate IsIdentifierDelimiter(c: char) { c == '"' || c == '`' }

  predicate IsStringPrefix(c: char) {
    c == 'N' || c == 'n' || c == 'X' || c == 'x' || c == 'E' || c == 'e' || c == 'B' || c == 'b'
  }
}
