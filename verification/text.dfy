/** Strings as JavaScript holds them: sequences of UTF-16 code units. */
module Text {
  type CodeUnit = n: int | 0 <= n < 0x10000

  type Str = seq<CodeUnit>

  const NUL: CodeUnit := 0
  const NEWLINE: CodeUnit := 10
  const RETURN: CodeUnit := 13
  const LINE_SEPARATOR: CodeUnit := 0x2028
  const PARAGRAPH_SEPARATOR: CodeUnit := 0x2029
  const DOLLAR: CodeUnit := '$' as int
  const OPEN: CodeUnit := '(' as int
  const CLOSE: CodeUnit := ')' as int
  const STAR: CodeUnit := '*' as int
  const PLUS: CodeUnit := '+' as int
  const COMMA: CodeUnit := ',' as int
  const DOT: CodeUnit := '.' as int
  const SLASH: CodeUnit := '/' as int
  const QUESTION: CodeUnit := '?' as int
  const OPEN_CLASS: CodeUnit := '[' as int
  const BACKSLASH: CodeUnit := '\\' as int
  const CLOSE_CLASS: CodeUnit := ']' as int
  const CARET: CodeUnit := '^' as int
  const OPEN_BRACE: CodeUnit := '{' as int
  const BAR: CodeUnit := '|' as int
  const CLOSE_BRACE: CodeUnit := '}' as int

  predicate IsDigit(c: CodeUnit) {
    '0' as int <= c <= '9' as int
  }

  /** What `.` does not match in a regular expression without the s flag. */
  predicate IsLineTerminator(c: CodeUnit) {
    c == NEWLINE || c == RETURN || c == LINE_SEPARATOR || c == PARAGRAPH_SEPARATOR
  }

  predicate OneLine(s: Str) {
    forall c :: c in s ==> !IsLineTerminator(c)
  }
}
