/** Tokens produced by the Kite lexer, the lexer's error, and the keyword table. */
module Tokens {

  /** Lexeme categories. `Keyword` stands for the per-keyword kinds that the
      keyword table introduces; `Space` is internal and `Eof` is the sentinel. */
  datatype TokenType =
    | LeftParen | RightParen | LeftBrace | RightBrace | Comma | SemiColon
    | BinaryOp | CompoundBinOp | Inc | Dec
    | NotEqual | LessThan | LessThanEq | GreaterThan | GreaterThanEq
    | Equality | Assignment
    | String | Number | Identifier
    | Space | Bad | Eof
    | Keyword(word: string)

  /** A token: its kind and the text it carries (a string literal carries the
      characters between its quotes). */
  datatype Token = Token(kind: TokenType, text: string)

  /** The end-of-input sentinel that closes every token list. */
  const EofToken: Token := Token(Eof, "")

  /** Reserved lexemes and the kind each one is given. */
  type KeywordTable = map<string, TokenType>

  /** A keyword table that never hands out the sentinel, whitespace or
      unrecognized kinds. */
  predicate ValidKeywords(kw: KeywordTable) {
    forall w :: w in kw ==> kw[w] != Eof && kw[w] != Space && kw[w] != Bad
  }

  /** The only failure the scanner reports: a string literal opened at `start`
      whose closing quote never comes. */
  datatype LexError = UnterminatedString(start: nat)

  datatype Result<T> = Ok(value: T) | Err(error: LexError)

  datatype Option<T> = None | Some(value: T)

  /** How a token is written in source text: string literals get their
      quotes back, every other token is written as its text. */
  function Spelling(t: Token): string {
    if t.kind == String then ['"'] + t.text + ['"'] else t.text
  }
}
