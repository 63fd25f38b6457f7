/** The token grammar: which tokens the lexer can emit, described per shape
    of lexeme and independently of the scanning code, and a printer that
    writes tokens back out as source text. */
module Grammar {
  import opened Tokens
  import opened Chars

  /** Punctuation and operator tokens: the kind fixes the text, up to the
      handful of spellings `BinaryOp` and `CompoundBinOp` share. */
  predicate IsFixed(t: Token) {
    match t.kind
    case LeftParen => t.text == "("
    case RightParen => t.text == ")"
    case LeftBrace => t.text == "{"
    case RightBrace => t.text == "}"
    case Comma => t.text == ","
    case SemiColon => t.text == ";"
    case BinaryOp =>
      || t.text == "+" || t.text == "-" || t.text == "*" || t.text == "**"
      || t.text == "/" || t.text == "%" || t.text == "&" || t.text == "|" || t.text == "^"
    case CompoundBinOp => t.text == "+=" || t.text == "-=" || t.text == "*="
    case Inc => t.text == "++"
    case Dec => t.text == "--"
    case NotEqual => t.text == "!="
    case LessThan => t.text == "<"
    case LessThanEq => t.text == "<="
    case GreaterThan => t.text == ">"
    case GreaterThanEq => t.text == ">="
    case Equality => t.text == "=="
    case Assignment => t.text == "="
    case _ => false
  }

  /** A character that becomes an unrecognized token: a bare `!`, or anything
      that is not whitespace, a digit, a letter or dispatch punctuation. */
  predicate IsStrayChar(c: char) {
    c == '!' || !(IsWhiteSpace(c) || IsDigit(c) || IsLetter(c) || IsDispatchChar(c))
  }

  /** A token of the language: an operator or punctuation token, a number, a
      string literal without a quote inside, an identifier-shaped lexeme
      classified by the keyword table, or one stray character. */
  predicate WellFormed(t: Token, kw: KeywordTable) {
    || IsFixed(t)
    || (t.kind == Number && IsDigitRun(t.text))
    || (t.kind == String && '"' !in t.text)
    || (IsIdentShaped(t.text) && (if t.text in kw then t.kind == kw[t.text] else t.kind == Identifier))
    || (t.kind == Bad && |t.text| == 1 && IsStrayChar(t.text[0]))
  }

  /** Writes tokens out as source text, each followed by one space. */
  function Unlex(ts: seq<Token>): string {
    if |ts| == 0 then "" else Spelling(ts[0]) + " " + Unlex(ts[1..])
  }

  /** A well-formed token is neither the sentinel nor whitespace when the
      keyword table does not hand those kinds out. */
  lemma WellFormedIsNotMarker(t: Token, kw: KeywordTable)
    requires ValidKeywords(kw) && WellFormed(t, kw)
    ensures t.kind != Eof && t.kind != Space
  {
  }

  /** A well-formed token is written with at least one character, and its
      first character is not whitespace. */
  lemma SpellingStartsToken(t: Token, kw: KeywordTable)
    requires WellFormed(t, kw)
    ensures |Spelling(t)| > 0 && !IsWhiteSpace(Spelling(t)[0])
  {
  }

  /** No well-formed token has a double quote in its text: a string literal's
      quotes are not part of its text, and no other lexeme contains one. */
  lemma WellFormedUnquoted(t: Token, kw: KeywordTable)
    requires WellFormed(t, kw)
    ensures '"' !in t.text
  {
    if IsIdentShaped(t.text) {
      IdentShapedUnquoted(t.text);
    } else if t.kind == Number && IsDigitRun(t.text) {
      forall k | 0 <= k < |t.text|
        ensures t.text[k] != '"'
      {
        assert IsDigit(t.text[k]);
      }
    }
  }

  /** Every token of `ts` is well formed. */
  predicate AllWellFormed(ts: seq<Token>, kw: KeywordTable) {
    forall k :: 0 <= k < |ts| ==> WellFormed(ts[k], kw)
  }

  /** Every token of `ts` before its last one is well formed. */
  predicate BodyWellFormed(ts: seq<Token>, kw: KeywordTable) {
    forall k :: 0 <= k < |ts| - 1 ==> WellFormed(ts[k], kw)
  }

  /** A well-formed token put in front keeps a list's body well formed. */
  lemma ConsBodyWellFormed(t: Token, ts: seq<Token>, us: seq<Token>, kw: KeywordTable)
    requires |ts| > 0 && us == [t] + ts && WellFormed(t, kw) && BodyWellFormed(ts, kw)
    ensures BodyWellFormed(us, kw)
  {
    forall k | 0 <= k < |us| - 1
      ensures WellFormed(us[k], kw)
    {
      if k > 0 {
        assert us[k] == ts[k - 1];
      }
    }
  }
}
