/** The character dispatch: one token from the character under the cursor.
    `NextTokenWellFormed` is proved through one lemma per character class,
    each of which keeps its proof obligation to a few arms of the dispatch. */
module Dispatch {
  import opened Tokens
  import opened Chars
  import opened Scanners
  import opened Grammar

  /** The string literal opened at `start` (at or after `from`) is never closed. */
  predicate Unterminated(src: string, from: nat, start: nat) {
    from <= start < |src| && src[start] == '"' && NoQuote(src, start + 1, |src|)
  }

  /** The dispatch on the character under the cursor. */
  function NextToken(src: string, cur: nat, kw: KeywordTable): (r: Result<Lexed>)
    requires cur < |src|
    ensures r.Ok? ==> cur <= r.value.last < |src|
    ensures r.Err? <==> src[cur] == '"' && NoQuote(src, cur + 1, |src|)
    ensures r.Err? ==> r.error == UnterminatedString(cur)
    ensures src[cur] == ' ' ==> r == Ok(Lexed(Token(Space, " "), cur))
    ensures IsWhiteSpace(src[cur]) && src[cur] != ' ' ==> r == Ok(Lexed(Token(Bad, [src[cur]]), cur))
  {
    var c := src[cur];
    match c
    case '(' => Ok(Lexed(Token(LeftParen, [c]), cur))
    case ')' => Ok(Lexed(Token(RightParen, [c]), cur))
    case '{' => Ok(Lexed(Token(LeftBrace, [c]), cur))
    case '}' => Ok(Lexed(Token(RightBrace, [c]), cur))
    case ',' => Ok(Lexed(Token(Comma, [c]), cur))
    case ';' => Ok(Lexed(Token(SemiColon, [c]), cur))
    case '+' => Ok(OnPlus(src, cur))
    case '-' => Ok(OnMinus(src, cur))
    case '/' | '%' => Ok(Lexed(Token(BinaryOp, [c]), cur))
    case '&' | '|' | '^' => Ok(Lexed(Token(BinaryOp, [c]), cur))
    case '*' => Ok(OnStar(src, cur))
    case '!' => Ok(OnNot(src, cur))
    case '>' => Ok(OnGreaterThan(src, cur))
    case '<' => Ok(OnLessThan(src, cur))
    case '=' => Ok(OnEquals(src, cur))
    case '"' => OnString(src, cur)
    case _ =>
      if IsDigit(c) then Ok(OnNumber(src, cur))
      else if IsLetter(c) then Ok(OnLetter(src, cur, kw))
      else if c == ' ' then Ok(Lexed(Token(Space, [c]), cur))
      else Ok(Lexed(Token(Bad, [c]), cur))
  }

  /** Every token the dispatch returns carries exactly the source slice it
      consumed (inside the quotes, for a string literal). */
  lemma NextTokenConsumes(src: string, cur: nat, kw: KeywordTable)
    requires cur < |src| && NextToken(src, cur, kw).Ok?
    ensures Consumes(src, cur, NextToken(src, cur, kw).value)
  {
    var c := src[cur];
    if c == '"' {
      DispatchQuote(src, cur, kw);
    } else if IsDigit(c) {
      DispatchDigit(src, cur, kw);
    } else if IsLetter(c) {
      DispatchLetter(src, cur, kw);
    }
  }

  /** Started on anything but whitespace, the dispatch returns a token of the
      grammar. */
  lemma NextTokenWellFormed(src: string, cur: nat, kw: KeywordTable)
    requires cur < |src| && !IsWhiteSpace(src[cur]) && NextToken(src, cur, kw).Ok?
    ensures WellFormed(NextToken(src, cur, kw).value.token, kw)
  {
    var c := src[cur];
    if c == '"' {
      StringWellFormed(src, cur, kw);
    } else if IsDigit(c) {
      NumberWellFormed(src, cur, kw);
    } else if IsLetter(c) {
      WordWellFormed(src, cur, kw);
    } else {
      PunctuationWellFormed(src, cur, kw);
    }
  }

  /** The structural characters give their own one-character kinds, and the
      single-character operators `/ % & | ^` give a `BinaryOp`. */
  lemma DispatchPunctuation(src: string, cur: nat, kw: KeywordTable)
    requires cur < |src|
    ensures src[cur] == '(' ==> NextToken(src, cur, kw) == Ok(Lexed(Token(LeftParen, "("), cur))
    ensures src[cur] == ')' ==> NextToken(src, cur, kw) == Ok(Lexed(Token(RightParen, ")"), cur))
    ensures src[cur] == '{' ==> NextToken(src, cur, kw) == Ok(Lexed(Token(LeftBrace, "{"), cur))
    ensures src[cur] == '}' ==> NextToken(src, cur, kw) == Ok(Lexed(Token(RightBrace, "}"), cur))
    ensures src[cur] == ',' ==> NextToken(src, cur, kw) == Ok(Lexed(Token(Comma, ","), cur))
    ensures src[cur] == ';' ==> NextToken(src, cur, kw) == Ok(Lexed(Token(SemiColon, ";"), cur))
    ensures src[cur] in "/%&|^" ==> NextToken(src, cur, kw) == Ok(Lexed(Token(BinaryOp, [src[cur]]), cur))
  {
  }

  /** The operator characters that may start a two-character operator hand
      over to their own scanners. */
  lemma DispatchOperator(src: string, cur: nat, kw: KeywordTable)
    requires cur < |src|
    ensures src[cur] == '+' ==> NextToken(src, cur, kw) == Ok(OnPlus(src, cur))
    ensures src[cur] == '-' ==> NextToken(src, cur, kw) == Ok(OnMinus(src, cur))
    ensures src[cur] == '*' ==> NextToken(src, cur, kw) == Ok(OnStar(src, cur))
    ensures src[cur] == '!' ==> NextToken(src, cur, kw) == Ok(OnNot(src, cur))
    ensures src[cur] == '>' ==> NextToken(src, cur, kw) == Ok(OnGreaterThan(src, cur))
    ensures src[cur] == '<' ==> NextToken(src, cur, kw) == Ok(OnLessThan(src, cur))
    ensures src[cur] == '=' ==> NextToken(src, cur, kw) == Ok(OnEquals(src, cur))
  {
  }

  /** A character with no arm of its own, such as `.` or `@`, is one
      unrecognized token of that character alone. */
  lemma DispatchStray(src: string, cur: nat, kw: KeywordTable)
    requires cur < |src| && IsStrayChar(src[cur]) && src[cur] != '!'
    ensures NextToken(src, cur, kw) == Ok(Lexed(Token(Bad, [src[cur]]), cur))
  {
  }

  /** A quote always opens a string literal. */
  lemma DispatchQuote(src: string, cur: nat, kw: KeywordTable)
    requires cur < |src| && src[cur] == '"'
    ensures NextToken(src, cur, kw) == OnString(src, cur)
  {
  }

  /** A digit always starts a number. */
  lemma DispatchDigit(src: string, cur: nat, kw: KeywordTable)
    requires cur < |src| && IsDigit(src[cur])
    ensures NextToken(src, cur, kw) == Ok(OnNumber(src, cur))
  {
    ClassesDisjoint(src[cur]);
  }

  /** A letter always starts an identifier or keyword. */
  lemma DispatchLetter(src: string, cur: nat, kw: KeywordTable)
    requires cur < |src| && IsLetter(src[cur])
    ensures NextToken(src, cur, kw) == Ok(OnLetter(src, cur, kw))
  {
    ClassesDisjoint(src[cur]);
  }

  lemma StringWellFormed(src: string, cur: nat, kw: KeywordTable)
    requires cur < |src| && src[cur] == '"' && NextToken(src, cur, kw).Ok?
    ensures WellFormed(NextToken(src, cur, kw).value.token, kw)
  {
    DispatchQuote(src, cur, kw);
  }

  lemma NumberWellFormed(src: string, cur: nat, kw: KeywordTable)
    requires cur < |src| && IsDigit(src[cur])
    ensures WellFormed(NextToken(src, cur, kw).value.token, kw)
  {
    DispatchDigit(src, cur, kw);
  }

  lemma WordWellFormed(src: string, cur: nat, kw: KeywordTable)
    requires cur < |src| && IsLetter(src[cur])
    ensures WellFormed(NextToken(src, cur, kw).value.token, kw)
  {
    DispatchLetter(src, cur, kw);
  }

  lemma PunctuationWellFormed(src: string, cur: nat, kw: KeywordTable)
    requires cur < |src| && !IsWhiteSpace(src[cur]) && !IsDigit(src[cur]) && !IsLetter(src[cur]) && src[cur] != '"'
    ensures WellFormed(NextToken(src, cur, kw).value.token, kw)
  {
    var c := src[cur];
    if c == '+' || c == '-' || c == '*' || c == '!' || c == '<' || c == '>' || c == '=' {
      OperatorWellFormed(src, cur, kw);
    } else if IsDispatchChar(c) {
      SingleWellFormed(src, cur, kw);
    } else {
      StrayWellFormed(src, cur, kw);
    }
  }

  lemma OperatorWellFormed(src: string, cur: nat, kw: KeywordTable)
    requires cur < |src|
    requires var c := src[cur]; c == '+' || c == '-' || c == '*' || c == '!' || c == '<' || c == '>' || c == '='
    ensures WellFormed(NextToken(src, cur, kw).value.token, kw)
  {
    var c := src[cur];
    if c == '+' || c == '-' || c == '*' {
      ArithmeticWellFormed(src, cur, kw);
    } else {
      ComparisonWellFormed(src, cur, kw);
    }
  }

  lemma ArithmeticWellFormed(src: string, cur: nat, kw: KeywordTable)
    requires cur < |src|
    requires var c := src[cur]; c == '+' || c == '-' || c == '*'
    ensures WellFormed(NextToken(src, cur, kw).value.token, kw)
  {
  }

  lemma ComparisonWellFormed(src: string, cur: nat, kw: KeywordTable)
    requires cur < |src|
    requires var c := src[cur]; c == '!' || c == '<' || c == '>' || c == '='
    ensures WellFormed(NextToken(src, cur, kw).value.token, kw)
  {
    var c := src[cur];
    if c == '<' || c == '>' {
      OrderingWellFormed(src, cur, kw);
    } else {
      EqualityWellFormed(src, cur, kw);
    }
  }

  lemma OrderingWellFormed(src: string, cur: nat, kw: KeywordTable)
    requires cur < |src| && (src[cur] == '<' || src[cur] == '>')
    ensures WellFormed(NextToken(src, cur, kw).value.token, kw)
  {
  }

  lemma EqualityWellFormed(src: string, cur: nat, kw: KeywordTable)
    requires cur < |src| && (src[cur] == '!' || src[cur] == '=')
    ensures WellFormed(NextToken(src, cur, kw).value.token, kw)
  {
  }

  lemma SingleWellFormed(src: string, cur: nat, kw: KeywordTable)
    requires cur < |src| && IsDispatchChar(src[cur])
    requires var c := src[cur]; !(c == '+' || c == '-' || c == '*' || c == '!' || c == '<' || c == '>' || c == '=' || c == '"')
    ensures WellFormed(NextToken(src, cur, kw).value.token, kw)
  {
  }

  /** A character with no arm of its own is one unrecognized token. */
  lemma StrayWellFormed(src: string, cur: nat, kw: KeywordTable)
    requires cur < |src| && !IsWhiteSpace(src[cur]) && !IsDigit(src[cur]) && !IsLetter(src[cur]) && !IsDispatchChar(src[cur])
    ensures WellFormed(NextToken(src, cur, kw).value.token, kw)
  {
  }
}
