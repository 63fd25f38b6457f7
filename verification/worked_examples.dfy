/** Small inputs worked through the lexer, one token at a time. The keyword
    table holds the single keyword `if`. Each example names its input through
    a parameter fixed by its precondition rather than as a literal, so that
    the verifier does not evaluate the whole scan of the literal up front. */
module Examples {
  import opened Tokens
  import opened Chars
  import opened Cursor
  import opened Scanners
  import opened Dispatch
  import opened Lexer
  import opened Relex

  const KW: KeywordTable := map["if" := Keyword("if")]

  /** A digit run from `cur` up to `end` is one number token. */
  lemma NumberToken(src: string, cur: nat, end: nat, kw: KeywordTable)
    requires cur < end <= |src| && (forall k :: cur <= k < end ==> IsDigit(src[k]))
    requires end == |src| || !IsDigit(src[end])
    ensures NextToken(src, cur, kw) == Ok(Lexed(Token(Number, src[cur..end]), end - 1))
  {
    SkipWhileExact(src, cur, IsDigit, end);
    DispatchDigit(src, cur, kw);
  }

  /** A letter followed by identifier characters up to `end` is one word,
      classified by the keyword table. */
  lemma WordToken(src: string, cur: nat, end: nat, kw: KeywordTable)
    requires cur < end <= |src| && IsLetter(src[cur]) && (forall k :: cur <= k < end ==> IsIdentChar(src[k]))
    requires end == |src| || !IsIdentChar(src[end])
    ensures var w := src[cur..end];
      NextToken(src, cur, kw) == Ok(Lexed(Token(if w in kw then kw[w] else Identifier, w), end - 1))
  {
    WordLexed(src, cur, end, kw);
    DispatchLetter(src, cur, kw);
  }

  /** The identifier scanner on a word that ends at `end`. */
  lemma WordLexed(src: string, cur: nat, end: nat, kw: KeywordTable)
    requires cur < end <= |src| && IsLetter(src[cur]) && (forall k :: cur <= k < end ==> IsIdentChar(src[k]))
    requires end == |src| || !IsIdentChar(src[end])
    ensures var w := src[cur..end];
      OnLetter(src, cur, kw) == Lexed(Token(if w in kw then kw[w] else Identifier, w), end - 1)
  {
    SkipWhileExact(src, cur, IsIdentChar, end);
  }

  /** A word the keyword table does not hold is an identifier. */
  lemma IdentToken(src: string, cur: nat, end: nat, kw: KeywordTable)
    requires cur < end <= |src| && IsLetter(src[cur]) && (forall k :: cur <= k < end ==> IsIdentChar(src[k]))
    requires end == |src| || !IsIdentChar(src[end])
    requires src[cur..end] !in kw
    ensures NextToken(src, cur, kw) == Ok(Lexed(Token(Identifier, src[cur..end]), end - 1))
  {
    WordToken(src, cur, end, kw);
  }

  /** A quote, quote-free text and a quote make one string token. */
  lemma StringToken(src: string, cur: nat, e: nat, kw: KeywordTable)
    requires cur < e < |src| && src[cur] == '"' && src[e] == '"' && NoQuote(src, cur + 1, e)
    ensures NextToken(src, cur, kw) == Ok(Lexed(Token(String, src[cur + 1..e]), e))
  {
    CloseQuoteFinds(src, cur, e);
    StringScan(src, cur, e);
    DispatchQuote(src, cur, kw);
  }

  /** A token taken at `cur` and ending at `e`, followed by the scan from
      just past it: `ScanFromStep` in the `Ok` form the examples chain. */
  lemma Step(src: string, cur: nat, kw: KeywordTable, t: Token, e: nat, rest: seq<Token>)
    requires cur < |src| && !IsWhiteSpace(src[cur]) && NextToken(src, cur, kw) == Ok(Lexed(t, e))
    requires e + 1 <= |src| && ScanFrom(src, e + 1, kw) == Ok(rest)
    ensures ScanFrom(src, cur, kw) == Ok([t] + rest)
  {
    ScanFromStep(src, cur, kw, t, e);
  }

  /** A whitespace character at `cur`, followed by the scan from just past
      it: `SkipBlank` in the `Ok` form the examples chain. */
  lemma Skip(src: string, cur: nat, kw: KeywordTable, rest: seq<Token>)
    requires cur < |src| && IsWhiteSpace(src[cur]) && ScanFrom(src, cur + 1, kw) == Ok(rest)
    ensures ScanFrom(src, cur, kw) == Ok(rest)
  {
    SkipBlank(src, cur, kw);
  }

  /** Operators and numbers need no space between them. */
  lemma SumExample(src: string)
    requires src == "1+2"
    ensures Tokenize(src, KW) == Ok([Token(Number, "1"), Token(BinaryOp, "+"), Token(Number, "2"), EofToken])
  {
    var n1, plus, n2 := Token(Number, "1"), Token(BinaryOp, "+"), Token(Number, "2");
    SumHead(src);
    assert [n1] + ([plus] + ([n2] + [EofToken])) == [n1, plus, n2, EofToken];
  }

  /** `1`, then the rest of `1+2`. */
  lemma SumHead(src: string)
    requires src == "1+2"
    ensures ScanFrom(src, 0, KW) == Ok([Token(Number, "1")] + ([Token(BinaryOp, "+")] + ([Token(Number, "2")] + [EofToken])))
  {
    var n1, plus, n2 := Token(Number, "1"), Token(BinaryOp, "+"), Token(Number, "2");
    SumTail(src);
    NumberToken(src, 0, 1, KW);
    assert src[0..1] == "1";
    Step(src, 0, KW, n1, 0, [plus] + ([n2] + [EofToken]));
  }

  /** `+2`, the rest of `1+2`. */
  lemma SumTail(src: string)
    requires src == "1+2"
    ensures ScanFrom(src, 1, KW) == Ok([Token(BinaryOp, "+")] + ([Token(Number, "2")] + [EofToken]))
  {
    var plus, n2 := Token(BinaryOp, "+"), Token(Number, "2");
    assert ScanFrom(src, 3, KW) == Ok([EofToken]);
    NumberToken(src, 2, 3, KW);
    assert src[2..3] == "2";
    Step(src, 2, KW, n2, 2, [EofToken]);
    assert NextToken(src, 1, KW) == Ok(Lexed(plus, 1));
    Step(src, 1, KW, plus, 1, [n2] + [EofToken]);
  }

  /** Two pluses written together are one increment token. */
  lemma IncrementExample(src: string)
    requires src == "++"
    ensures Tokenize(src, KW) == Ok([Token(Inc, "++"), EofToken])
  {
    assert ScanFrom(src, 2, KW) == Ok([EofToken]);
    assert NextToken(src, 0, KW) == Ok(Lexed(Token(Inc, "++"), 1));
    Step(src, 0, KW, Token(Inc, "++"), 1, [EofToken]);
    assert [Token(Inc, "++")] + [EofToken] == [Token(Inc, "++"), EofToken];
  }

  /** Two pluses with a space between them are two operators. */
  lemma TwoPlusExample(src: string)
    requires src == "+ +"
    ensures Tokenize(src, KW) == Ok([Token(BinaryOp, "+"), Token(BinaryOp, "+"), EofToken])
  {
    var plus := Token(BinaryOp, "+");
    assert ScanFrom(src, 3, KW) == Ok([EofToken]);
    assert NextToken(src, 2, KW) == Ok(Lexed(plus, 2));
    Step(src, 2, KW, plus, 2, [EofToken]);
    Skip(src, 1, KW, [plus] + [EofToken]);
    assert NextToken(src, 0, KW) == Ok(Lexed(plus, 0));
    Step(src, 0, KW, plus, 0, [plus] + [EofToken]);
    assert [plus] + ([plus] + [EofToken]) == [plus, plus, EofToken];
  }

  /** The longest operator wins, and nothing is longer than two characters:
      `**=` is a power operator followed by an assignment. */
  lemma PowerAssignExample(src: string)
    requires src == "**="
    ensures Tokenize(src, KW) == Ok([Token(BinaryOp, "**"), Token(Assignment, "="), EofToken])
  {
    var pow, assign := Token(BinaryOp, "**"), Token(Assignment, "=");
    assert ScanFrom(src, 3, KW) == Ok([EofToken]);
    assert NextToken(src, 2, KW) == Ok(Lexed(assign, 2));
    Step(src, 2, KW, assign, 2, [EofToken]);
    assert NextToken(src, 0, KW) == Ok(Lexed(pow, 1));
    Step(src, 0, KW, pow, 1, [assign] + [EofToken]);
    assert [pow] + ([assign] + [EofToken]) == [pow, assign, EofToken];
  }

  /** A word in the keyword table is given the table's kind. */
  lemma KeywordExample(src: string)
    requires src == "if"
    ensures Tokenize(src, KW) == Ok([Token(Keyword("if"), "if"), EofToken])
  {
    assert ScanFrom(src, 2, KW) == Ok([EofToken]);
    WordToken(src, 0, 2, KW);
    assert src[0..2] == "if";
    Step(src, 0, KW, Token(Keyword("if"), "if"), 1, [EofToken]);
    assert [Token(Keyword("if"), "if")] + [EofToken] == [Token(Keyword("if"), "if"), EofToken];
  }

  /** A keyword is only recognized as a whole word. */
  lemma KeywordPrefixExample(src: string)
    requires src == "ifx"
    ensures Tokenize(src, KW) == Ok([Token(Identifier, "ifx"), EofToken])
  {
    assert ScanFrom(src, 3, KW) == Ok([EofToken]);
    WordToken(src, 0, 3, KW);
    assert src[0..3] == "ifx";
    Step(src, 0, KW, Token(Identifier, "ifx"), 2, [EofToken]);
    assert [Token(Identifier, "ifx")] + [EofToken] == [Token(Identifier, "ifx"), EofToken];
  }

  /** A string literal carries the text between its quotes. */
  lemma StringExample(src: string)
    requires src == "\"hi\""
    ensures Tokenize(src, KW) == Ok([Token(String, "hi"), EofToken])
  {
    assert ScanFrom(src, 4, KW) == Ok([EofToken]);
    StringToken(src, 0, 3, KW);
    assert src[1..3] == "hi";
    Step(src, 0, KW, Token(String, "hi"), 3, [EofToken]);
    assert [Token(String, "hi")] + [EofToken] == [Token(String, "hi"), EofToken];
  }

  /** A string literal that is never closed stops the scan with an error
      naming where it opened. */
  lemma UnterminatedExample(src: string)
    requires src == "x \"ab"
    ensures Tokenize(src, KW) == Err(UnterminatedString(2))
  {
    assert NoQuote(src, 3, |src|);
    assert NextToken(src, 2, KW) == Err(UnterminatedString(2));
    ScanFromToken(src, 2, KW);
    SkipBlank(src, 1, KW);
    WordToken(src, 0, 1, KW);
    ScanFromToken(src, 0, KW);
  }

  /** A character with no arm of its own becomes a one-character `Bad`
      token, so a decimal point splits a number in two. */
  lemma DecimalExample(src: string)
    requires src == "3.14"
    ensures Tokenize(src, KW) == Ok([Token(Number, "3"), Token(Bad, "."), Token(Number, "14"), EofToken])
  {
    var n3, dot, n14 := Token(Number, "3"), Token(Bad, "."), Token(Number, "14");
    DecimalHead(src);
    assert [n3] + ([dot] + ([n14] + [EofToken])) == [n3, dot, n14, EofToken];
  }

  /** `3`, then the rest of `3.14`. */
  lemma DecimalHead(src: string)
    requires src == "3.14"
    ensures ScanFrom(src, 0, KW) == Ok([Token(Number, "3")] + ([Token(Bad, ".")] + ([Token(Number, "14")] + [EofToken])))
  {
    var n3, dot, n14 := Token(Number, "3"), Token(Bad, "."), Token(Number, "14");
    DecimalTail(src);
    NumberToken(src, 0, 1, KW);
    assert src[0..1] == "3";
    Step(src, 0, KW, n3, 0, [dot] + ([n14] + [EofToken]));
  }

  /** `.14`, the rest of `3.14`. */
  lemma DecimalTail(src: string)
    requires src == "3.14"
    ensures ScanFrom(src, 1, KW) == Ok([Token(Bad, ".")] + ([Token(Number, "14")] + [EofToken]))
  {
    var dot, n14 := Token(Bad, "."), Token(Number, "14");
    assert ScanFrom(src, 4, KW) == Ok([EofToken]);
    NumberToken(src, 2, 4, KW);
    assert src[2..4] == "14";
    Step(src, 2, KW, n14, 3, [EofToken]);
    assert NextToken(src, 1, KW) == Ok(Lexed(dot, 1));
    Step(src, 1, KW, dot, 1, [n14] + [EofToken]);
  }

  /** `!` is only an operator in `!=`; alone it is a `Bad` token. */
  lemma BangExample(src: string)
    requires src == "a!b"
    ensures Tokenize(src, KW) == Ok([Token(Identifier, "a"), Token(Bad, "!"), Token(Identifier, "b"), EofToken])
  {
    var a, bang, b := Token(Identifier, "a"), Token(Bad, "!"), Token(Identifier, "b");
    BangHead(src);
    assert [a] + ([bang] + ([b] + [EofToken])) == [a, bang, b, EofToken];
  }

  /** `a`, then the rest of `a!b`. */
  lemma BangHead(src: string)
    requires src == "a!b"
    ensures ScanFrom(src, 0, KW) == Ok([Token(Identifier, "a")] + ([Token(Bad, "!")] + ([Token(Identifier, "b")] + [EofToken])))
  {
    var a, bang, b := Token(Identifier, "a"), Token(Bad, "!"), Token(Identifier, "b");
    BangTail(src);
    assert src[0..1] == "a" && "a" !in KW;
    IdentToken(src, 0, 1, KW);
    Step(src, 0, KW, a, 0, [bang] + ([b] + [EofToken]));
  }

  /** `!b`, the rest of `a!b`. */
  lemma BangTail(src: string)
    requires src == "a!b"
    ensures ScanFrom(src, 1, KW) == Ok([Token(Bad, "!")] + ([Token(Identifier, "b")] + [EofToken]))
  {
    var bang, b := Token(Bad, "!"), Token(Identifier, "b");
    assert ScanFrom(src, 3, KW) == Ok([EofToken]);
    assert src[2..3] == "b" && "b" !in KW;
    IdentToken(src, 2, 3, KW);
    Step(src, 2, KW, b, 2, [EofToken]);
    assert NextToken(src, 1, KW) == Ok(Lexed(bang, 1));
    Step(src, 1, KW, bang, 1, [b] + [EofToken]);
  }
}
