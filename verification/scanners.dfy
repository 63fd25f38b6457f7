/** The sub-scanners the dispatch hands a token to. Each one starts with the
    cursor on the token's first character and reports the index of the last
    character it consumed; the outer loop advances past it. */
module Scanners {
  import opened Tokens
  import opened Chars
  import opened Cursor

  /** A scanned token and the index of the last character it consumed. */
  datatype Lexed = Lexed(token: Token, last: nat)

  /** `l` consumed `src[cur..l.last + 1]`, and that slice is the token's text
      (with the quotes around it when the token is a string literal). */
  predicate Consumes(src: string, cur: nat, l: Lexed) {
    cur <= l.last < |src| &&
    (if src[cur] == '"' then ['"'] + l.token.text + ['"'] else l.token.text) == src[cur..l.last + 1]
  }

  /** No double quote in `src[from..to]`. */
  predicate NoQuote(src: string, from: nat, to: nat)
    requires to <= |src|
  {
    forall k :: from <= k < to ==> src[k] != '"'
  }

  /** Whether the character after `cur` exists and is `c`. */
  predicate NextIs(src: string, cur: nat, c: char) {
    cur + 1 < |src| && src[cur + 1] == c
  }

  /** The scanners' `Peek() == c` tests, for any `c` other than NUL, ask
      exactly whether `c` comes next. */
  lemma PeekIsNext(src: string, cur: nat, c: char)
    requires c != NUL
    ensures Peek(src, cur) == c <==> NextIs(src, cur, c)
  {
  }

  function OnLessThan(src: string, cur: nat): (r: Lexed)
    requires cur < |src| && src[cur] == '<'
    ensures Consumes(src, cur, r)
    ensures NextIs(src, cur, '=') ==> r.token == Token(LessThanEq, "<=")
    ensures !NextIs(src, cur, '=') ==> r.token == Token(LessThan, "<")
  {
    if Peek(src, cur) == '=' then Lexed(Token(LessThanEq, "<="), cur + 1)
    else Lexed(Token(LessThan, "<"), cur)
  }

  function OnGreaterThan(src: string, cur: nat): (r: Lexed)
    requires cur < |src| && src[cur] == '>'
    ensures Consumes(src, cur, r)
    ensures NextIs(src, cur, '=') ==> r.token == Token(GreaterThanEq, ">=")
    ensures !NextIs(src, cur, '=') ==> r.token == Token(GreaterThan, ">")
  {
    if Peek(src, cur) == '=' then Lexed(Token(GreaterThanEq, ">="), cur + 1)
    else Lexed(Token(GreaterThan, ">"), cur)
  }

  /** `!=` is the only operator that starts with `!`; a bare `!` is unrecognized. */
  function OnNot(src: string, cur: nat): (r: Lexed)
    requires cur < |src| && src[cur] == '!'
    ensures Consumes(src, cur, r)
    ensures NextIs(src, cur, '=') ==> r.token == Token(NotEqual, "!=")
    ensures !NextIs(src, cur, '=') ==> r.token == Token(Bad, "!")
  {
    if Peek(src, cur) == '=' then Lexed(Token(NotEqual, "!="), cur + 1)
    else Lexed(Token(Bad, [src[cur]]), cur)
  }

  function OnPlus(src: string, cur: nat): (r: Lexed)
    requires cur < |src| && src[cur] == '+'
    ensures Consumes(src, cur, r)
    ensures NextIs(src, cur, '+') ==> r.token == Token(Inc, "++")
    ensures NextIs(src, cur, '=') ==> r.token == Token(CompoundBinOp, "+=")
    ensures !NextIs(src, cur, '+') && !NextIs(src, cur, '=') ==> r.token == Token(BinaryOp, "+")
  {
    if Peek(src, cur) == '+' then Lexed(Token(Inc, "++"), cur + 1)
    else if Peek(src, cur) == '=' then Lexed(Token(CompoundBinOp, "+="), cur + 1)
    else Lexed(Token(BinaryOp, "+"), cur)
  }

  function OnMinus(src: string, cur: nat): (r: Lexed)
    requires cur < |src| && src[cur] == '-'
    ensures Consumes(src, cur, r)
    ensures NextIs(src, cur, '-') ==> r.token == Token(Dec, "--")
    ensures NextIs(src, cur, '=') ==> r.token == Token(CompoundBinOp, "-=")
    ensures !NextIs(src, cur, '-') && !NextIs(src, cur, '=') ==> r.token == Token(BinaryOp, "-")
  {
    if Peek(src, cur) == '-' then Lexed(Token(Dec, "--"), cur + 1)
    else if Peek(src, cur) == '=' then Lexed(Token(CompoundBinOp, "-="), cur + 1)
    else Lexed(Token(BinaryOp, "-"), cur)
  }

  /** `**` is a binary operator of its own, not an increment-like kind. */
  function OnStar(src: string, cur: nat): (r: Lexed)
    requires cur < |src| && src[cur] == '*'
    ensures Consumes(src, cur, r)
    ensures NextIs(src, cur, '*') ==> r.token == Token(BinaryOp, "**")
    ensures NextIs(src, cur, '=') ==> r.token == Token(CompoundBinOp, "*=")
    ensures !NextIs(src, cur, '*') && !NextIs(src, cur, '=') ==> r.token == Token(BinaryOp, "*")
  {
    if Peek(src, cur) == '*' then Lexed(Token(BinaryOp, "**"), cur + 1)
    else if Peek(src, cur) == '=' then Lexed(Token(CompoundBinOp, "*="), cur + 1)
    else Lexed(Token(BinaryOp, "*"), cur)
  }

  function OnEquals(src: string, cur: nat): (r: Lexed)
    requires cur < |src| && src[cur] == '='
    ensures Consumes(src, cur, r)
    ensures NextIs(src, cur, '=') ==> r.token == Token(Equality, "==")
    ensures !NextIs(src, cur, '=') ==> r.token == Token(Assignment, "=")
  {
    if Peek(src, cur) == '=' then Lexed(Token(Equality, "=="), cur + 1)
    else Lexed(Token(Assignment, "="), cur)
  }

  /** The loop `while (Peek() != '"') Current++;` with the end-of-input test
      it lacks: the index of the first quote after `cur`, if there is one. */
  function CloseQuote(src: string, cur: nat): (r: Option<nat>)
    requires cur < |src|
    ensures r.Some? ==> cur < r.value < |src| && src[r.value] == '"' && NoQuote(src, cur + 1, r.value)
    ensures r.None? ==> NoQuote(src, cur + 1, |src|)
    decreases |src| - cur
  {
    if Peek(src, cur) == '"' then Some(cur + 1)
    else if cur + 1 >= |src| then None
    else CloseQuote(src, cur + 1)
  }

  /** Any quote at `e` with no quote between `cur` and it is the one the
      string loop stops at. */
  lemma CloseQuoteFinds(src: string, cur: nat, e: nat)
    requires cur < e < |src| && src[e] == '"' && NoQuote(src, cur + 1, e)
    ensures CloseQuote(src, cur) == Some(e)
  {
  }

  /** A string literal: the characters up to the next quote, taken verbatim. */
  function OnString(src: string, cur: nat): (r: Result<Lexed>)
    requires cur < |src| && src[cur] == '"'
    ensures r.Ok? ==> Consumes(src, cur, r.value) && r.value.token.kind == String
    ensures r.Ok? ==> src[r.value.last] == '"' && NoQuote(src, cur + 1, r.value.last)
    ensures r.Ok? ==> '"' !in r.value.token.text
    ensures r.Err? <==> NoQuote(src, cur + 1, |src|)
    ensures r.Err? ==> r.error == UnterminatedString(cur)
  {
    match CloseQuote(src, cur)
    case None => Err(UnterminatedString(cur))
    case Some(e) =>
      var text := src[cur + 1..e];
      assert src[cur..e + 1] == ['"'] + text + ['"'];
      assert forall k :: 0 <= k < |text| ==> text[k] == src[cur + 1 + k];
      Ok(Lexed(Token(String, text), e))
  }

  /** A number: the maximal run of digits that starts at `cur`. */
  function OnNumber(src: string, cur: nat): (r: Lexed)
    requires cur < |src| && IsDigit(src[cur])
    ensures Consumes(src, cur, r) && r.token.kind == Number
    ensures IsDigitRun(r.token.text)
    ensures r.last + 1 == |src| || !IsDigit(src[r.last + 1])
  {
    var end := SkipWhile(src, cur, IsDigit);
    var text := src[cur..end];
    assert forall k :: 0 <= k < |text| ==> text[k] == src[cur + k];
    Lexed(Token(Number, text), end - 1)
  }

  /** An identifier or keyword: a run of letters, then a run of letters,
      digits and underscores, looked up in the keyword table. */
  function OnLetter(src: string, cur: nat, kw: KeywordTable): (r: Lexed)
    requires cur < |src| && IsLetter(src[cur])
    ensures Consumes(src, cur, r)
    ensures IsIdentShaped(r.token.text)
    ensures r.last + 1 == SkipWhile(src, cur, IsIdentChar)
    ensures r.token.text in kw ==> r.token.kind == kw[r.token.text]
    ensures r.token.text !in kw ==> r.token.kind == Identifier
  {
    var letters := SkipWhile(src, cur, IsLetter);
    var end := SkipWhile(src, letters, IsIdentChar);
    var lexeme := src[cur..end];
    assert forall k :: 0 <= k < |lexeme| ==> lexeme[k] == src[cur + k];
    SkipWhileExact(src, cur, IsIdentChar, end);
    if lexeme in kw then Lexed(Token(kw[lexeme], lexeme), end - 1)
    else Lexed(Token(Identifier, lexeme), end - 1)
  }
}
