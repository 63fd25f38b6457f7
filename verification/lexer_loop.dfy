/** The scan loop as the C# lexer runs it: a mutable cursor and a growing
    token list. */
module LexerLoop {
  import opened Tokens
  import opened Chars
  import opened Cursor
  import opened Dispatch
  import opened Lexer

  /** Moving a token from the front of what is left onto the list. */
  lemma TokenStep(tokens: seq<Token>, t: Token, rest: Result<seq<Token>>, whole: Result<seq<Token>>)
    requires whole == if rest.Err? then rest else Ok([t] + rest.value)
    ensures Prepend(tokens + [t], rest) == Prepend(tokens, whole)
  {
    if rest.Ok? {
      assert tokens + ([t] + rest.value) == (tokens + [t]) + rest.value;
    }
  }

  /** One round on a character that starts a token: either the scan fails
      right here, or the token moves from what is left onto the list. */
  lemma RoundStep(src: string, cur: nat, kw: KeywordTable, tokens: seq<Token>)
    requires cur < |src| && !IsWhiteSpace(src[cur])
    ensures NextToken(src, cur, kw).Err? ==>
      Prepend(tokens, ScanFrom(src, cur, kw)) == Err(NextToken(src, cur, kw).error)
    ensures NextToken(src, cur, kw).Ok? ==>
      var next := NextToken(src, cur, kw).value;
      Prepend(tokens + [next.token], ScanFrom(src, next.last + 1, kw)) == Prepend(tokens, ScanFrom(src, cur, kw))
  {
    ScanFromToken(src, cur, kw);
    var next := NextToken(src, cur, kw);
    if next.Ok? {
      TokenStep(tokens, next.value.token, ScanFrom(src, next.value.last + 1, kw), ScanFrom(src, cur, kw));
    }
  }

  /** At the end of the input only the sentinel is left to add. */
  lemma EndStep(src: string, cur: nat, kw: KeywordTable, tokens: seq<Token>)
    requires cur == |src|
    ensures Prepend(tokens, ScanFrom(src, cur, kw)) == Ok(tokens + [EofToken])
  {
  }

  /** One round of the loop on a whitespace character: step past it. */
  method SkipRound(src: string, kw: KeywordTable, tokens: seq<Token>, current: nat) returns (current': nat)
    requires current < |src| && IsWhiteSpace(src[current])
    ensures current' == current + 1
    ensures Prepend(tokens, ScanFrom(src, current', kw)) == Prepend(tokens, ScanFrom(src, current, kw))
  {
    SkipStep(src, current, kw, tokens);
    return current + 1;
  }

  /** One round of the loop on a character that starts a token: append the
      token and step past it, or stop at a string literal that is never
      closed. */
  method TokenRound(src: string, kw: KeywordTable, tokens: seq<Token>, current: nat)
    returns (tokens': seq<Token>, current': nat, failure: Option<LexError>)
    requires current < |src| && !IsWhiteSpace(src[current])
    ensures current < current' <= |src|
    ensures failure.None? ==> Prepend(tokens', ScanFrom(src, current', kw)) == Prepend(tokens, ScanFrom(src, current, kw))
    ensures failure.Some? ==> Prepend(tokens, ScanFrom(src, current, kw)) == Err(failure.value)
  {
    var next := NextToken(src, current, kw);
    RoundStep(src, current, kw, tokens);
    if next.Err? {
      return tokens, current + 1, Some(next.error);
    }
    return tokens + [next.value.token], next.value.last + 1, None;
  }

  method TokenizeLoop(src: string, kw: KeywordTable) returns (r: Result<seq<Token>>)
    ensures r == Tokenize(src, kw)
    ensures r.Ok? ==> r.value[|r.value| - 1] == EofToken
  {
    var current: nat := 0;
    var tokens: seq<Token> := [];
    ghost var whole := ScanFrom(src, 0, kw);
    if whole.Ok? {
      assert [] + whole.value == whole.value;
    }
    while !IsEof(src, current)
      invariant current <= |src|
      invariant Prepend(tokens, ScanFrom(src, current, kw)) == Tokenize(src, kw)
      decreases |src| - current
    {
      if IsWhiteSpace(src[current]) {
        current := SkipRound(src, kw, tokens, current);
      } else {
        var failure;
        tokens, current, failure := TokenRound(src, kw, tokens, current);
        if failure.Some? {
          return Err(failure.value);
        }
      }
    }
    EndStep(src, current, kw, tokens);
    tokens := tokens + [EofToken];
    return Ok(tokens);
  }
}
