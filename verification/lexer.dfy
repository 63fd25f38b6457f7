/** The outer scan loop of the lexer. The one-round equations of `ScanFrom`
    (`ScanFromToken`, `ScanFromStep`, `ScanFromStepTo`, `ScanFromCons`,
    `SkipStep`, `SkipBlank`, `SkipBlankTo`) state the same recursion in the
    shapes their callers need: each keeps the proof obligation that uses it
    from unfolding the whole dispatch. */
module Lexer {
  import opened Tokens
  import opened Chars
  import opened Cursor
  import opened Scanners
  import opened Dispatch

  /** The scan loop from `cur` on: skip whitespace, take one token from the
      dispatch, step past its last character, and close with the sentinel. */
  function ScanFrom(src: string, cur: nat, kw: KeywordTable): (r: Result<seq<Token>>)
    requires cur <= |src|
    ensures r.Ok? ==> 1 <= |r.value| <= |src| - cur + 1
    ensures r.Ok? ==> r.value[|r.value| - 1] == EofToken
    ensures r.Err? ==> Unterminated(src, cur, r.error.start)
    decreases |src| - cur
  {
    if IsEof(src, cur) then Ok([EofToken])
    else if IsWhiteSpace(src[cur]) then ScanFrom(src, cur + 1, kw)
    else
      var next := NextToken(src, cur, kw);
      if next.Err? then Err(next.error)
      else
        var rest := ScanFrom(src, next.value.last + 1, kw);
        if rest.Err? then rest else Ok([next.value.token] + rest.value)
  }

  /** `ts` followed by the tokens of `r`, or the error of `r`. */
  function Prepend(ts: seq<Token>, r: Result<seq<Token>>): Result<seq<Token>> {
    match r
    case Ok(rest) => Ok(ts + rest)
    case Err(e) => Err(e)
  }

  /** Tokenizes a whole source text. */
  function Tokenize(src: string, kw: KeywordTable): (r: Result<seq<Token>>)
    ensures r.Ok? ==> |r.value| >= 1 && r.value[|r.value| - 1] == EofToken
    ensures r.Err? ==> Unterminated(src, 0, r.error.start)
  {
    ScanFrom(src, 0, kw)
  }

  /** Skipping a whitespace character does not change what is left to scan. */
  lemma SkipStep(src: string, cur: nat, kw: KeywordTable, tokens: seq<Token>)
    requires cur < |src| && IsWhiteSpace(src[cur])
    ensures Prepend(tokens, ScanFrom(src, cur + 1, kw)) == Prepend(tokens, ScanFrom(src, cur, kw))
  {
  }

  /** A whitespace character contributes nothing to the scan. */
  lemma SkipBlank(src: string, cur: nat, kw: KeywordTable)
    requires cur < |src| && IsWhiteSpace(src[cur])
    ensures ScanFrom(src, cur, kw) == ScanFrom(src, cur + 1, kw)
  {
  }

  /** One round of the scan loop on a character that starts a token. */
  lemma ScanFromToken(src: string, cur: nat, kw: KeywordTable)
    requires cur < |src| && !IsWhiteSpace(src[cur])
    ensures ScanFrom(src, cur, kw) ==
      var next := NextToken(src, cur, kw);
      if next.Err? then Err(next.error)
      else
        var rest := ScanFrom(src, next.value.last + 1, kw);
        if rest.Err? then rest else Ok([next.value.token] + rest.value)
  {
  }

  /** A token the dispatch takes is the head of the scan from its first
      character, whatever the rest of the scan yields. */
  lemma ScanFromStep(src: string, cur: nat, kw: KeywordTable, t: Token, e: nat)
    requires cur < |src| && !IsWhiteSpace(src[cur]) && NextToken(src, cur, kw) == Ok(Lexed(t, e))
    ensures e + 1 <= |src|
    ensures ScanFrom(src, cur, kw) == Prepend([t], ScanFrom(src, e + 1, kw))
  {
    ScanFromToken(src, cur, kw);
    RoundResult(NextToken(src, cur, kw), Lexed(t, e), ScanFrom(src, e + 1, kw), ScanFrom(src, cur, kw));
  }

  /** The scan depends on the position only. A proof calls this to equate
      two `ScanFrom` terms whose positions are written differently, without
      unfolding either. */
  lemma ScanAt(src: string, a: nat, b: nat, kw: KeywordTable)
    requires a == b <= |src|
    ensures ScanFrom(src, a, kw) == ScanFrom(src, b, kw)
  {
  }

  /** `ScanFromStep`, with the position just past the token named `next`. */
  lemma ScanFromStepTo(src: string, cur: nat, kw: KeywordTable, t: Token, e: nat, next: nat)
    requires cur < |src| && !IsWhiteSpace(src[cur]) && NextToken(src, cur, kw) == Ok(Lexed(t, e))
    requires next == e + 1
    ensures next <= |src|
    ensures ScanFrom(src, cur, kw) == Prepend([t], ScanFrom(src, next, kw))
  {
    ScanFromStep(src, cur, kw, t, e);
    ScanAt(src, e + 1, next, kw);
  }

  /** `SkipBlank`, with the position after the blank named `next`. */
  lemma SkipBlankTo(src: string, cur: nat, next: nat, kw: KeywordTable)
    requires cur < |src| && IsWhiteSpace(src[cur]) && next == cur + 1
    ensures ScanFrom(src, cur, kw) == ScanFrom(src, next, kw)
  {
    SkipBlank(src, cur, kw);
    ScanAt(src, cur + 1, next, kw);
  }

  /** The result of a scan round whose token is `l`. */
  lemma RoundResult(next: Result<Lexed>, l: Lexed, rest: Result<seq<Token>>, whole: Result<seq<Token>>)
    requires next == Ok(l)
    requires whole == if next.Err? then Err(next.error) else if rest.Err? then rest else Ok([next.value.token] + rest.value)
    ensures whole == Prepend([l.token], rest)
  {
  }

  /** A successful scan from a character that starts a token is that token
      followed by the successful scan from just past it. */
  lemma ScanFromCons(src: string, cur: nat, kw: KeywordTable)
    requires cur < |src| && !IsWhiteSpace(src[cur]) && ScanFrom(src, cur, kw).Ok?
    ensures NextToken(src, cur, kw).Ok?
    ensures ScanFrom(src, NextToken(src, cur, kw).value.last + 1, kw).Ok?
    ensures ScanFrom(src, cur, kw).value
      == [NextToken(src, cur, kw).value.token] + ScanFrom(src, NextToken(src, cur, kw).value.last + 1, kw).value
  {
    ScanFromToken(src, cur, kw);
  }
}
