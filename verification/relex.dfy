/** Re-lexing printed tokens: every token of the grammar, written out by
    `Unlex`, scans back to itself, so `Tokenize` inverts `Unlex` on
    well-formed token lists. */
module Relex {
  import opened Tokens
  import opened Chars
  import opened Cursor
  import opened Scanners
  import opened Grammar
  import opened Dispatch
  import opened Lexer
  import opened Properties

  /** `s` is written at `cur` and followed by one space. */
  predicate Placed(src: string, cur: nat, s: string) {
    && cur + |s| < |src|
    && src[cur + |s|] == ' '
    && src[cur..cur + |s|] == s
  }

  /** Each character of a placed text sits at its offset from `cur`. */
  lemma PlacedAt(src: string, cur: nat, s: string)
    requires Placed(src, cur, s)
    ensures forall k :: 0 <= k < |s| ==> src[cur + k] == s[k]
  {
    forall k | 0 <= k < |s|
      ensures src[cur + k] == s[k]
    {
      assert src[cur..cur + |s|][k] == src[cur + k];
    }
  }

  /** A number lexeme is scanned back to exactly itself: the space after it
      ends the digit run. */
  lemma NumberScan(src: string, cur: nat, t: Token)
    requires t.kind == Number && IsDigitRun(t.text) && Placed(src, cur, t.text)
    ensures IsDigit(src[cur]) && OnNumber(src, cur) == Lexed(t, cur + |t.text| - 1)
  {
    var n := |t.text|;
    PlacedAt(src, cur, t.text);
    assert forall k :: cur <= k < cur + n ==> src[k] == t.text[k - cur];
    SkipWhileExact(src, cur, IsDigit, cur + n);
  }

  lemma RelexNumber(src: string, cur: nat, t: Token, kw: KeywordTable)
    requires t.kind == Number && IsDigitRun(t.text) && Placed(src, cur, t.text)
    ensures NextToken(src, cur, kw) == Ok(Lexed(t, cur + |t.text| - 1))
  {
    NumberScan(src, cur, t);
    DispatchDigit(src, cur, kw);
  }

  /** An identifier-shaped lexeme is scanned back to itself and classified
      by the same keyword table lookup. */
  lemma WordScan(src: string, cur: nat, t: Token, kw: KeywordTable)
    requires IsIdentShaped(t.text) && Placed(src, cur, t.text)
    requires if t.text in kw then t.kind == kw[t.text] else t.kind == Identifier
    ensures IsLetter(src[cur]) && OnLetter(src, cur, kw) == Lexed(t, cur + |t.text| - 1)
  {
    var n := |t.text|;
    PlacedAt(src, cur, t.text);
    assert forall k :: cur <= k < cur + n ==> src[k] == t.text[k - cur];
    SkipWhileExact(src, cur, IsIdentChar, cur + n);
  }

  lemma RelexWord(src: string, cur: nat, t: Token, kw: KeywordTable)
    requires IsIdentShaped(t.text) && Placed(src, cur, t.text)
    requires if t.text in kw then t.kind == kw[t.text] else t.kind == Identifier
    ensures NextToken(src, cur, kw) == Ok(Lexed(t, cur + |t.text| - 1))
  {
    WordScan(src, cur, t, kw);
    DispatchLetter(src, cur, kw);
  }

  /** Where a placed string literal's quotes and characters sit. */
  lemma QuotedText(src: string, cur: nat, t: Token)
    requires t.kind == String && Placed(src, cur, Spelling(t))
    ensures cur + |t.text| + 1 < |src| && |Spelling(t)| == |t.text| + 2
    ensures src[cur] == '"' && src[cur + |t.text| + 1] == '"'
    ensures forall k :: 0 <= k < |t.text| ==> src[cur + 1 + k] == t.text[k]
  {
    var s := Spelling(t);
    forall k | 0 <= k < |t.text|
      ensures src[cur + 1 + k] == t.text[k]
    {
      assert s[1 + k] == t.text[k];
    }
    assert src[cur] == s[0];
    assert src[cur + |t.text| + 1] == s[|t.text| + 1];
  }

  /** The closing quote the string loop finds is the one after the text. */
  lemma StringClose(src: string, cur: nat, t: Token)
    requires t.kind == String && '"' !in t.text && Placed(src, cur, Spelling(t))
    ensures cur + |t.text| + 1 < |src| && |Spelling(t)| == |t.text| + 2
    ensures src[cur] == '"' && CloseQuote(src, cur) == Some(cur + |t.text| + 1)
  {
    var e := cur + |t.text| + 1;
    QuotedText(src, cur, t);
    forall k | cur + 1 <= k < e
      ensures src[k] != '"'
    {
      assert src[k] == t.text[k - cur - 1];
    }
    CloseQuoteFinds(src, cur, e);
  }

  /** The text between a placed literal's quotes is the token's text. */
  lemma StringSlice(src: string, cur: nat, t: Token)
    requires t.kind == String && Placed(src, cur, Spelling(t))
    ensures cur + |t.text| + 1 < |src| && src[cur + 1..cur + |t.text| + 1] == t.text
  {
    QuotedText(src, cur, t);
    var w := src[cur + 1..cur + |t.text| + 1];
    assert forall k :: 0 <= k < |w| ==> w[k] == t.text[k];
  }

  /** The string scanner takes the text up to the closing quote it finds. */
  lemma StringScan(src: string, cur: nat, e: nat)
    requires cur < e < |src| && src[cur] == '"' && CloseQuote(src, cur) == Some(e)
    ensures OnString(src, cur) == Ok(Lexed(Token(String, src[cur + 1..e]), e))
  {
  }

  /** A string literal without a quote inside, printed, scans back to itself. */
  lemma RelexString(src: string, cur: nat, t: Token, kw: KeywordTable)
    requires t.kind == String && '"' !in t.text && Placed(src, cur, Spelling(t))
    ensures NextToken(src, cur, kw) == Ok(Lexed(t, cur + |Spelling(t)| - 1))
  {
    StringClose(src, cur, t);
    StringSlice(src, cur, t);
    StringScan(src, cur, cur + |t.text| + 1);
    DispatchQuote(src, cur, kw);
  }

  /** A one-character unrecognized token comes back as itself, a bare `!`
      included, since a space follows it. */
  lemma RelexStray(src: string, cur: nat, t: Token, kw: KeywordTable)
    requires t.kind == Bad && |t.text| == 1 && IsStrayChar(t.text[0]) && Placed(src, cur, t.text)
    ensures NextToken(src, cur, kw) == Ok(Lexed(t, cur))
  {
    assert t.text == [src[cur]];
  }

  /** Punctuation and operators spelled with their first character. */
  lemma RelexSingle(src: string, cur: nat, t: Token, kw: KeywordTable)
    requires IsFixed(t) && Placed(src, cur, t.text)
    requires var c := t.text[0];
      c == '(' || c == ')' || c == '{' || c == '}' || c == ',' || c == ';' || c == '/' || c == '%' || c == '&' || c == '|' || c == '^'
    ensures NextToken(src, cur, kw) == Ok(Lexed(t, cur))
  {
  }

  /** Operators are one or two characters long, so the lookahead sees their
      second character or the space after a one-character operator. */
  lemma FixedLookahead(src: string, cur: nat, t: Token)
    requires IsFixed(t) && Placed(src, cur, t.text)
    ensures 1 <= |t.text| <= 2 && src[cur] == t.text[0]
    ensures Peek(src, cur) == if |t.text| == 2 then t.text[1] else ' '
  {
  }

  lemma RelexArithmetic(src: string, cur: nat, t: Token, kw: KeywordTable)
    requires IsFixed(t) && Placed(src, cur, t.text)
    requires var c := t.text[0]; c == '+' || c == '-' || c == '*'
    ensures NextToken(src, cur, kw) == Ok(Lexed(t, cur + |t.text| - 1))
  {
    FixedLookahead(src, cur, t);
    if t.text[0] == '+' {
      RelexPlus(src, cur, t, kw);
    } else if t.text[0] == '-' {
      RelexMinus(src, cur, t, kw);
    } else {
      RelexStar(src, cur, t, kw);
    }
  }

  lemma RelexPlus(src: string, cur: nat, t: Token, kw: KeywordTable)
    requires IsFixed(t) && Placed(src, cur, t.text) && t.text[0] == '+'
    ensures NextToken(src, cur, kw) == Ok(Lexed(t, cur + |t.text| - 1))
  {
    FixedLookahead(src, cur, t);
    assert NextToken(src, cur, kw) == Ok(OnPlus(src, cur));
  }

  lemma RelexMinus(src: string, cur: nat, t: Token, kw: KeywordTable)
    requires IsFixed(t) && Placed(src, cur, t.text) && t.text[0] == '-'
    ensures NextToken(src, cur, kw) == Ok(Lexed(t, cur + |t.text| - 1))
  {
    FixedLookahead(src, cur, t);
    assert NextToken(src, cur, kw) == Ok(OnMinus(src, cur));
  }

  lemma RelexStar(src: string, cur: nat, t: Token, kw: KeywordTable)
    requires IsFixed(t) && Placed(src, cur, t.text) && t.text[0] == '*'
    ensures NextToken(src, cur, kw) == Ok(Lexed(t, cur + |t.text| - 1))
  {
    FixedLookahead(src, cur, t);
    assert NextToken(src, cur, kw) == Ok(OnStar(src, cur));
  }

  lemma RelexComparison(src: string, cur: nat, t: Token, kw: KeywordTable)
    requires IsFixed(t) && Placed(src, cur, t.text)
    requires var c := t.text[0]; c == '!' || c == '<' || c == '>' || c == '='
    ensures NextToken(src, cur, kw) == Ok(Lexed(t, cur + |t.text| - 1))
  {
    var c := t.text[0];
    if c == '<' || c == '>' {
      RelexOrdering(src, cur, t, kw);
    } else {
      RelexEquality(src, cur, t, kw);
    }
  }

  lemma RelexOrdering(src: string, cur: nat, t: Token, kw: KeywordTable)
    requires IsFixed(t) && Placed(src, cur, t.text) && (t.text[0] == '<' || t.text[0] == '>')
    ensures NextToken(src, cur, kw) == Ok(Lexed(t, cur + |t.text| - 1))
  {
    FixedLookahead(src, cur, t);
    if t.text[0] == '<' {
      assert NextToken(src, cur, kw) == Ok(OnLessThan(src, cur));
    } else {
      assert NextToken(src, cur, kw) == Ok(OnGreaterThan(src, cur));
    }
  }

  lemma RelexEquality(src: string, cur: nat, t: Token, kw: KeywordTable)
    requires IsFixed(t) && Placed(src, cur, t.text) && (t.text[0] == '!' || t.text[0] == '=')
    ensures NextToken(src, cur, kw) == Ok(Lexed(t, cur + |t.text| - 1))
  {
    FixedLookahead(src, cur, t);
    if t.text[0] == '!' {
      assert NextToken(src, cur, kw) == Ok(OnNot(src, cur));
    } else {
      assert NextToken(src, cur, kw) == Ok(OnEquals(src, cur));
    }
  }

  /** A punctuation or operator token, printed, scans back to itself. */
  lemma RelexFixed(src: string, cur: nat, t: Token, kw: KeywordTable)
    requires IsFixed(t) && Placed(src, cur, t.text)
    ensures NextToken(src, cur, kw) == Ok(Lexed(t, cur + |t.text| - 1))
  {
    var c := t.text[0];
    if c == '+' || c == '-' || c == '*' {
      RelexArithmetic(src, cur, t, kw);
    } else if c == '!' || c == '<' || c == '>' || c == '=' {
      RelexComparison(src, cur, t, kw);
    } else {
      RelexSingle(src, cur, t, kw);
    }
  }

  /** Every token of the grammar, printed with a space after it, is the
      token the dispatch returns there, ending on its last character. */
  lemma RelexToken(src: string, cur: nat, t: Token, kw: KeywordTable)
    requires WellFormed(t, kw) && Placed(src, cur, Spelling(t))
    ensures NextToken(src, cur, kw) == Ok(Lexed(t, cur + |Spelling(t)| - 1))
  {
    if t.kind == String {
      if IsIdentShaped(t.text) {
        IdentShapedUnquoted(t.text);
      }
      RelexString(src, cur, t, kw);
    } else if IsIdentShaped(t.text) {
      RelexWord(src, cur, t, kw);
    } else if IsFixed(t) {
      RelexFixed(src, cur, t, kw);
    } else if t.kind == Number {
      RelexNumber(src, cur, t, kw);
    } else {
      RelexStray(src, cur, t, kw);
    }
  }

  /** A scanned token followed by whitespace: the scan is that token, then
      the scan from past the whitespace character. */
  lemma ScanAfterToken(src: string, cur: nat, kw: KeywordTable, t: Token, n: nat)
    requires 1 <= n && cur + n < |src| && !IsWhiteSpace(src[cur]) && IsWhiteSpace(src[cur + n])
    requires NextToken(src, cur, kw) == Ok(Lexed(t, cur + n - 1))
    ensures ScanFrom(src, cur, kw) == Prepend([t], ScanFrom(src, cur + n + 1, kw))
  {
    ScanFromStepTo(src, cur, kw, t, cur + n - 1, cur + n);
    SkipBlankTo(src, cur + n, cur + n + 1, kw);
  }

  /** `ts` is printed from `cur` to the end of `src`, each token followed
      by one space. */
  predicate Printed(src: string, cur: nat, ts: seq<Token>)
    decreases |ts|
  {
    if |ts| == 0 then cur == |src|
    else Placed(src, cur, Spelling(ts[0])) && Printed(src, cur + |Spelling(ts[0])| + 1, ts[1..])
  }

  /** The text `Unlex` writes is a printing of its tokens. */
  lemma {:induction false} UnlexPrinted(src: string, cur: nat, ts: seq<Token>)
    requires cur <= |src| && src[cur..] == Unlex(ts)
    ensures Printed(src, cur, ts)
    decreases |ts|
  {
    if |ts| > 0 {
      UnlexFirst(src, cur, ts);
      UnlexPrinted(src, cur + |Spelling(ts[0])| + 1, ts[1..]);
    }
  }

  /** The first token of an unlexed list is placed at the start, and the
      rest are unlexed just past the space after it. */
  lemma UnlexFirst(src: string, cur: nat, ts: seq<Token>)
    requires |ts| > 0 && cur <= |src| && src[cur..] == Unlex(ts)
    ensures Placed(src, cur, Spelling(ts[0]))
    ensures cur + |Spelling(ts[0])| + 1 <= |src|
    ensures src[cur + |Spelling(ts[0])| + 1..] == Unlex(ts[1..])
  {
    var s := Spelling(ts[0]);
    var u := src[cur..];
    assert u == s + " " + Unlex(ts[1..]);
    assert src[cur..cur + |s|] == u[..|s|] == s;
    assert u[|s|] == ' ';
    assert src[cur + |s| + 1..] == u[|s| + 1..];
  }

  /** The first of several printed tokens: it is well formed and placed,
      and the rest are printed just past the space after it. */
  lemma PrintedFirst(src: string, cur: nat, ts: seq<Token>, kw: KeywordTable) returns (next: nat)
    requires |ts| > 0 && AllWellFormed(ts, kw) && Printed(src, cur, ts)
    ensures WellFormed(ts[0], kw) && Placed(src, cur, Spelling(ts[0]))
    ensures next == cur + |Spelling(ts[0])| + 1
    ensures AllWellFormed(ts[1..], kw) && Printed(src, next, ts[1..])
  {
    next := cur + |Spelling(ts[0])| + 1;
    AllWellFormedTail(ts, kw);
  }

  /** Well-formedness of every token splits into the head and the tail. */
  lemma AllWellFormedTail(ts: seq<Token>, kw: KeywordTable)
    requires |ts| > 0 && AllWellFormed(ts, kw)
    ensures WellFormed(ts[0], kw) && AllWellFormed(ts[1..], kw)
  {
    assert forall k :: 0 <= k < |ts| - 1 ==> ts[1..][k] == ts[k + 1];
  }

  /** A printed token starts on a non-blank character and the space after
      it is whitespace. */
  lemma PlacedEnds(src: string, cur: nat, t: Token, kw: KeywordTable)
    requires WellFormed(t, kw) && Placed(src, cur, Spelling(t))
    ensures cur + |Spelling(t)| < |src|
    ensures !IsWhiteSpace(src[cur]) && IsWhiteSpace(src[cur + |Spelling(t)|])
  {
    SpellingStartsToken(t, kw);
    assert src[cur] == Spelling(t)[0];
  }

  /** A printed token is what the dispatch takes at its first character,
      and whitespace follows it. */
  lemma RelexHead(src: string, cur: nat, t: Token, kw: KeywordTable)
    requires WellFormed(t, kw) && Placed(src, cur, Spelling(t))
    ensures 1 <= |Spelling(t)| && cur + |Spelling(t)| < |src|
    ensures !IsWhiteSpace(src[cur]) && IsWhiteSpace(src[cur + |Spelling(t)|])
    ensures NextToken(src, cur, kw) == Ok(Lexed(t, cur + |Spelling(t)| - 1))
  {
    PlacedEnds(src, cur, t, kw);
    RelexToken(src, cur, t, kw);
  }

  /** Printed well-formed tokens, wherever they sit, scan back to the same
      tokens and the sentinel. */
  lemma {:induction false} RelexFrom(src: string, cur: nat, ts: seq<Token>, kw: KeywordTable)
    requires AllWellFormed(ts, kw) && Printed(src, cur, ts)
    ensures ScanFrom(src, cur, kw) == Ok(ts + [EofToken])
    decreases |ts|
  {
    if |ts| == 0 {
      assert ts + [EofToken] == [EofToken];
    } else {
      var next := PrintedFirst(src, cur, ts, kw);
      RelexHead(src, cur, ts[0], kw);
      ScanAfterToken(src, cur, kw, ts[0], |Spelling(ts[0])|);
      RelexFrom(src, next, ts[1..], kw);
      ConsScan(ts, ScanFrom(src, next, kw), ScanFrom(src, cur, kw));
    }
  }

  /** The first token put in front of the scan of the rest. */
  lemma ConsScan(ts: seq<Token>, rest: Result<seq<Token>>, whole: Result<seq<Token>>)
    requires |ts| > 0 && rest == Ok(ts[1..] + [EofToken]) && whole == Prepend([ts[0]], rest)
    ensures whole == Ok(ts + [EofToken])
  {
    assert [ts[0]] + (ts[1..] + [EofToken]) == ts + [EofToken];
  }

  /** `Tokenize` inverts `Unlex`: printing well-formed tokens and scanning
      the text gives the tokens back, followed by the sentinel. */
  lemma TokenizeUnlex(ts: seq<Token>, kw: KeywordTable)
    requires AllWellFormed(ts, kw)
    ensures Tokenize(Unlex(ts), kw) == Ok(ts + [EofToken])
  {
    var src := Unlex(ts);
    assert src[0..] == src;
    UnlexPrinted(src, 0, ts);
    RelexFrom(src, 0, ts, kw);
  }

  /** Printing what a scan returned and scanning that again gives the same
      token list: the scanner's output is a fixed point of printing. */
  lemma TokenizeStable(src: string, kw: KeywordTable)
    requires Tokenize(src, kw).Ok?
    ensures var ts := Tokenize(src, kw).value;
      Tokenize(Unlex(ts[..|ts| - 1]), kw) == Ok(ts)
  {
    var ts := Tokenize(src, kw).value;
    TokenizeWellFormed(src, kw);
    BodyTokens(ts, kw);
    TokenizeUnlex(ts[..|ts| - 1], kw);
  }

  /** The tokens before a closing sentinel are well formed one by one, and
      putting the sentinel back gives the whole sequence again. */
  lemma BodyTokens(ts: seq<Token>, kw: KeywordTable)
    requires |ts| > 0 && BodyWellFormed(ts, kw) && ts[|ts| - 1] == EofToken
    ensures AllWellFormed(ts[..|ts| - 1], kw) && ts[..|ts| - 1] + [EofToken] == ts
  {
    var body := ts[..|ts| - 1];
    forall k | 0 <= k < |body|
      ensures WellFormed(body[k], kw)
    {
      assert body[k] == ts[k];
    }
    assert body + [EofToken] == ts;
  }
}
