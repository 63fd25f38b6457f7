/** Properties of the token list that `Tokenize` returns. */
module Properties {
  import opened Tokens
  import opened Chars
  import opened Scanners
  import opened Grammar
  import opened Dispatch
  import opened Lexer

  /** Every token before the sentinel belongs to the token grammar. */
  lemma {:induction false} ScanFromWellFormed(src: string, cur: nat, kw: KeywordTable)
    requires cur <= |src| && ScanFrom(src, cur, kw).Ok?
    ensures BodyWellFormed(ScanFrom(src, cur, kw).value, kw)
    decreases |src| - cur
  {
    if cur == |src| {
    } else if IsWhiteSpace(src[cur]) {
      ScanFromWellFormed(src, cur + 1, kw);
    } else {
      var after := TokenWellFormedStep(src, cur, kw);
      ScanFromWellFormed(src, after, kw);
    }
  }

  /** The token the scan takes at `cur` is well formed, so the whole scan is
      once the scan from just past the token is. */
  lemma TokenWellFormedStep(src: string, cur: nat, kw: KeywordTable) returns (after: nat)
    requires cur < |src| && !IsWhiteSpace(src[cur]) && ScanFrom(src, cur, kw).Ok?
    ensures cur < after <= |src| && ScanFrom(src, after, kw).Ok?
    ensures BodyWellFormed(ScanFrom(src, after, kw).value, kw) ==> BodyWellFormed(ScanFrom(src, cur, kw).value, kw)
  {
    ScanFromCons(src, cur, kw);
    var next := NextToken(src, cur, kw).value;
    NextTokenWellFormed(src, cur, kw);
    after := next.last + 1;
    if BodyWellFormed(ScanFrom(src, after, kw).value, kw) {
      ConsBodyWellFormed(next.token, ScanFrom(src, after, kw).value, ScanFrom(src, cur, kw).value, kw);
    }
  }

  lemma TokenizeWellFormed(src: string, kw: KeywordTable)
    requires Tokenize(src, kw).Ok?
    ensures BodyWellFormed(Tokenize(src, kw).value, kw)
  {
    ScanFromWellFormed(src, 0, kw);
  }

  /** The sentinel is the last token and no other token is the sentinel or a
      whitespace token, provided the keyword table hands out neither kind. */
  lemma SentinelOnlyAtEnd(src: string, kw: KeywordTable)
    requires ValidKeywords(kw) && Tokenize(src, kw).Ok?
    ensures var ts := Tokenize(src, kw).value;
      forall k :: 0 <= k < |ts| ==> (ts[k].kind == Eof <==> k == |ts| - 1)
    ensures var ts := Tokenize(src, kw).value;
      forall k :: 0 <= k < |ts| ==> ts[k].kind != Space
  {
    var ts := Tokenize(src, kw).value;
    TokenizeWellFormed(src, kw);
    forall k | 0 <= k < |ts| - 1
      ensures ts[k].kind != Eof && ts[k].kind != Space
    {
      WellFormedIsNotMarker(ts[k], kw);
    }
  }

  /** The scan from `cur` yields the sentinel alone exactly when only
      whitespace is left. */
  lemma {:induction false} ScanFromBlank(src: string, cur: nat, kw: KeywordTable)
    requires cur <= |src|
    ensures ScanFrom(src, cur, kw) == Ok([EofToken]) <==> forall k :: cur <= k < |src| ==> IsWhiteSpace(src[k])
    decreases |src| - cur
  {
    if cur == |src| {
    } else if IsWhiteSpace(src[cur]) {
      ScanFromBlank(src, cur + 1, kw);
    } else {
      var next := NextToken(src, cur, kw);
      if next.Ok? {
        var rest := ScanFrom(src, next.value.last + 1, kw);
        assert rest.Ok? ==> |[next.value.token] + rest.value| >= 2;
      }
    }
  }

  /** Whitespace-only input, the empty input included, yields the sentinel
      alone, and no other input does. */
  lemma BlankInput(src: string, kw: KeywordTable)
    ensures Tokenize(src, kw) == Ok([EofToken]) <==> forall k :: 0 <= k < |src| ==> IsWhiteSpace(src[k])
  {
    ScanFromBlank(src, 0, kw);
  }

  /** The scan from `cur` fails exactly when an odd number of double quotes
      is left: a string literal takes its quotes in pairs, no other token
      contains one, and the scan fails on a quote with none after it. */
  lemma {:induction false} ScanFromParity(src: string, cur: nat, kw: KeywordTable)
    requires cur <= |src|
    ensures ScanFrom(src, cur, kw).Err? <==> Quotes(src[cur..]) % 2 == 1
    decreases |src| - cur
  {
    if cur == |src| {
      assert src[cur..] == [];
    } else if IsWhiteSpace(src[cur]) {
      SkipBlank(src, cur, kw);
      BlankQuotes(src, cur);
      ScanFromParity(src, cur + 1, kw);
    } else {
      match NextToken(src, cur, kw)
      case Err(_) =>
        ErrorRoundScan(src, cur, kw);
        UnclosedQuotes(src, cur);
      case Ok(Lexed(t, e)) =>
        TokenRoundScan(src, cur, kw, t, e);
        TokenRoundQuotes(src, cur, kw, t, e);
        ScanFromParity(src, e + 1, kw);
    }
  }

  /** Lexing fails exactly on a source with an odd number of double quotes. */
  lemma TokenizeParity(src: string, kw: KeywordTable)
    ensures Tokenize(src, kw).Err? <==> multiset(src)['"'] % 2 == 1
  {
    ScanFromParity(src, 0, kw);
    assert src[0..] == src;
    QuotesMultiset(src);
  }

  /** The number of double quotes in `s`. */
  function Quotes(s: string): nat {
    if |s| == 0 then 0 else (if s[0] == '"' then 1 else 0) + Quotes(s[1..])
  }

  /** `Quotes` counts the quote's occurrences. */
  lemma {:induction false} QuotesMultiset(s: string)
    ensures Quotes(s) == multiset(s)['"']
  {
    if |s| > 0 {
      assert s == [s[0]] + s[1..];
      QuotesMultiset(s[1..]);
    }
  }

  /** The quotes of a concatenation are those of its parts. */
  lemma {:induction false} QuotesAppend(a: string, b: string)
    ensures Quotes(a + b) == Quotes(a) + Quotes(b)
  {
    if |a| == 0 {
      assert a + b == b;
    } else {
      assert (a + b)[0] == a[0];
      assert (a + b)[1..] == a[1..] + b;
      QuotesAppend(a[1..], b);
    }
  }

  /** A text without a quote counts none. */
  lemma {:induction false} QuotesNone(s: string)
    requires '"' !in s
    ensures Quotes(s) == 0
  {
    if |s| > 0 {
      assert s[0] != '"';
      QuotesNone(s[1..]);
    }
  }

  /** The quotes of a suffix are those of its two parts. */
  lemma QuotesSplit(src: string, a: nat, b: nat)
    requires a <= b <= |src|
    ensures Quotes(src[a..]) == Quotes(src[a..b]) + Quotes(src[b..])
  {
    assert src[a..] == src[a..b] + src[b..];
    QuotesAppend(src[a..b], src[b..]);
  }

  /** A whitespace character is not a quote. */
  lemma BlankQuotes(src: string, cur: nat)
    requires cur < |src| && IsWhiteSpace(src[cur])
    ensures Quotes(src[cur..]) == Quotes(src[cur + 1..])
  {
    assert src[cur..][1..] == src[cur + 1..];
  }

  /** A quote with no quote after it is the last quote of the source. */
  lemma UnclosedQuotes(src: string, cur: nat)
    requires cur < |src| && src[cur] == '"' && NoQuote(src, cur + 1, |src|)
    ensures Quotes(src[cur..]) == 1
  {
    assert src[cur..][1..] == src[cur + 1..];
    QuotesNone(src[cur + 1..]);
  }

  /** A failed dispatch fails the scan. */
  lemma ErrorRoundScan(src: string, cur: nat, kw: KeywordTable)
    requires cur < |src| && NextToken(src, cur, kw).Err?
    ensures ScanFrom(src, cur, kw).Err?
    ensures src[cur] == '"' && NoQuote(src, cur + 1, |src|)
  {
    ScanFromToken(src, cur, kw);
  }

  /** After a token, the scan fails exactly when the rest of it does. */
  lemma TokenRoundScan(src: string, cur: nat, kw: KeywordTable, t: Token, e: nat)
    requires cur < |src| && !IsWhiteSpace(src[cur]) && NextToken(src, cur, kw) == Ok(Lexed(t, e))
    ensures e + 1 <= |src| && (ScanFrom(src, cur, kw).Err? <==> ScanFrom(src, e + 1, kw).Err?)
  {
    ScanFromStep(src, cur, kw, t, e);
  }

  /** A token takes an even number of quotes. */
  lemma TokenRoundQuotes(src: string, cur: nat, kw: KeywordTable, t: Token, e: nat)
    requires cur < |src| && !IsWhiteSpace(src[cur]) && NextToken(src, cur, kw) == Ok(Lexed(t, e))
    ensures e + 1 <= |src| && Quotes(src[cur..]) % 2 == Quotes(src[e + 1..]) % 2
  {
    TokenShape(src, cur, kw, t, e);
    ShapeParity(src, cur, e);
  }

  /** Where the quotes of `src[cur..e + 1]` are: at both ends of a string
      literal and nowhere between, or nowhere at all. */
  predicate QuoteShape(src: string, cur: nat, e: nat) {
    cur <= e < |src| &&
    if src[cur] == '"' then cur < e && src[e] == '"' && NoQuote(src, cur + 1, e)
    else NoQuote(src, cur, e + 1)
  }

  /** The characters the dispatch consumed for one token have the quote
      shape of a token. */
  lemma TokenShape(src: string, cur: nat, kw: KeywordTable, t: Token, e: nat)
    requires cur < |src| && !IsWhiteSpace(src[cur]) && NextToken(src, cur, kw) == Ok(Lexed(t, e))
    ensures QuoteShape(src, cur, e)
  {
    if src[cur] == '"' {
      DispatchQuote(src, cur, kw);
      StringCloses(src, cur);
    } else {
      var l := TokenTaken(src, cur, kw);
      ConsumedNoQuote(src, cur, l);
    }
  }

  /** A string literal closes on a quote after the one that opens it, with
      no quote between. */
  lemma StringCloses(src: string, cur: nat)
    requires cur < |src| && src[cur] == '"' && OnString(src, cur).Ok?
    ensures QuoteShape(src, cur, OnString(src, cur).value.last)
  {
  }

  /** The token the dispatch returns, which carries the slice it consumed
      and no quote. */
  lemma TokenTaken(src: string, cur: nat, kw: KeywordTable) returns (l: Lexed)
    requires cur < |src| && !IsWhiteSpace(src[cur]) && NextToken(src, cur, kw).Ok?
    ensures NextToken(src, cur, kw) == Ok(l)
    ensures Consumes(src, cur, l) && '"' !in l.token.text
  {
    l := NextToken(src, cur, kw).value;
    NextTokenConsumes(src, cur, kw);
    NextTokenUnquoted(src, cur, kw);
  }

  /** No token the dispatch returns has a quote in its text. */
  lemma NextTokenUnquoted(src: string, cur: nat, kw: KeywordTable)
    requires cur < |src| && !IsWhiteSpace(src[cur]) && NextToken(src, cur, kw).Ok?
    ensures '"' !in NextToken(src, cur, kw).value.token.text
  {
    NextTokenWellFormed(src, cur, kw);
    WellFormedUnquoted(NextToken(src, cur, kw).value.token, kw);
  }

  /** A token not opened by a quote consumed no quote. */
  lemma ConsumedNoQuote(src: string, cur: nat, l: Lexed)
    requires Consumes(src, cur, l) && '"' !in l.token.text && src[cur] != '"'
    ensures NoQuote(src, cur, l.last + 1)
  {
    forall k | cur <= k < l.last + 1
      ensures src[k] != '"'
    {
      assert src[k] == l.token.text[k - cur];
    }
  }

  /** Stepping past a token's characters keeps the parity of the quotes
      ahead. */
  lemma ShapeParity(src: string, cur: nat, e: nat)
    requires QuoteShape(src, cur, e)
    ensures Quotes(src[cur..]) % 2 == Quotes(src[e + 1..]) % 2
  {
    var s := src[cur..e + 1];
    if src[cur] == '"' {
      var inner := src[cur + 1..e];
      assert s == [src[cur]] + inner + [src[e]];
      assert '"' !in inner;
      QuotesNone(inner);
      QuotesAppend([src[cur]], inner);
      QuotesAppend([src[cur]] + inner, [src[e]]);
    } else {
      assert '"' !in s;
      QuotesNone(s);
    }
    QuotesSplit(src, cur, e + 1);
  }
}
