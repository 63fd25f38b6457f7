/** The closing-quote loop of the string scanner as the C# lexer writes it,
    `while (Peek() != '"') Current++;`, with `Current` a 32-bit `int` in the
    default unchecked context. Past the end of the source `Peek` answers NUL,
    so the loop does not stop at the end of input. On a literal that is not
    closed it steps the cursor up to `int.MaxValue`; there `Current + 1` wraps
    to `int.MinValue`, which is below `Source.Length`, and `Peek` reads
    `Source[int.MinValue]`, which throws. */
module StringLoop {
  import opened Cursor
  import opened Scanners

  /** `int.MaxValue` and `int.MinValue`. */
  const IntMax: int := 0x7FFF_FFFF
  const IntMin: int := -0x8000_0000

  /** `x + 1` on a C# `int`: the value in the `int` range that is congruent
      to `x + 1` modulo 2^32. */
  function Inc32(x: int): (r: int)
    requires IntMin <= x <= IntMax
    ensures IntMin <= r <= IntMax && (x + 1 - r) % 0x1_0000_0000 == 0
  {
    if x == IntMax then IntMin else x + 1
  }

  /** What `Peek` does with a 32-bit cursor: the character it answers, or the
      negative index whose read throws `IndexOutOfRangeException`. */
  datatype Peeked = Read(c: char) | Throws(index: int)

  function Peek32(src: string, cur: int): (r: Peeked)
    requires 0 <= cur <= IntMax
    ensures cur < IntMax ==> r == Read(Peek(src, cur))
    ensures cur == IntMax ==> r == Throws(IntMin)
  {
    var next := Inc32(cur);
    if next < |src| then (if next < 0 then Throws(next) else Read(src[next]))
    else Read(NUL)
  }

  /** How the loop ends: `Current` after the `Current++` that follows it,
      which is the index of the closing quote, or the index whose read
      throws. */
  datatype Exit = Closed(current: int) | OutOfRange(index: int)

  /** `while (Peek() != '"') Current++;` followed by `Current++`, started with
      the cursor on the opening quote. */
  function QuoteLoopAsWritten(src: string, cur: int): (r: Exit)
    requires 0 <= cur <= IntMax
    ensures r.Closed? ==> cur < r.current < |src| && src[r.current] == '"' && NoQuote(src, cur + 1, r.current)
    ensures r.OutOfRange? ==> r.index == IntMin && (|src| <= IntMax ==> NoQuote(src, cur + 1, |src|))
    decreases IntMax - cur
  {
    match Peek32(src, cur)
    case Throws(i) => OutOfRange(i)
    case Read(c) =>
      if c == '"' then Closed(Inc32(cur)) else QuoteLoopAsWritten(src, Inc32(cur))
  }

  /** With no quote after the cursor, the loop runs the cursor up to
      `int.MaxValue` and then reads at `int.MinValue`. */
  lemma {:induction false} UnterminatedOverflows(src: string, cur: int)
    requires 0 <= cur <= IntMax && NoQuote(src, cur + 1, |src|)
    ensures QuoteLoopAsWritten(src, cur) == OutOfRange(IntMin)
    decreases IntMax - cur
  {
    if cur < IntMax {
      UnterminatedOverflows(src, cur + 1);
    }
  }

  /** The literal `"abc` at the end of the input: the loop is left only by the
      read at `int.MinValue`, which throws. */
  lemma UnterminatedThrows(src: string)
    requires src == "\"abc"
    ensures QuoteLoopAsWritten(src, 0) == OutOfRange(IntMin)
  {
    UnterminatedOverflows(src, 0);
  }

  /** With the quote at `e` the first one after the cursor, the loop stops
      with the cursor on it. A C# string is at most `int.MaxValue` long. */
  lemma {:induction false} LoopFindsQuote(src: string, cur: nat, e: nat)
    requires cur < e < |src| <= IntMax && src[e] == '"' && NoQuote(src, cur + 1, e)
    ensures QuoteLoopAsWritten(src, cur) == Closed(e)
    decreases e - cur
  {
    if cur + 1 < e {
      LoopFindsQuote(src, cur + 1, e);
    }
  }

  /** The loop as written against `CloseQuote`: it stops on the closing quote
      when there is one, and otherwise throws at `int.MinValue`. */
  lemma LoopMatchesClose(src: string, cur: nat)
    requires cur < |src| <= IntMax
    ensures CloseQuote(src, cur).Some? ==> QuoteLoopAsWritten(src, cur) == Closed(CloseQuote(src, cur).value)
    ensures CloseQuote(src, cur).None? ==> QuoteLoopAsWritten(src, cur) == OutOfRange(IntMin)
  {
    match CloseQuote(src, cur)
    case Some(e) => LoopFindsQuote(src, cur, e);
    case None => UnterminatedOverflows(src, cur);
  }

  /** The corrected scanner fails on exactly the literals on which the loop as
      written ends in the out-of-range read, and otherwise stops where the
      loop does. */
  lemma UnterminatedIsError(src: string, cur: nat)
    requires cur < |src| <= IntMax && src[cur] == '"'
    ensures OnString(src, cur).Err? <==> QuoteLoopAsWritten(src, cur).OutOfRange?
    ensures OnString(src, cur).Ok? ==> QuoteLoopAsWritten(src, cur) == Closed(OnString(src, cur).value.last)
  {
    LoopMatchesClose(src, cur);
  }
}
