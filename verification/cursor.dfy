/** The lexer's cursor: an index into the source that only moves forward. */
module Cursor {

  /** What `Peek` answers past the end of the source. */
  const NUL: char := '\0'

  /** One-character lookahead: the character after `cur`, or NUL past the end. */
  function Peek(src: string, cur: nat): (c: char)
    ensures cur + 1 < |src| ==> c == src[cur + 1]
    ensures cur + 1 >= |src| ==> c == NUL
  {
    if cur + 1 < |src| then src[cur + 1] else NUL
  }

  /** End of input, written with the source's integer comparison. */
  function IsEof(src: string, cur: int): (r: bool)
    ensures r <==> cur >= |src|
  {
    cur > |src| - 1
  }

  /** The loop `while (!IsEof() && p(Source[Current])) Advance();`: the index
      where the run of `p`-characters that starts at `from` ends. */
  function SkipWhile(src: string, from: nat, p: char -> bool): (r: nat)
    requires from <= |src|
    ensures from <= r <= |src|
    ensures forall k :: from <= k < r ==> p(src[k])
    ensures r == |src| || !p(src[r])
    decreases |src| - from
  {
    if IsEof(src, from) || !p(src[from]) then from else SkipWhile(src, from + 1, p)
  }

  /** The run found by `SkipWhile` is the only maximal one: any `end` with
      only `p`-characters before it and none at it is where the loop stops. */
  lemma SkipWhileExact(src: string, from: nat, p: char -> bool, end: nat)
    requires from <= end <= |src|
    requires forall k :: from <= k < end ==> p(src[k])
    requires end == |src| || !p(src[end])
    ensures SkipWhile(src, from, p) == end
  {
  }
}
