/** Character classes the lexer dispatches on, as ASCII approximations of
    .NET's `char.IsDigit`, `char.IsLetter` and `char.IsWhiteSpace`. */
module Chars {

  predicate IsDigit(c: char) {
    '0' <= c <= '9'
  }

  predicate IsLetter(c: char) {
    'a' <= c <= 'z' || 'A' <= c <= 'Z'
  }

  /** Space, and tab through carriage return (`\t \n \v \f \r`). */
  predicate IsWhiteSpace(c: char) {
    c == ' ' || '\t' <= c <= '\r'
  }

  /** Characters that may continue an identifier. */
  predicate IsIdentChar(c: char) {
    IsLetter(c) || IsDigit(c) || c == '_'
  }

  /** Characters that have an arm of their own in the dispatch. */
  predicate IsDispatchChar(c: char) {
    || c == '(' || c == ')' || c == '{' || c == '}' || c == ',' || c == ';'
    || c == '+' || c == '-' || c == '*' || c == '/' || c == '%'
    || c == '&' || c == '|' || c == '^'
    || c == '!' || c == '<' || c == '>' || c == '=' || c == '"'
  }

  /** A non-empty run of digits: the shape of a number lexeme. */
  predicate IsDigitRun(s: string) {
    |s| > 0 && forall k :: 0 <= k < |s| ==> IsDigit(s[k])
  }

  /** A letter followed by letters, digits or underscores: the shape of an
      identifier or keyword lexeme. */
  predicate IsIdentShaped(s: string) {
    |s| > 0 && IsLetter(s[0]) && forall k :: 0 <= k < |s| ==> IsIdentChar(s[k])
  }

  /** Digits, letters, whitespace and the dispatch punctuation are pairwise
      disjoint, so the order of the dispatch arms only matters for `' '`. */
  lemma ClassesDisjoint(c: char)
    ensures IsDigit(c) ==> !IsLetter(c) && !IsWhiteSpace(c) && !IsDispatchChar(c)
    ensures IsLetter(c) ==> !IsWhiteSpace(c) && !IsDispatchChar(c)
    ensures IsWhiteSpace(c) ==> !IsDispatchChar(c)
  {
  }

  /** An identifier-shaped lexeme has no double quote in it. */
  lemma IdentShapedUnquoted(s: string)
    requires IsIdentShaped(s)
    ensures '"' !in s
  {
    forall k | 0 <= k < |s|
      ensures s[k] != '"'
    {
      assert IsIdentChar(s[k]);
    }
  }
}
