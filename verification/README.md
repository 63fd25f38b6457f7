# Kite lexer in Dafny

This project models the tokenizer of the Kite scripting language, the class
`Lexer` in `src/Lexer/Lexer.cs`. The lexer walks a source string with a
cursor (`Current`) and a one-character lookahead (`Peek`). It skips
whitespace and hands every other character to a dispatch (`NextToken`). The
dispatch builds one token: punctuation directly, and operators, string
literals, numbers and identifiers through small sub-scanners (`OnPlus`,
`OnString`, `OnNumber`, `OnLetter`, ...). The token list always ends with an
`Eof` sentinel.

The model is functional. The source is a `string`, the cursor is a `nat`
index, and each sub-scanner returns the token together with the index of the
last character it consumed (`Scanners.Lexed`). The C# `Advance()` after each
token is the `+ 1` past that index. `Lexer.ScanFrom` is the outer loop as a
recursive function, and `LexerLoop.TokenizeLoop` is the same loop written the
way the C# writes it, with a mutable cursor and token list. It is proved equal
to the recursive definition.

Modules, in dependency order:

- `Tokens`: token kinds, tokens, the keyword table type, the lexer error, and `Spelling` (how a token is written).
- `Chars`: ASCII character classes.
- `Cursor`: `Peek`, `IsEof`, and the skip-while loop shape the scanners share.
- `Scanners`: the sub-scanners.
- `Grammar`: an independent description of the tokens the lexer can emit, and `Unlex`, a printer that writes tokens back out separated by spaces.
- `Dispatch`: `NextToken`.
- `Lexer`: the outer loop.
- `LexerLoop`: the imperative loop.
- `Properties`: sentinel, whitespace and well-formedness facts about the output.
- `Relex`: `Tokenize` inverts `Unlex`.
- `StringLoop`: the string loop as written, with the 32-bit cursor (see Findings).
- `Examples`: worked inputs.

The main partner property pairs the lexer with the printer. Every list of
well-formed tokens, printed by `Unlex`, lexes back to the same list plus the
sentinel (`Relex.TokenizeUnlex`). `Properties.TokenizeWellFormed` shows the
lexer only emits well-formed tokens. Together they give stability: lexing,
printing and lexing again changes nothing (`Relex.TokenizeStable`).

A string literal that is never closed is the one place where the model
departs from the code on purpose. The loop at `src/Lexer/Lexer.cs:57-59`
never tests for the end of input, so it does not detect an unclosed literal
(see Findings). The model's string scanner reports `UnterminatedString(start)`
instead, and `StringLoop` keeps the loop as written for comparison.

## Model

| member | source | states |
|---|---|---|
| Cursor.Peek | src/Lexer/Lexer.cs:185-186 | The lookahead is the character after the cursor when there is one, and NUL when the cursor is on the last character or past it. |
| Scanners.PeekIsNext | src/Lexer/Lexer.cs:65-141 | The scanners' `Peek() == c` tests, for any `c` other than NUL, hold exactly when `c` is the next character. |
| Cursor.IsEof | src/Lexer/Lexer.cs:188 | The integer test `Current > Length - 1` holds exactly when the cursor is at or past the end. |
| Cursor.SkipWhile | src/Lexer/Lexer.cs:145-147 | The digit loop (and the identifier loops) stop at the first character of the class that is not in it, or at the end. Every character passed over is in the class. |
| Cursor.SkipWhileExact | src/Lexer/Lexer.cs:143-151 | The stopping point is unique: any end with only class characters before it and none at it is where the loop stops. This makes the number and identifier runs maximal. |
| Scanners.OnPlus | src/Lexer/Lexer.cs:92-104 | `+` followed by `+` is `Inc "++"`, followed by `=` is `CompoundBinOp "+="`, and otherwise `BinaryOp "+"`. The token's text is exactly the slice it consumed. |
| Scanners.OnMinus | src/Lexer/Lexer.cs:106-118 | `-` followed by `-` is `Dec "--"`, followed by `=` is `CompoundBinOp "-="`, and otherwise `BinaryOp "-"`. The text is the consumed slice. |
| Scanners.OnStar | src/Lexer/Lexer.cs:120-132 | `*` followed by `*` is `BinaryOp "**"`, followed by `=` is `CompoundBinOp "*="`, and otherwise `BinaryOp "*"`. The text is the consumed slice. |
| Scanners.OnEquals | src/Lexer/Lexer.cs:134-141 | `=` followed by `=` is `Equality "=="`, and otherwise `Assignment "="`. |
| Scanners.OnLessThan | src/Lexer/Lexer.cs:65-72 | `<` followed by `=` is `LessThanEq "<="`, and otherwise `LessThan "<"`. |
| Scanners.OnGreaterThan | src/Lexer/Lexer.cs:74-81 | `>` followed by `=` is `GreaterThanEq ">="`, and otherwise `GreaterThan ">"`. |
| Scanners.OnNot | src/Lexer/Lexer.cs:83-90 | `!` followed by `=` is `NotEqual "!="`. A bare `!` is a `Bad "!"` token. |
| Scanners.CloseQuote | src/Lexer/Lexer.cs:54-61 | The string loop finds the first quote after the opening one, or reports that no quote follows. |
| Scanners.CloseQuoteFinds | src/Lexer/Lexer.cs:57-59 | A quote with no quote between it and the opening one is the quote the loop finds. |
| Scanners.OnString | src/Lexer/Lexer.cs:54-63 | A closed literal gives a `String` token whose text is everything strictly between the quotes, with no quote in it, and the scanner stops on the closing quote. It fails with `UnterminatedString(start)` exactly when no quote follows the opening one. |
| Scanners.OnNumber | src/Lexer/Lexer.cs:143-151 | A number token is a non-empty run of digits equal to the consumed slice. The character after it is not a digit, or the input ends. |
| Scanners.OnLetter | src/Lexer/Lexer.cs:153-171 | An identifier-shaped lexeme runs as far as letters, digits and `_` go. It takes the keyword table's kind when the table holds it, and `Identifier` otherwise. |
| Dispatch.NextToken | src/Lexer/Lexer.cs:21-52 | The dispatch stays in bounds: the token's last index is at or after the cursor and before the end. It fails only on a quote with no quote after it. A space gives the internal `Space` token, and other whitespace falls through to `Bad`. Each remaining arm is pinned down by `DispatchPunctuation`, `DispatchOperator`, `DispatchQuote`, `DispatchDigit`, `DispatchLetter` and `DispatchStray`. |
| Dispatch.DispatchPunctuation | src/Lexer/Lexer.cs:25-36 | Each of `( ) { } , ;` gives its own one-character kind (LeftParen, RightParen, LeftBrace, RightBrace, Comma, SemiColon), and each of `/`, `%`, `&`, `^` and the vertical bar gives a one-character BinaryOp. Each ends where it started, whatever follows. |
| Dispatch.DispatchOperator | src/Lexer/Lexer.cs:32-42 | Each of `+ - * ! > < =` hands over to its own scanner (OnPlus, OnMinus, OnStar, OnNot, OnGreaterThan, OnLessThan, OnEquals), so those scanners' greedy two-character rules are what the dispatch returns. |
| Dispatch.DispatchStray | src/Lexer/Lexer.cs:50 | A character with no arm of its own, such as `.` or `@`, gives the one-character `Bad` token of that character, ending where it started. |
| Dispatch.NextTokenConsumes | src/Lexer/Lexer.cs:21-52 | Every token carries exactly the source slice it consumed, inside the quotes for a string literal. |
| Dispatch.NextTokenWellFormed | src/Lexer/Lexer.cs:21-52 | Started on anything but whitespace, the dispatch returns a token of the independent grammar in `Grammar.WellFormed`. |
| Lexer.ScanFrom | src/Lexer/Lexer.cs:9-19 | From any cursor, the scan yields at most one token per remaining character plus one. It ends with the sentinel, or fails on a string literal that opens at or after the cursor and never closes. When it fails is stated exactly by `Properties.ScanFromParity`. |
| Lexer.Tokenize | src/Lexer/Lexer.cs:9-19 | The token list is non-empty and ends with the `Eof` sentinel. A failure names a literal that never closes. `Properties.TokenizeParity` states exactly which inputs fail. |
| LexerLoop.SkipRound | src/Lexer/Lexer.cs:174-181 | A whitespace round advances the cursor by one and does not change what the loop will produce. |
| LexerLoop.TokenRound | src/Lexer/Lexer.cs:13-14 | A token round strictly advances the cursor within bounds and moves exactly the next token onto the list. A round that reports an error reports the error the scan from that cursor fails with. |
| LexerLoop.TokenizeLoop | src/Lexer/Lexer.cs:9-19 | The imperative loop, with its cursor and growing list, returns exactly what the recursive `Tokenize` returns. Its list ends with the sentinel. |
| Properties.TokenizeWellFormed | src/Lexer/Lexer.cs:9-52 | Every token before the sentinel is well formed. |
| Properties.SentinelOnlyAtEnd | src/Lexer/Lexer.cs:9-19 | With a keyword table that never hands out `Eof` or `Space`, `Eof` is the last token and only the last one, and no `Space` token appears. |
| Properties.ScanFromBlank | src/Lexer/Lexer.cs:9-19 | The scan from a cursor yields the sentinel alone exactly when only whitespace is left from there. |
| Properties.BlankInput | src/Lexer/Lexer.cs:9-19 | The empty input and whitespace-only inputs, and only those, lex to the sentinel alone. |
| Properties.ScanFromParity | src/Lexer/Lexer.cs:9-63 | The scan from a cursor fails exactly when an odd number of double quotes is left from there. A string literal takes its quotes in pairs, and no other token contains one. |
| Properties.TokenizeParity | src/Lexer/Lexer.cs:9-63 | Lexing fails exactly on a source with an odd number of double quotes, counted as the multiplicity of `'"'` in the source's multiset. |
| Relex.RelexToken | src/Lexer/Lexer.cs:21-171 | Every well-formed token written out and followed by a space is the very token the dispatch returns there, ending on its last character. |
| Relex.UnlexPrinted | src/Lexer/Lexer.cs:9-19 | A printed token list lays each token out, followed by a space, one after the other to the end of the text. |
| Relex.RelexFrom | src/Lexer/Lexer.cs:9-19 | Printed well-formed tokens scan back to themselves, followed by the sentinel. |
| Relex.TokenizeUnlex | src/Lexer/Lexer.cs:9-171 | For every list of well-formed tokens, lexing its printed form gives back the list plus the sentinel. |
| Relex.TokenizeStable | src/Lexer/Lexer.cs:9-171 | Lexing is stable: printing a successful result and lexing it again gives the same tokens. |
| StringLoop.QuoteLoopAsWritten | src/Lexer/Lexer.cs:57-61 | The loop as written, with the 32-bit cursor. It returns `Closed(e)` with `e` the index of the first quote after the opener, or `OutOfRange(int.MinValue)`, the index whose read throws. It ends out of range only when no quote follows the opener in a source of at most `int.MaxValue` characters. |
| StringLoop.Inc32 | src/Lexer/Lexer.cs:58 | `Current++` on a C# `int` gives the value in the `int` range that is congruent to `Current + 1` modulo 2^32, so `int.MaxValue` steps to `int.MinValue`. |
| StringLoop.Peek32 | src/Lexer/Lexer.cs:185-186 | With the 32-bit cursor, `Peek` answers what the unbounded `Cursor.Peek` answers below `int.MaxValue`. At `int.MaxValue` the index `Current + 1` wraps to `int.MinValue`, which is below `Source.Length`, and the read throws. |
| StringLoop.UnterminatedOverflows | src/Lexer/Lexer.cs:57-59 | With no quote after the cursor, the loop as written steps the cursor up to `int.MaxValue` and ends in the read at `int.MinValue`, which throws `IndexOutOfRangeException`. |
| StringLoop.UnterminatedThrows | src/Lexer/Lexer.cs:54-63 | On the literal `"abc` at the end of the input, the loop as written ends only in the out-of-range read at `int.MinValue`. |
| StringLoop.LoopFindsQuote | src/Lexer/Lexer.cs:57-61 | With a first quote after the cursor, the loop as written stops with the cursor on it. |
| StringLoop.LoopMatchesClose | src/Lexer/Lexer.cs:57-61 | The loop as written stops on the quote the corrected `CloseQuote` finds when there is one, and ends in the out-of-range read when there is none. |
| StringLoop.UnterminatedIsError | src/Lexer/Lexer.cs:54-63 | The corrected scanner fails on exactly the literals on which the loop as written ends in the out-of-range read, and otherwise stops where that loop stops. |
| Examples.SumExample | src/Lexer/Lexer.cs:21-52 | `1+2` lexes to `Number "1"`, `BinaryOp "+"`, `Number "2"`, `Eof`. |
| Examples.IncrementExample | src/Lexer/Lexer.cs:92-96 | `++` lexes to one `Inc` token. |
| Examples.TwoPlusExample | src/Lexer/Lexer.cs:92-104 | `+ +` lexes to two `BinaryOp "+"` tokens. |
| Examples.PowerAssignExample | src/Lexer/Lexer.cs:120-141 | `**=` lexes to `BinaryOp "**"` then `Assignment "="`: no operator is longer than two characters. |
| Examples.KeywordExample | src/Lexer/Lexer.cs:166-168 | `if` lexes to the keyword kind the table gives it. |
| Examples.KeywordPrefixExample | src/Lexer/Lexer.cs:166-170 | `ifx` lexes to `Identifier "ifx"`: keywords are matched as whole lexemes. |
| Examples.StringExample | src/Lexer/Lexer.cs:54-63 | `"hi"` lexes to `String "hi"`. |
| Examples.UnterminatedExample | src/Lexer/Lexer.cs:54-63 | `x "ab` fails with `UnterminatedString(2)`, naming where the literal opens. |
| Examples.DecimalExample | src/Lexer/Lexer.cs:143-151 | `3.14` lexes to `Number "3"`, `Bad "."`, `Number "14"`. |
| Examples.BangExample | src/Lexer/Lexer.cs:83-90 | `a!b` lexes to `Identifier "a"`, `Bad "!"`, `Identifier "b"`. |

## Left out

- `Print` (src/Lexer/Lexer.cs:190-193) only writes to the console.
- Character classes are ASCII approximations of .NET's `char.IsDigit`, `char.IsLetter` and `char.IsWhiteSpace`. Digits are `0`-`9`, letters are `a`-`z` and `A`-`Z`, and whitespace is space plus tab through carriage return. Other Unicode digits, letters and spaces are not modelled.
- `Current` is a 32-bit `int` in the source. Outside `StringLoop` the model uses an unbounded `nat`. This matters only in the string loop, which `StringLoop` models with the 32-bit cursor. Elsewhere the cursor never exceeds `Source.Length`, which is at most `int.MaxValue`, so no increment there can wrap.
- `Token`, `TokenType` and `Token.Keywords` are not part of this model. Token kinds are declared from the constructors `Lexer.cs` uses. The reserved words become one `Keyword(word)` kind, and the keyword table is a parameter of type `map<string, TokenType>`.
- Properties that rely on the table never handing out `Eof` or `Space` take that as a precondition (`ValidKeywords`). `Tokenize` itself takes any table.
- The lexer object's mutable fields are not modelled. Each `Tokenize` runs on a fresh lexer. Calling the C# `Tokenize` twice on one object would append a second sentinel to the same list.
- `Advance` has no member of its own. It is the `+ 1` that moves the cursor past a token (`next.last + 1` in `Lexer.ScanFrom` and `LexerLoop.TokenRound`), and the `+ 1` in `LexerLoop.SkipRound`.
- The `' '` arm of the dispatch (src/Lexer/Lexer.cs:49) is modelled in `Dispatch.NextToken`, but the outer loop never reaches it because whitespace is skipped first.
- The string loop's failure on an unclosed literal is modelled as the `UnterminatedString` error. The loop as written, which ends in an out-of-range read at `int.MinValue`, is kept in `StringLoop` (see Findings). `StringLoop` assumes C#'s default unchecked arithmetic. Under checked arithmetic, `Current + 1` in `Peek` would throw `OverflowException` at `int.MaxValue` instead.
- Source text is a sequence of Dafny `char`s, which are Unicode scalar values. A C# `string` is a sequence of UTF-16 code units. A character outside the Basic Multilingual Plane, such as an emoji outside a string literal, is one `Bad` token in the model but two `Bad` tokens in C#, one per surrogate half. Lone surrogates, which a C# string may hold, cannot be written in the model at all.

## Findings

| source | as written | input that shows it | evidently intended | confidence | as-written member | corrected member |
|---|---|---|---|---|---|---|
| src/Lexer/Lexer.cs:57-59 | `while (Peek() != '"') Current++;` never tests for the end of input, and `Peek` answers `'\0'` past the end. On a literal that is not closed, the loop runs `Current` up to `int.MaxValue`. Then `Current + 1` wraps to `int.MinValue` and `Source[int.MinValue]` throws `IndexOutOfRangeException` | `"abc` | stop at the end of input and report the literal as unterminated | high, derived by proof, not executed | StringLoop.QuoteLoopAsWritten, StringLoop.UnterminatedThrows | Scanners.OnString |
