# csh-json-parser in Dafny

A model of the C# JSON library csh-json-parser: the recursive-descent
`Parser` (a cursor `current` over a UTF-16 `source` string) and the
`Serializer` skeleton (a cursor over the value to write and an accumulating
`result` string), with proofs of what each operation does.

Layout:

- `utf16.dfy` (`Utf16`): C# `char` as a 16-bit `CodeUnit`, the code units the
  parser compares against, `char.IsAsciiDigit` and `char.IsAsciiHexDigit`.
- `json_model.dfy` (`JsonModel`): the values `ParseAny` returns (`null`,
  boxed `bool`, `string`, `List<object?>`), the exceptions it throws
  (`ParseException` with its messages, the `IndexOutOfRangeException` of
  reading past the end, `NotImplementedException`), and the `Result`/`Step`
  outcomes.
- `parser_spec.dfy` (`ParserSpec`): each parser method as a function of
  (text, cursor) that returns the value and the new cursor, or the exception.
- `parser.dfy` (`JsonParser.Parser`): the parser as a class whose methods move
  `current` step by step with the loops of the C# code; each method is
  proved to compute what its `ParserSpec` function says, from the cursor it
  starts at.
- `parser_properties.dfy`, `array_properties.dfy`, `string_properties.dfy`:
  what the cursor primitives, literals, arrays, strings and `\u` escapes
  promise, proved about the `ParserSpec` functions.
- `printer.dfy` (`JsonPrinter`) and `roundtrip.dfy` (`RoundTrip`): a
  reference printer that is not part of the library (its serializer writes
  only `null` and booleans), used as an independent partner of the parser:
  every value the parser can build is printed as text that the parser reads
  back as that value, whatever text follows it.
- `serializer.dfy` (`JsonSerializer`): the type dispatch and the emitters of
  the serializer, with the run-time type of a value as a closed tag.

## Model

| member | source | states |
|---|---|---|
| JsonParser.Parser.Advance | Parser.cs:170-173 | the cursor moves one code unit forward, and not at all at the end of the input |
| JsonParser.Parser.IsAtEnd | Parser.cs:174-176 | true exactly when the cursor is at or past the end of the input |
| JsonParser.Parser.Peek | Parser.cs:177-179 | the code unit at the cursor, or the out-of-range exception at the end of the input |
| JsonParser.Parser.Match | Parser.cs:156-158 | whether the code unit at the cursor is one of the targets; reading it at the end throws out-of-range |
| JsonParser.Parser.SkipWhitespace | Parser.cs:153-155 | the loop leaves the cursor where `ParserSpec.SkipWhitespaceAt` says, or throws as it says |
| JsonParser.Parser.MatchWord | Parser.cs:159-169 | the outcome and final cursor are those of `ParserSpec.MatchWordAt` |
| JsonParser.Parser.Literal | Parser.cs:147-152 | the outcome and final cursor are those of `ParserSpec.LiteralAt` |
| JsonParser.Parser.Value | Parser.cs:16-36 | the outcome and final cursor are those of `ParserSpec.ValueAt` |
| JsonParser.Parser.Object | Parser.cs:37-39 | always throws not-implemented |
| JsonParser.Parser.Array | Parser.cs:40-69 | the element loop computes `ParserSpec.ArrayAt`: the elements and the cursor after ']', or the exception |
| JsonParser.Parser.String | Parser.cs:70-124 | the scanning loop computes `ParserSpec.StringAt`: the text and the cursor after the closing quote, or the exception |
| JsonParser.Parser.Unicode | Parser.cs:125-143 | the four-digit loop computes `ParserSpec.UnicodeAt`: the code unit and the cursor after the digits, or the exception |
| JsonParser.Parser.Number | Parser.cs:144-146 | always throws not-implemented |
| JsonParser.Parser.ParseAny | Parser.cs:11-15 | the result and the cursor it leaves are those of `ParserSpec.ParseAnyAt` from the cursor it starts at, which it does not reset |
| JsonParser.Parser.constructor | Parser.cs:1-10 | a parser over the given text with the cursor at 0 |
| Utf16.AsciiDigitClasses | Parser.cs:23 | the digit test Value makes on the peeked code unit accepts the ten decimal digits and nothing else; the hex test of Unicode (Parser.cs:134) accepts those and 'A'-'F', 'a'-'f', and nothing else |
| JsonModel.MessageText | Parser.cs:32-135 | each ParseException text is non-empty, and the unexpected-token (line 32) and unexpected-escape (line 104) texts contain the code unit they report; the others are the texts of lines 61, 78/130 and 135 |
| ParserSpec.Advanced | Parser.cs:170-173 | the cursor after Advance is one further, but stays at the end of the input once there |
| ParserSpec.SkipWhitespaceAt | Parser.cs:153-155 | when it returns, the cursor has not moved back and stands on a code unit that is not space, LF, CR or tab; otherwise it threw out-of-range |
| ParserSpec.MatchLettersAt | Parser.cs:161-168 | the loop of MatchWord, once some letters matched: on a match the cursor is after the whole word, which the text holds there; on a mismatch it is back at the start; otherwise it threw out-of-range |
| ParserSpec.MatchWordAt | Parser.cs:159-169 | on a match the cursor advanced by the word's length over exactly the word; on a mismatch the cursor is back at the start; otherwise it threw out-of-range |
| ParserSpec.LiteralAt | Parser.cs:147-152 | a returned literal spans exactly its keyword's text; the only exception is out-of-range |
| ParserSpec.ValueAt | Parser.cs:16-17 | at the end of the input Peek throws out-of-range; a value read moves the cursor strictly forward, never past the end |
| ParserSpec.ValueStartingWith | Parser.cs:18-34 | the branch on the peeked code unit (object, array, string, number, literal) reads a value only by moving the cursor strictly forward, never past the end |
| RoundTrip.LiteralValueOutcome | Parser.cs:27-33 | for a keyword Literal found, Value returns the null or bool printed as that keyword, with the cursor after it; for no keyword, the unexpected-token error naming the peeked code unit; Literal's out-of-range passes through |
| ParserSpec.ArrayAt | Parser.cs:40-49 | a returned array leaves the cursor strictly forward of the '[', never past the end |
| ParserSpec.ElementsAt | Parser.cs:51-66 | the element loop only appends to the elements read before it and moves the cursor forward |
| ParserSpec.StringAt | Parser.cs:70-75 | a returned string leaves the cursor strictly forward of the opening quote, never past the end |
| ParserSpec.CharsAt | Parser.cs:76-123 | the string loop only appends to the text read before it and moves the cursor forward |
| ParserSpec.HexDigitsAt | Parser.cs:128-140 | on success the digits are the next 4 - n code units after those already read, all hex digits |
| ParserSpec.HexNumber | Parser.cs:141 | n hex digits spell a number below 16 to the n |
| ParserSpec.UnicodeAt | Parser.cs:125-143 | on success the cursor is exactly four code units past the one after the 'u' |
| ParserSpec.ParseAnyAt | Parser.cs:11-15 | an empty remaining input throws out-of-range; a returned value and the cursor after it are what Value reads at a code unit at or after the cursor that is not whitespace, strictly forward and never past the end |
| ParserSpec.ElementsAfterValue | Parser.cs:52-62 | after an element and whitespace, ']' closes the array with that element appended and ',' is required otherwise |
| ParserSpec.ElementsAfterComma | Parser.cs:60-66 | after ',' and whitespace the loop goes on with the next element |
| ParserSpec.ElementsAfterTrailingComma | Parser.cs:64-65 | a ',' followed only by whitespace throws out-of-range |
| ParserProperties.SkipWhitespaceStopsAtFirstNonWhitespace | Parser.cs:153-155 | SkipWhitespace stops at j exactly when j is the first code unit from the cursor that is not whitespace |
| ParserProperties.SkipWhitespaceFailsOnWhitespaceTail | Parser.cs:153-158 | SkipWhitespace throws out-of-range exactly when only whitespace is left, since Match peeks before it checks IsAtEnd |
| ParserProperties.MatchWordRollsBack | Parser.cs:159-169 | MatchWord matches exactly when the input continues with the word, throws exactly when the input ends inside a partial match, and otherwise fails with the cursor restored |
| ParserProperties.LiteralCharacterized | Parser.cs:147-152 | true, false and null are each recognised exactly when the input continues with them; out-of-range exactly when the input ends within a prefix of one; invalid, with the cursor unchanged, in every other case |
| ParserProperties.ValueRejectsUnexpectedToken | Parser.cs:27-33 | a code unit that starts no object, array, string, number or keyword gives the unexpected-token error naming that code unit, and only then |
| ParserProperties.ParseAnyReadsFirstValue | Parser.cs:11-15 | ParseAny returns exactly what Value returns at the first code unit from the cursor that is not whitespace |
| ParserProperties.ParseAnyOnWhitespaceOnly | Parser.cs:11-15 | with only whitespace (or nothing) left, ParseAny throws out-of-range |
| ArrayProperties.ArrayEmptyExactly | Parser.cs:43-49 | Array returns the empty list exactly when '[' is followed by whitespace and ']', with the cursor after it |
| ArrayProperties.ArrayElementsInSourceOrder | Parser.cs:40-69 | a non-empty result is the values read one after another from the text, separated by ',' and whitespace and closed by ']', in source order |
| ArrayProperties.ArrayLayoutParses | Parser.cs:40-69 | conversely, text laid out that way parses to exactly those values, with the cursor after ']' |
| ArrayProperties.ElementsNeedCommaBetween | Parser.cs:60-62 | a code unit after an element that is neither ',' nor ']' gives the expected-comma error |
| StringProperties.StringCopiesPlainRun | Parser.cs:116-122 | code units other than quote and backslash are appended as they are |
| StringProperties.StringSkipsLeadingWhitespace | Parser.cs:71-72 | whitespace right after the opening quote is dropped; an opening quote followed only by whitespace throws out-of-range |
| StringProperties.PlainStringRead | Parser.cs:70-124 | a string without escapes reads as the text up to the first quote, which is consumed; without a closing quote the end of input gives the unexpected-end error |
| StringProperties.EscapeStep | Parser.cs:83-106 | at a backslash anywhere in a string, whatever text was read before it: each of `" \ / b f n r t` after it is appended as that same letter and scanning goes on after both, 'u' appends the code unit Unicode reads and goes on after its digits or throws as Unicode does, and any other letter gives the unexpected-escape error naming it |
| StringProperties.EscapeLetterKeptVerbatim | Parser.cs:83-106 | the whole string `"\e"`, whatever text follows it, as a corollary of EscapeStep: for each of `" \ / b f n r t` it reads as the one-letter text e with the cursor after the closing quote, for 'u' it gives the non-hex-digit error at that quote, and for any other letter the unexpected-escape error |
| StringProperties.HexDigitsClosedForm | Parser.cs:128-140 | the digit loop succeeds exactly when enough hex digits follow, gives unexpected-end exactly when the input ends among hex digits, and the non-hex error otherwise |
| StringProperties.UnicodeReadsFourHexDigits | Parser.cs:125-143 | \u succeeds exactly when four hex digits follow, returns the code unit they spell and consumes them; the end of input and a non-hex digit give their two errors |
| JsonPrinter.HexEncodeRoundTrip | Parser.cs:141-142 | reading back the hex digits of a number that fits in them gives that number |
| RoundTrip.UnicodeRoundTrip | Parser.cs:125-143 | \u followed by the four hex digits of any code unit reads back as that code unit |
| RoundTrip.CharsOfEscaped | Parser.cs:76-123 | the string loop reads an escaped text up to its closing quote back as the text |
| RoundTrip.StringRoundTrip | Parser.cs:70-124 | a string literal printed for a text reads back as that text, whatever follows it |
| RoundTrip.ValueRoundTrip | Parser.cs:16-36 | a printed value reads back as that value, with the cursor just after its text, whatever follows it |
| RoundTrip.ArrayRoundTrip | Parser.cs:40-69 | a printed array reads back as its elements |
| RoundTrip.ElementsRoundTrip | Parser.cs:51-66 | printed elements and ']' read back as those elements, appended in order |
| RoundTrip.ParseAnyReadsPrinted | Parser.cs:11-15 | from any cursor, ParseAny reads back a printed value that follows only whitespace, ignores whatever follows it, and leaves the cursor just after the value |
| RoundTrip.ParseAnyRoundTrip | Parser.cs:11-15 | ParseAny reads back any printed value after leading whitespace, ignores whatever follows it, and leaves the cursor just after the value |
| RoundTrip.ParseAnyResumes | Parser.cs:10-15 | a second ParseAny on the same parser goes on from where the first stopped: on a text holding two printed values, each after whitespace, the first call returns the first value and leaves the cursor after it, and the second call returns the second value |
| RoundTrip.SerializedLiteralParsesBack | Serializer.cs:29-38 | the text the serializer writes for null and for a bool parses back as that value, consuming the whole text |
| JsonSerializer.IsNumericType | Serializer.cs:51-58 | true exactly for the eleven numeric types |
| JsonSerializer.TypeOf | Serializer.cs:15-16 | the run-time type of a non-null value is bool exactly when the value is a boxed bool |
| JsonSerializer.NumericTypesAreEleven | Serializer.cs:51-58 | there are exactly eleven numeric types, and none is bool, char, string, an array type or a class |
| JsonSerializer.Dispatch | Serializer.cs:11-28 | each value reaches exactly one emitter: null, bool, array, numeric and string values their own, everything else Object |
| JsonSerializer.Emitted | Serializer.cs:11-50 | null appends "null", a bool "true" or "false" after its value, and every other value nothing |
| JsonSerializer.Serializer.constructor | Serializer.cs:1-4 | the cursor starts at the source and the output is empty |
| JsonSerializer.Serializer.Serialize | Serializer.cs:5-10 | resets the cursor to the source and the output to empty, and returns the text written for the source |
| JsonSerializer.Serializer.Value | Serializer.cs:11-28 | the emitter it calls is the one `Dispatch` picks, and the output grows by exactly the text written for the current value |
| JsonSerializer.Serializer.Null | Serializer.cs:29-31 | appends "null" |
| JsonSerializer.Serializer.Boolean | Serializer.cs:32-38 | appends "true" or "false" after the current bool |
| JsonSerializer.Serializer.Array | Serializer.cs:39-41 | appends nothing |
| JsonSerializer.Serializer.Number | Serializer.cs:42-44 | appends nothing |
| JsonSerializer.Serializer.Object | Serializer.cs:45-47 | appends nothing |
| JsonSerializer.Serializer.String | Serializer.cs:48-50 | appends nothing |
| JsonSerializer.SerializeIsRepeatable | Serializer.cs:5-10 | two calls of Serialize return the same text, whatever the first left behind |

Where the code departs from RFC 8259, the model follows the code:

- After a backslash the letters `" \ / b f n r t` are kept as those letters
  (`"\n"` reads as the letter n), not decoded to control characters.
- `String` skips whitespace right after the opening quote, so leading spaces
  of a string are dropped.
- `SkipWhitespace` calls `Match`, which peeks before it checks `IsAtEnd`, so
  whitespace running to the end of the input (and an empty input) throws the
  out-of-range exception of reading past the end rather than reporting an
  unexpected end; the same holds for a keyword cut short (`tru`).
- `ParseAny` reads one value and ignores whatever text follows it.
- Objects and numbers are not parsed: `{` and a digit or `-` throw
  not-implemented, and the serializer writes nothing for arrays, numbers,
  strings and objects.

## Left out

- `JSON.cs`, a facade with no logic of its own: `JSON.ParseAny` returns
  null for a null text and otherwise hands the text to `Parser`;
  `JSON.Serialize` hands its argument, null included, straight to
  `Serializer`.
- `Console.WriteLine(source)` in `ParseAny`: output only, it does not affect
  the result.
- Object and number parsing, which throw `NotImplementedException`; they are
  modelled as that outcome only.
- Run-time reflection in the serializer (`GetType`, `IsArray`, `typeof`
  comparisons): replaced by the closed tag `JsonSerializer.RuntimeType`,
  with every class other than bool, char, string, the numeric types and arrays
  as `ClassType(name)`.
- Floating-point values: `Number()` returns `float` but never produces one.
- Exceptions are values (`JsonModel.Fault`) rather than control flow; the
  message of each `ParseException` is `JsonModel.MessageText` of its tag.
- Trailing input: `ParseAny` ignoring the text after the value is proved for
  the values the reference printer writes (`RoundTrip.ParseAnyRoundTrip`,
  for any trailing text), not as a general lemma that appending text keeps
  every successful parse.
- Recursion depth: `Value` and `Array` call each other once per nesting
  level, so deeply nested input such as `[[[[…` exhausts the .NET stack and
  ends the process with a `StackOverflowException`; the model's recursion is
  unbounded and reads any nesting depth.
- `int.Parse(hex, HexNumber)` followed by `(char)`: modelled as the value of
  the four hex digits, which is always below 0x10000, so the cast never
  truncates.
