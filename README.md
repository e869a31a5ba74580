# A hand-written JSON tokenizer and parser, modelled in Dafny

The repository holds a small JSON reader in two generations. The older one is
json_parser.py. There, `next(i, json)` reads one token at a time: a structural
character, a string with a crude escape handler, a literal or a number with its
own number grammar. `lex` collects these tokens after checking that the text is
enclosed in `{}` or `[]`. The newer one is json_parser/json_parser.py. Its single
`lex` loop does the same work with stricter string handling:
- a three-valued backslash-pairing state;
- validation of each escape and of `\uXXXX`;
- decoding of the escapes in reverse position order.

It hands number scanning to the C routine `lex_num` in json_parser/parse_funcs.c.
Both files share the same recursive-descent parser: `parse_array`, `parse_obj`
and `parse`. It walks the token list with an explicit index. `parse_array`
returns the index *of* its `]` and `parse_obj` returns one *past* its `}`.

The Dafny project has seven modules and one file of worked examples:

| file | module | what it holds |
|---|---|---|
| common.dfy | Common | code points, tokens, values, error kinds, character classes, digit runs, the numeric lexeme grammar that `float()` accepts |
| strings.dfy | Strings | the newer tokenizer's string scan, escape decoding and a round-trip theorem |
| lexer.dfy | Lexer | the newer `lex`: enclosure check, step function, loop |
| parse_funcs.dfy | ParseFuncs | `lex_num` |
| legacy_lexer.dfy | LegacyLexer | the older `next` and `lex` |
| parser.dfy | Parser | `parse_array`, `parse_obj`, `parse` |
| json_parser.dfy | JsonParser | the newer `parse(json)`: tokenize, then parse |
| scenarios.dfy | Scenarios | concrete inputs worked through the model |

Each loop of the source is a `method` with a `while` or `for` loop and its invariants; the control-character lookups (`for letter, control_char in control_chars`) are the table functions `Common.IsControlLetter` and `Strings.EscChar`. The
method is proved equal to a recursive specification function of the same name
family:
- `Lexer.Lex` computes `Lexer.Tokens`;
- `ParseFuncs.LexNum` computes `ParseFuncs.NumEnd`;
- `Parser.ParseArray` computes `Parser.ArrLoop`;
- and so on.

The properties are lemmas about those functions. Python exceptions, failed
`assert`s and the C `exit(1)` are `Err` results of a `Result` datatype. Each
error kind of `Common.Error` names the raise it stands for.

Python compares tokens as raw values. A string token whose text is `,` therefore
behaves like the comma itself, and `Parser.KindOf` / `Parser.Is` model that.
`True`, `1.0` and `1` are the same dict key, and so are `False` and `0.0`.
`None`, `True` and `False` also catch numbers equal to 0 or 1 in `parse_obj`'s
`in (None, True, False)` test.

Several inputs show the scan not doing what the JSON grammar asks:
- `"\"\""` ends early with the text `"\` (Scenarios.QuoteThenEscape).
- `"\\users"` is refused as a bad `\u` escape (Scenarios.EscapedBackslashBeforeU).
- The older decoder's index arithmetic fails on two escapes (Scenarios.OldTwoEscapes).
- `1.5e3` is scanned only up to the `e` by `lex_num`, and `float()` then refuses it (Scenarios.UnsignedExponent).
- `[[x], y]` ends at the inner `]` (Scenarios.ArrayInArray).
- `[{k: {a: v}}]` skips the outer `}` and is refused as unterminated (Scenarios.ObjectLastInObject).

These are proved as the behaviour of the code as it is written. The model does not
correct them.

## Model

| member | source | states |
|---|---|---|
| Common.DigitRun | json_parser/parse_funcs.c:14-16 | the digit loop stops at the first non-digit at or after `k`, inside the text, and moves only when a digit is there |
| Common.DigitRunDigits | json_parser/parse_funcs.c:14-16 | every index the digit loop passes over holds a digit |
| Strings.UnicodeCheckOk | json_parser/json_parser.py:46-50 | the `\u` check passes exactly when four hex digits of either case follow; otherwise it is an IndexError or a ValueError |
| Strings.CheckUnicode | json_parser/json_parser.py:46-50 | the `for j in range(2, 6)` loop computes that check |
| Strings.ScanFrom | json_parser/json_parser.py:36-58 | a successful scan ends at a quote at or after its start |
| Strings.ScanEscapes | json_parser/json_parser.py:38-58 | every position a successful scan records is a valid escape inside the literal; the escapes are in increasing order and do not overlap |
| Strings.ScanEscapesBackslash | json_parser/json_parser.py:38-52 | the same from a backslash, whichever backslash state it meets |
| Strings.ScanQuoteStep | json_parser/json_parser.py:56-58 | a quote right after an opening backslash does not end the literal and keeps the scan invariant |
| Strings.ScanBackslashCloses | json_parser/json_parser.py:38-42 | the second backslash of a `\\` pair keeps the invariant and moves to the paired state |
| Strings.ScanBackslashOpens | json_parser/json_parser.py:38-52 | an escape-opening backslash followed by a valid escape letter is recorded, and the invariant holds for the extended list |
| Strings.ScanOtherStep | json_parser/json_parser.py:53-55 | any other character keeps the invariant; the `False` state becomes `True` |
| Strings.InvalidEscapeRaises | json_parser/json_parser.py:43-45 | an opening backslash followed by a character that is not an escape letter raises the invalid-escape ValueError naming that character |
| Strings.BadUnicodeRaises | json_parser/json_parser.py:46-50 | `\u` not followed by four hex digits raises: the invalid-unicode ValueError when six characters remain, otherwise that or IndexError |
| Strings.ScanRecordsOpening | json_parser/json_parser.py:38-52 | in a successful scan, every backslash that opens an escape (not preceded by a backslash or a quote) is followed by an escape letter and its position is recorded |
| Strings.ScanGrows | json_parser/json_parser.py:51-52 | the scan only appends to the list of escape positions |
| Strings.LastFinished | json_parser/json_parser.py:37-58 | the last recorded escape is complete before the next quote or backslash the scan meets |
| Strings.ScanStopsAfterLast | json_parser/json_parser.py:56-58 | a closing quote lies after all recorded escapes |
| Strings.HexNotPlain | json_parser/json_parser.py:46-50 | the four hex digits of a `\u` escape are neither quote nor backslash |
| Strings.StringToken | json_parser/json_parser.py:29-90 | a successful string token ends at a closing quote after its opening quote |
| Strings.LexString | json_parser/json_parser.py:29-90 | the scan loops and the decoding loop compute StringToken |
| Strings.Unescape | json_parser/json_parser.py:59-87 | undoing the escapes in reverse position order, each in place, gives the forward decoding of the literal |
| Strings.UndoEscape | json_parser/json_parser.py:65-82 | one step puts the escape's character at its offset and deletes the rest of the escape: `\"`, `\/` and `\\` lose the backslash, `\b` `\f` `\n` `\r` `\t` become control characters, `\uXXXX` becomes one code point |
| Strings.RawAround | json_parser/json_parser.py:59-71 | before the k-th escape from the end is undone, the token still holds that escape raw at its original offset, with untouched text before it |
| Strings.EditEscape | json_parser/json_parser.py:65-82 | undoing the k-th escape keeps that picture for escape k-1: reverse order leaves earlier offsets valid |
| Strings.ForwardRaw | json_parser/json_parser.py:59-64 | text before the next escape is copied unchanged |
| Strings.ScanEncoded | json_parser/json_parser.py:36-58 | over a text escaped by Encode, the scan stops at the quote after it and records exactly the escapes Encode wrote |
| Strings.DecodeEncoded | json_parser/json_parser.py:59-87 | decoding those escapes gives the original text back |
| Strings.StringRoundTrip | json_parser/json_parser.py:29-90 | the string token of a quoted Encode(s) is `s`, with the closing quote right after it, for every Plain text `s` |
| Strings.ScanOfEncoded | json_parser/json_parser.py:36-58 | the scan result for a quoted Encode(s) and the facts about it that decoding needs |
| Lexer.LiteralToken | json_parser/json_parser.py:91-103 | a literal moves the cursor forward; any failure is the missing-quotes ValueError |
| Lexer.LiteralStep | json_parser/json_parser.py:91-103 | at a letter, lex appends the literal's token and resumes after it, or raises |
| Lexer.LiteralSteps | json_parser/json_parser.py:91-103 | `true`, `null` and `false` append True, None and False and advance 4, 4 and 5; lex succeeds past a letter only at one of these words |
| Lexer.NumberToken | json_parser/json_parser.py:104-107 | a number token ends exactly where `lex_num` (ParseFuncs.NumEnd) ends and is that slice with its value; it fails with `lex_num`'s error, or with FloatError exactly when `float()` refuses the slice |
| Lexer.Step | json_parser/json_parser.py:24-111 | one pass of the loop body moves the cursor forward and appends at most one token |
| Lexer.NumberStep | json_parser/json_parser.py:104-107 | at a digit, or `-` and a digit, lex appends the number spanning from the cursor to `lex_num`'s end and continues there; it raises only at a `.` without a digit or where `float()` refuses |
| Lexer.UnexpectedStep | json_parser/json_parser.py:104-111 | a character that starts no token and is not whitespace raises the unexpected-character ValueError naming it; a `-` as the last character raises IndexError |
| Lexer.Lex | json_parser/json_parser.py:13-113 | the tokenizer's loop computes Tokens |
| Lexer.LexFromExtends | json_parser/json_parser.py:22-113 | tokens are only ever appended, and every failure is one of the tokenizer's own |
| Lexer.StepErrors | json_parser/json_parser.py:24-111 | every failure of one step is one of the tokenizer's own |
| Lexer.StringErrors | json_parser/json_parser.py:29-90 | a string fails only with an IndexError, an invalid-escape or an invalid-unicode ValueError |
| Lexer.ScanErrors | json_parser/json_parser.py:36-58 | the same for the scan from any state |
| Lexer.EnclosureChecked | json_parser/json_parser.py:15-21 | lex raises the enclosure ValueError exactly when a non-empty text does not start with `{` and end with `}`, or start with `[` and end with `]` |
| Lexer.FirstToken | json_parser/json_parser.py:15-28 | a successful lex starts with the opening brace or bracket as its first token |
| Lexer.PunctStep | json_parser/json_parser.py:26-28 | a structural character appends exactly itself and advances by one; whitespace appends nothing |
| Lexer.PunctuationOnly | json_parser/json_parser.py:24-109 | over structural characters and whitespace, lex returns the structural characters, one token each, in order |
| ParseFuncs.SignSkipped | json_parser/parse_funcs.c:6-8 | a leading `-` is skipped |
| ParseFuncs.AfterPoint | json_parser/parse_funcs.c:17-34 | after `.`, a digit is required (else the decimal-point failure), then at least the fraction digits are consumed |
| ParseFuncs.NumEnd | json_parser/parse_funcs.c:5-41 | the assert fails exactly when no digit follows the optional sign; a success is past the first digit and within the buffer; the only failures are the assert and the decimal point |
| ParseFuncs.WithinBuffer | json_parser/parse_funcs.c:36-39 | an index past the buffer length exits; any other is returned unchanged |
| ParseFuncs.LexNum | json_parser/parse_funcs.c:5-41 | `lex_num`'s loops compute NumEnd |
| ParseFuncs.SkipDigits | json_parser/parse_funcs.c:14-16 | the digit loop stops at DigitRun |
| ParseFuncs.LeadingZeroOnlyWarns | json_parser/parse_funcs.c:10-13 | a leading `0` followed by a digit does not fail; scanning continues past it |
| ParseFuncs.PointNeedsDigit | json_parser/parse_funcs.c:17-21 | a `.` not followed by a digit fails |
| ParseFuncs.ExponentOnlyAfterFraction | json_parser/parse_funcs.c:14-26 | without a `.` after the integer digits, scanning ends there, exponent or not |
| ParseFuncs.ExponentDigitsNeedSign | json_parser/parse_funcs.c:26-34 | after a fraction and `e`/`E`, the exponent digits are consumed only after a sign; otherwise the scan stops right after the `e` |
| ParseFuncs.FloatAcceptsScanned | json_parser/json_parser.py:104-107 | `float()` accepts the slice `lex_num` scanned exactly when it does not end in `e`, `E` or a sign |
| ParseFuncs.FloatAcceptsFraction | json_parser/parse_funcs.c:17-34 | the same for a slice with a fraction |
| LegacyLexer.Backslashes | json_parser.py:22-29 | the positions the older scan records are backslashes inside the literal |
| LegacyLexer.OldScan | json_parser.py:19-33 | a success ends at a quote and records exactly the backslashes passed; failures are IndexError or the invalid-backslash ValueError |
| LegacyLexer.OldScanChecked | json_parser.py:24-27 | every backslash the older scan passes is followed by one of `" \ / b f n r t u` |
| LegacyLexer.OldScanPlain | json_parser.py:19-33 | with no quote and no backslash before the closing quote, the scan ends there and records nothing |
| LegacyLexer.OldDecode | json_parser.py:41-48 | the older decoding never lengthens the token; it fails only with IndexError |
| LegacyLexer.OldEdit | json_parser.py:42-48 | the same for one recorded backslash |
| LegacyLexer.OldDecodeAt | json_parser.py:41-48 | the decoding loop takes the recorded positions in recorded order |
| LegacyLexer.OldDecodeOne | json_parser.py:41-48 | one escape of a quote, a slash or a control letter is decoded correctly |
| LegacyLexer.ScannedString | json_parser.py:17-52 | the older string token is the decoding of the raw slice, resuming after the closing quote |
| LegacyLexer.OldString | json_parser.py:17-52 | a success resumes past the opening quote and inside the text; failures are IndexError or the invalid-backslash ValueError |
| LegacyLexer.OldPlainString | json_parser.py:17-52 | a string with no backslash and no quote inside is returned as it stands |
| LegacyLexer.DigitsUpTo | json_parser.py:72-73 | the digit loop stops at DigitRun, or raises IndexError at the end of the text |
| LegacyLexer.OldNumEnd | json_parser.py:66-86 | a number ends inside the text with a digit after the optional sign; failures are IndexError or the leading-zero ValueError; where it ends in each case is stated by OldIntegerOnly, OldPointWithoutDigit, OldFractionEnd and OldExponent |
| LegacyLexer.OldFraction | json_parser.py:75-85 | the fraction and exponent scanning moves past the point, or raises IndexError; its end is stated by OldFractionEnd and OldExponent |
| LegacyLexer.OldNumberToken | json_parser.py:66-87 | a number token is the scanned slice with its value; failures are IndexError, the leading zero, or `float()` refusing the slice |
| LegacyLexer.OldLeadingZero | json_parser.py:70-71 | a first digit `0` not followed by `.` raises |
| LegacyLexer.OldAgreesWithC | json_parser.py:66-87 | with no fraction and no exponent in the way, the older number scan ends where `lex_num` does |
| LegacyLexer.OldIntegerOnly | json_parser.py:72-75 | without a `.` after the integer digits the number ends there; an exponent marker is not examined |
| LegacyLexer.OldPointWithoutDigit | json_parser.py:75 | a `.` not followed by a digit ends the number before the `.` (the C scanner raises there) |
| LegacyLexer.OldFractionEnd | json_parser.py:75-80 | a `.` and a digit start the fraction, and without an exponent marker the number ends after the fraction digits |
| LegacyLexer.OldExponent | json_parser.py:80-85 | after the fraction, an exponent marker, an optional sign and the exponent digits; running into the end of the text raises IndexError |
| LegacyLexer.NextFrom | json_parser.py:9-91 | a token read by `next` moves the cursor forward, within the text |
| LegacyLexer.SkipToToken | json_parser.py:88-89 | `next` skips every character that starts no token, whitespace or not |
| LegacyLexer.NextReturns | json_parser.py:90-91 | when the text ends with a structural character, `next` never falls off its end |
| LegacyLexer.OldLexReturns | json_parser.py:102-107 | neither does any call from `lex`'s loop |
| LegacyLexer.OldTokensReturn | json_parser.py:93-107 | the returned-not-raised ValueError never reaches `lex`'s result |
| LegacyLexer.OldPunctuationOnly | json_parser.py:13-16 | over structural characters and characters that start no token, the older lex returns the structural characters, one token each |
| LegacyLexer.OldLex | json_parser.py:93-107 | the older `lex` loop computes OldTokens |
| LegacyLexer.Next | json_parser.py:9-91 | `next`'s loop computes NextFrom |
| LegacyLexer.OldLexString | json_parser.py:17-52 | the older string branch computes OldString |
| LegacyLexer.OldScanLoop | json_parser.py:19-33 | the older scan loops compute OldScan |
| LegacyLexer.OldUnescape | json_parser.py:41-48 | the older decoding loop computes OldDecode |
| LegacyLexer.OldLexNum | json_parser.py:66-86 | the older number branch computes OldNumEnd |
| LegacyLexer.OldLexFraction | json_parser.py:75-85 | the fraction loop computes OldFraction |
| LegacyLexer.Digits | json_parser.py:72-73 | the digit loop computes DigitsUpTo |
| Parser.ArrLoop | json_parser/json_parser.py:115-143 | a finished array stops at a `]` at or after its start, and elements are only appended |
| Parser.ObjLoop | json_parser/json_parser.py:145-177 | the object loop never moves backwards |
| Parser.Absorb | json_parser/json_parser.py:162-175 | `:` fails exactly when no key is pending and `,` exactly when one is, each leaving the state alone otherwise; None/True/False fail exactly without a key; any other token becomes the pending key when none is pending, and otherwise the value assigned to it, which clears the key; only AssertionFailed is raised |
| Parser.Parse | json_parser/json_parser.py:179-187 | the result is a dict exactly when the first token is `{` |
| Parser.ParseArray | json_parser/json_parser.py:115-143 | `parse_array`'s loop computes ArrLoop |
| Parser.ParseObj | json_parser/json_parser.py:145-177 | `parse_obj`'s loop computes ObjLoop |
| Parser.ParseTokens | json_parser.py:173-179 | `parse`'s dispatch computes Parse |
| Parser.KindIsEquality | json_parser/json_parser.py:120-165 | the dispatch on a token's kind is Python's `==` against the one-character strings, string tokens included |
| Parser.ObjLoopKeys | json_parser/json_parser.py:145-177 | keys are never removed from the dict being built |
| Parser.ArrLoopErrors | json_parser/json_parser.py:115-143 | the array loop raises only the parser's own failures |
| Parser.ObjLoopErrors | json_parser/json_parser.py:145-177 | so does the object loop |
| Parser.ObjLoopEnd | json_parser/json_parser.py:145-177 | `parse_obj` returns one past a `}`, or at or past the end when the tokens ran out |
| Parser.ArrayOfScalars | json_parser/json_parser.py:115-143 | an array of scalar elements is read to its `]`, with its elements in source order |
| Parser.ObjectInArray | json_parser/json_parser.py:122-124 | a flat object as an array element is appended whole, and the array loop resumes right after its `}` |
| Parser.ArrayInObject | json_parser/json_parser.py:157-161 | a flat array as a member value is assigned to the pending key, and the object loop resumes after its `]` with no key pending |
| Parser.ObjectBeforeComma | json_parser/json_parser.py:150-154 | a flat object as a member value followed by `,` is assigned to the pending key, and the object loop resumes after the `,` |
| Parser.ElementsSkipped | json_parser/json_parser.py:128-138 | the array loop passes over scalar elements each followed by `,`, collecting them in order, as long as no `]` follows the last comma |
| Parser.NoDelimiterAfter | json_parser/json_parser.py:128-134 | after any number of elements, a scalar followed by neither `,` nor `]` raises the missing-delimiter ValueError |
| Parser.TrailingCommaAfter | json_parser/json_parser.py:135-138 | after one element or more, a `,` directly before `]` raises the trailing-comma ValueError |
| Parser.MembersSkipped | json_parser/json_parser.py:162-175 | the object loop passes over `key : value ,` members, assigning them in order, and arrives with no key pending |
| Parser.ColonWithoutKey | json_parser/json_parser.py:162-163 | after any number of members, a `:` where a key belongs fails `assert key` |
| Parser.CommaAfterKey | json_parser/json_parser.py:164-165 | after any number of members, a `,` right after a key fails `assert key == ""` |
| Parser.LiteralWithoutKey | json_parser/json_parser.py:166-169 | after any number of members, None, True or False where a key belongs fails `assert key` |
| Parser.FlatArray | json_parser/json_parser.py:179-187 | `parse` of a bracketed list of scalars is that list, and ends at its `]` |
| Parser.ObjectOfScalars | json_parser/json_parser.py:145-177 | an object of scalar members is read past its `}` as the assignments of its members in order |
| Parser.FlatObject | json_parser/json_parser.py:179-187 | `parse` of such an object is that dict, ending past its `}` |
| Parser.LastMemberWins | json_parser/json_parser.py:166-175 | a key's value is the one from its last occurrence |
| Parser.AssignKeeps | json_parser/json_parser.py:166-175 | a key no member mentions keeps its value |
| Parser.AssignKeys | json_parser/json_parser.py:166-175 | the keys are the old ones plus every member's key |
| JsonParser.ParseJson | json_parser/json_parser.py:179-187 | `parse(json)` is the parser applied to the tokenizer's result |
| JsonParser.RootFromEnclosure | json_parser/json_parser.py:182-187 | the invalid-root ValueError is never raised; the result is a dict exactly when the text starts with `{`, a list exactly when it starts with `[` |
| Scenarios.EscapedQuote | json_parser/json_parser.py:36-58 | `"va\"l"` yields the single token `va"l` |
| Scenarios.QuoteThenEscape | json_parser/json_parser.py:36-58 | `"\"\""` stops at the third quote with the text `"\` |
| Scenarios.EscapedBackslashBeforeU | json_parser/json_parser.py:38-50 | `"\\users"` raises the invalid-unicode ValueError |
| Scenarios.EscapedBackslashThenHex | json_parser/json_parser.py:38-50 | `"\\u0041"`, whose text is not Plain, still comes back as a backslash and `u0041`: the `\u` check passes on four hex digits |
| Scenarios.TwoEscapes | json_parser/json_parser.py:59-87 | `"\n\t"` decodes to a line feed and a tab |
| Scenarios.OldTwoEscapes | json_parser.py:41-48 | the older decoder raises IndexError on `"\n\t"` |
| Scenarios.OldZero | json_parser.py:66-71 | the older lex rejects `[0]` for its leading zero |
| Scenarios.Zero | json_parser/parse_funcs.c:10-16 | the newer lex reads `0` in `[0]` as a number |
| Scenarios.UnsignedExponent | json_parser/parse_funcs.c:26-34 | the newer lex refuses `1.5e3`: `lex_num` stops after the `e` |
| Scenarios.OldUnsignedExponent | json_parser.py:80-87 | the older lex reads `1.5e3` whole |
| Scenarios.CommaBeforeClose | json_parser/json_parser.py:135-137 | `[x, y, ]` raises the trailing-comma ValueError |
| Scenarios.MissingDelimiter | json_parser/json_parser.py:128-133 | `[x y]` raises the missing-delimiter ValueError |
| Scenarios.ArrayRunsOut | json_parser/json_parser.py:118-143 | `[x` raises IndexError and `[` raises the unterminated-array ValueError |
| Scenarios.ArrayInArray | json_parser/json_parser.py:125-127 | `[[x], y]` ends at the inner `]` with the single element `[x]` |
| Scenarios.ObjectLastInObject | json_parser/json_parser.py:150-156 | in `[{k: {a: v}}]` the outer `}` is skipped after the inner object, the outer object runs to the end of the tokens taking `]` as a key, and the array raises the unterminated-array ValueError |
| Scenarios.ObjectRunsOut | json_parser/json_parser.py:148-177 | `{k: v` without `}` returns the dict `{k: v}` without error |
| Scenarios.SeparatorsOutOfPlace | json_parser/json_parser.py:162-165 | `{:` and `{k,` fail the assert |
| Scenarios.MemberLexed | json_parser.py:93-107 | the older lex of `{"key":"value"}`, for a key and a value with no quote or backslash, is the brace, the key, the colon, the value and the closing brace |
| Scenarios.StatusLexed | test/test_json_parser.py:3-7 | `{"status":"SpaceTraders"}` lexes to `{`, `status`, `:`, `SpaceTraders`, `}` |

## Left out

- `isdigit`, `isalpha` and `strip`: modelled on ASCII digits and letters and on the characters Python's `str.isspace` accepts. Python's Unicode digit and letter classes are not modelled.
- `float()`: a number token keeps its lexeme and an exact rational value (Common.NumValue), not an IEEE double. Common.FloatAccepts covers only the decimal forms `lex_num` and the older scanner can produce. Rounding, `inf` and the other spellings `float()` accepts are not modelled. So a lexeme that rounds to 0.0 or 1.0, such as `1.00000000000000001`, is caught by `in (None, True, False)` in Python but not by Parser.BoolLike, and two lexemes that round to the same double are one dict key in Python but two under Parser.KeyOf.
- `chr(int(hex, 16))`: a `\u` escape becomes its code point as an unbounded integer. Surrogates are not paired, and the `chr` range check is not modelled, because four hex digits always stay inside its range.
- C `int` width and `wc_len`: the model's `lex_num` works on the Dafny sequence of code points, with the terminating NUL as the character past the end. An `int` overflow of the index needs a text of 2^31 characters and is not modelled.
- The ctypes plumbing (json_parser/json_parser.py:11 and 180), the `__main__` drivers, file reading, timing and printing, `print_string` (json_parser/parse_funcs.c:43-49) and json_parser/call_c.py are I/O or foreign calls. They are not part of this model.
- `parse_array`'s final `else` branch (json_parser/json_parser.py:139-140) and the older `return (i + 1, json[orig_i + 1:i])` after the scan loop (json_parser.py:55) cannot be reached: every token falls into an earlier branch, and the older scan loop only ends by returning. Neither is modelled.
- The test `test_lex_array` (test/test_json_parser.py:9-14) expects string tokens such as `"true"` and `"21"`. That contradicts the tokenizers, which produce True and a float, so the test is not modelled.
- Strings.StringRoundTrip: stated only for Plain texts, which exclude a quote followed by a quote or a backslash, and every backslash followed by `u`. The first pattern does not come back (Scenarios.QuoteThenEscape). Of the second, only a backslash followed by `u` and then not by four hex digits fails (Scenarios.EscapedBackslashBeforeU); one followed by four hex digits comes back (Scenarios.EscapedBackslashThenHex), but the round trip is not proved for those texts in general.
- Parser.ArrayOfScalars, Parser.ObjectOfScalars, Parser.FlatArray, Parser.FlatObject: stated for flat arrays and objects only; no round trip is stated for nested values of any depth. An array nested directly in an array, or an object as the last member of an object, is read with the wrong index convention (Scenarios.ArrayInArray for the array, Scenarios.ObjectLastInObject for the object). The nestings that are read correctly are stated one level deep: a flat object as an array element (Parser.ObjectInArray), a flat array as a member value (Parser.ArrayInObject), and a flat object as a member value followed by `,` (Parser.ObjectBeforeComma).
- The strict JSON number grammar is not what `lex_num` scans, and the model follows the code. That grammar rejects leading zeros and allows an unsigned exponent. In json_parser/parse_funcs.c:10-13 a leading zero only prints a warning, because the `exit(1)` is commented out (ParseFuncs.LeadingZeroOnlyWarns). In parse_funcs.c:26-34 an exponent without a sign stops the scan right after the `e` (Scenarios.UnsignedExponent). The older `next` does raise on a leading zero (LegacyLexer.OldLeadingZero).
- The exception messages are not modelled. An error is identified by its kind only.
