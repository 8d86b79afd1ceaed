# Generic Data Compiler — a Dafny model of its core

The Generic Data Compiler reads a text description of data and writes it out
as a binary stream. The text holds constant definitions, element and struct
declarations, and a data section with nested blocks. This project models the
compiler's core as Dafny datatypes, functions and methods, and proves
properties of that model.

The model covers these stages:

- **Preprocessing** (`Utils.getLineList`). The physical lines of a file become
  numbered line items. Along the way it handles the conditional directives
  `#ifdef`, `#ifndef`, `#else` and `#endif` on a stack of at most 64 levels. It
  also handles `#define`, `#undef`, `#error` and `#include`.
- **Comments and continuations** (`Utils.removeComments`). Comments are
  removed. Lines ending in a backslash are joined to the lines that follow. A
  string continued over several lines is requoted as one string.
- **Constants and symbols** (`DataCompiler.addConstant`, `checkElements`,
  `createElements`). Symbols passed on the command line and by `#define`
  become constants. A redefinition gives a warning.
- **Element declarations** (the `DataElement` constructor, `checkArrayName`,
  `guessType`). This includes the pure checks of value text.
- **Expression resolution** (the `resolveExpression*` family). A constant
  whose value is a conditional, a bitwise or, a concatenation or another
  constant's name is resolved lazily, at most once.
- **Storing** (`DataElement.store`). Integers, strings, fixed-length strings,
  count-prefixed integral arrays and constant structs are stored. Integers are
  written in either byte order, and strings in modified UTF-8.
- **The fuzzy "did you mean" matcher** (`findBestMatch`,
  `getMatchingScore`, `getDensityMap`).
- **The binarizer pass** (`DataCompiler.binarize`). It keeps a struct stack of
  256 entries and a field cursor per level. It also uses the item count of
  `{#}` blocks (`getItemCount`).
- **The supporting classes.** These are `LineItem`, `DataStruct` (a class
  whose element list is updated in place) and `UnicodeEscapes`.

Each step of the original's loops is a pure specification function: a
directive, a line, a struct field or a byte written. The original's loops are
methods proved equal to those functions. The properties are proved about the
functions. They include:

- round trips: numbers through text and back, bytes through either byte
  order, the source text of a line item;
- the stack discipline of the binarizer and of the conditional directives;
- that the passes only append output and warnings, and that every line item
  comes from a line of the input or of a file it includes;
- bounds on the matching score;
- the bytes each store writes: integers at the slot width in the chosen byte
  order, strings by `writeUTF` or cut and padded to their length, and the
  fields of a struct in order.

Runtime exceptions become `Err` values of one `Error` datatype. An exception
that reaches the handler of `binarize` or of the top-level `getLineList`
aborts the whole compilation, and so does the matching `Err`. The exceptions
the original catches on the way are modelled as the fallbacks it takes
there. An error inside an included file ends only that file's pass, and its
caller goes on (`Preprocessor.Include`). In `guessType` a value that does
not parse as a float or double goes on to the integer test. In `store` a
`NumberFormatException` is caught only to add the "did you mean" suggestion
and is thrown again, so it aborts. Warnings are a log that is only ever
appended to. The `-werror` option turns a warning into an
error.

Java strings are sequences of UTF-16 code units, while Dafny strings hold
Unicode scalar values. The model counts in UTF-16 units (`Text.Utf16Length`)
wherever the original compares a length or an index with a number.

## Model

| member | source | states |
|---|---|---|
| Base.Warn | src/ole/gdc/DataElement.java:340-347 | A warning fails exactly when warnings are errors, and then with that warning; otherwise the log gains exactly that warning at its end |
| LineItems.LineItem.GetSource | src/ole/gdc/LineItem.java:33-35 | The text is the source name, a colon, then the decimal line number |
| LineItems.LastIndexOfChar | src/ole/gdc/LineItem.java:33-35 | The index of the last occurrence of the char, or -1 when it does not occur |
| LineItems.GetSourceRoundTrip | src/ole/gdc/LineItem.java:33-35 | The source name and the line number can be read back from `getSource`: the name is everything before the last colon, and the number parses back |
| LineItems.NoColonInNumber | src/ole/gdc/LineItem.java:33-35 | A decimal number never contains a colon, so the last colon of `getSource` is the separator |
| Text.IndexOfChar | src/ole/gdc/DataElement.java:768 | `indexOf(char)`: the first occurrence, or -1 exactly when the char is absent |
| Text.Utf16Length | src/ole/gdc/DataElement.java:977-981 | `String.length()`: at least one and at most two UTF-16 units per char |
| Text.Utf16LengthAppend | src/ole/gdc/DataCompiler.java:272-284 | The units of a concatenation are the units of its parts |
| Text.Utf16LengthSplit | src/ole/gdc/DataCompiler.java:272-284 | The units before a position split into the units before an earlier position and those between the two |
| Text.Utf16IndexOfChar | src/ole/gdc/DataElement.java:768-769 | `indexOf(char)` in UTF-16 units: -1 exactly when the char is absent, otherwise at least the char index and at most twice it |
| Text.IndexOf | src/ole/gdc/Utils.java:239 | `indexOf(String)`: the first position where the text occurs, or -1 when it occurs nowhere |
| Text.TrimLeftRemovesBlanks | src/ole/gdc/Utils.java:243 | Left trimming drops only characters at or below a space, and keeps a suffix of the text |
| Text.TrimRightRemovesBlanks | src/ole/gdc/Utils.java:243 | Right trimming drops only characters at or below a space, and keeps a prefix of the text |
| Text.Trim | src/ole/gdc/Utils.java:243 | `trim()`: the result is no longer than the text and starts and ends with a non-blank character |
| Text.TrimOfTrimmed | src/ole/gdc/Utils.java:243 | Trimming is idempotent |
| Text.Tokens | src/ole/gdc/DataElement.java:73-80 | `StringTokenizer`: the tokens are non-empty, contain no delimiter, and are no more than the text's length in number |
| Text.TokensAtDelimiter | src/ole/gdc/Utils.java:353-364 | A delimiter separates tokens: the tokens of `a + [c] + b` are those of `a` followed by those of `b`. With `TokensOfPlainWord` and the empty text this fixes the tokens as the maximal delimiter-free runs, in order |
| Text.RunLengthIsFirstDelimiter | src/ole/gdc/Utils.java:353-364 | The run length is the position of the first delimiter, or the whole length when there is none |
| Text.RunLength | src/ole/gdc/DataElement.java:73-80 | The longest run of non-delimiters at the start of the text |
| Text.TokensOfPlainWord | src/ole/gdc/Utils.java:353-358 | A non-empty text without delimiters is one token, the text itself |
| Text.IntToString | src/ole/gdc/LineItem.java:34 | Decimal text of an integer: non-empty, with a leading minus exactly for negatives |
| Numbers.DecodePrefix | src/ole/gdc/DataElement.java:465 | `Long.decode`'s sign and radix prefix: where the digits start, and a radix of 8, 10 or 16 |
| Numbers.Decode | src/ole/gdc/DataElement.java:465 | A decoded value lies in the signed range of the width, and only non-empty text decodes |
| Numbers.DecodeLong | src/ole/gdc/DataElement.java:465 | `Long.decode` succeeds only with a value in the 64-bit signed range |
| Numbers.DecodeInt | src/ole/gdc/DataElement.java:917 | `Integer.decode` succeeds only with a value in the 32-bit signed range |
| Numbers.ParseNatToString | src/ole/gdc/DataElement.java:835 | The decimal digits of a natural number parse back to it |
| Numbers.NatToStringLeading | src/ole/gdc/DataElement.java:835 | Decimal text has a leading zero only for zero, and is one digit exactly below ten |
| Numbers.DecodeDigits | src/ole/gdc/DataElement.java:465 | Decimal digits decode to their value, and with a minus sign to its negation, whenever these fit the width |
| Numbers.DecodeIntToString | src/ole/gdc/DataElement.java:835 | A number in range, written as decimal text, decodes back to itself |
| Numbers.LongToStringRoundTrip | src/ole/gdc/DataElement.java:835 | `Long.decode(Long.toString(v)) == v` for every 64-bit `v` |
| Numbers.IntToStringRoundTrip | src/ole/gdc/DataElement.java:917 | `Integer.decode` of the decimal text of a 32-bit value gives the value back |
| Numbers.Narrow | src/ole/gdc/DataElement.java:486-496 | A Java narrowing cast: the result is in the signed range of the width and congruent to the input modulo 2^width |
| Numbers.NarrowInRange | src/ole/gdc/DataElement.java:486-496 | Narrowing leaves a value that already fits unchanged |
| Numbers.FromBits | src/ole/gdc/DataElement.java:832 | A 64-bit pattern read as a signed long is in the long range |
| Numbers.LongOr | src/ole/gdc/DataElement.java:832 | `a \| b` on longs stays a long |
| Numbers.EncodeBE | src/ole/gdc/DataElement.java:349-384 | Big-endian encoding yields exactly `n` values, each a byte |
| Numbers.EncodeLE | src/ole/gdc/DataElement.java:349-384 | Little-endian encoding yields exactly `n` values, each a byte |
| Numbers.DecodeEncodeBE | src/ole/gdc/DataElement.java:349-384 | Decoding the big-endian bytes gives the value modulo 256^n |
| Numbers.DecodeEncodeLE | src/ole/gdc/DataElement.java:349-384 | Decoding the little-endian bytes gives the value modulo 256^n |
| Numbers.LittleIsReversedBig | src/ole/gdc/DataElement.java:349-384 | The little-endian bytes are the big-endian bytes reversed |
| Numbers.DigitValue | src/ole/gdc/DataElement.java:465 | `Character.digit` on ASCII digits and letters: a value exists only below the radix |
| Encoding.WriteWord | src/ole/gdc/DataElement.java:349-384 | `writeShort`/`writeInt`/`writeLong`: `n` bytes that decode, in the configured order, to the value modulo 256^n |
| Encoding.TwosComplement | src/ole/gdc/DataElement.java:349-384 | The unsigned value written for a negative number is its two's complement |
| Encoding.SingleByte | src/ole/gdc/DataElement.java:486 | A single byte is the same in both byte orders and is the value modulo 256 |
| Encoding.Utf8Char | src/ole/gdc/DataElement.java:421 | A char's UTF-8 bytes: one to four bytes, a single byte exactly for ASCII, and then that byte is the char |
| Encoding.Utf8CharRoundTrip | src/ole/gdc/DataElement.java:421 | Every char's UTF-8 bytes decode back to the char |
| Encoding.Utf8 | src/ole/gdc/DataElement.java:421 | `getBytes("UTF8")`: between one and four bytes per char |
| Encoding.Utf8Append | src/ole/gdc/DataElement.java:421 | UTF-8 encoding distributes over concatenation |
| Encoding.Utf8OfAscii | src/ole/gdc/DataElement.java:421 | ASCII text encodes to its own codes, one byte per char |
| Encoding.Utf16 | src/ole/gdc/DataElement.java:649-650 | A char is one or two UTF-16 code units |
| Encoding.Utf16Units | src/ole/gdc/DataElement.java:650 | A char has as many UTF-16 units as `String.length()` counts for it |
| Encoding.ModifiedUnit | src/ole/gdc/DataElement.java:649-650 | Modified UTF-8 of a code unit: one byte exactly for 1-127 (zero takes two), up to three bytes |
| Encoding.ModifiedChar | src/ole/gdc/DataElement.java:649-650 | A char takes one to six bytes of modified UTF-8 |
| Encoding.ModifiedUtf8 | src/ole/gdc/DataElement.java:649-650 | Modified UTF-8 of a text: between one and six bytes per char |
| Encoding.WriteUtf | src/ole/gdc/DataElement.java:649-650 | `writeUTF` fails exactly when the encoding exceeds 65535 bytes; otherwise a big-endian two-byte length followed by exactly those bytes |
| Encoding.Zeros | src/ole/gdc/DataElement.java:57 | Padding: `n` zero bytes |
| Encoding.FixedString | src/ole/gdc/DataElement.java:420-442 | A fixed-length string is exactly `maxLen` bytes: the UTF-8 bytes cut or zero-padded. A fitting string warns nothing. A string of `maxLen` bytes or more warns `StringTooBig`, or fails under warnings-as-errors |
| Encoding.WriteString | src/ole/gdc/DataElement.java:420-442 | The padding loop in blocks of at most 1024 zero bytes produces exactly `FixedString` |
| UnicodeEscapes.HexValue | src/ole/gdc/UnicodeEscapes.java:42-43 | A hex digit's value is below 16 |
| UnicodeEscapes.UCount | src/ole/gdc/UnicodeEscapes.java:26 | The run of `u` characters at a position: all `u`, and followed by a non-`u` or the end |
| UnicodeEscapes.MatchAt | src/ole/gdc/UnicodeEscapes.java:26 | A match of `\\u+XXXX` starts with a backslash, takes at least six chars, and ends in four hex digits |
| UnicodeEscapes.HexCode | src/ole/gdc/UnicodeEscapes.java:42-43 | Four hex digits give a code below 0x10000 |
| UnicodeEscapes.CodeChar | src/ole/gdc/UnicodeEscapes.java:43 | A code outside the surrogate range becomes the char with that code |
| UnicodeEscapes.FindEscape | src/ole/gdc/UnicodeEscapes.java:35-36 | `Matcher.find`: the first position from `from` where an escape matches, or None when none matches from there on |
| UnicodeEscapes.Step | src/ole/gdc/UnicodeEscapes.java:35-45 | One replacement happens exactly when the text has an escape, and shortens the text by at least five chars |
| UnicodeEscapes.Unescaped | src/ole/gdc/UnicodeEscapes.java:33-47 | The result contains no escape |
| UnicodeEscapes.Unescape | src/ole/gdc/UnicodeEscapes.java:33-47 | The loop that replaces the first escape and searches again from the start computes `Unescaped`, so the result has no escape left |
| UnicodeEscapes.NoBackslashUnchanged | src/ole/gdc/UnicodeEscapes.java:33-47 | Text without a backslash is returned unchanged |
| UnicodeEscapes.EscapeForms | src/ole/gdc/UnicodeEscapes.java:26 | Several `u`s are allowed, hex digits are case-insensitive, and a non-hex digit does not match |
| UnicodeEscapes.DecodedBackslashRestarts | src/ole/gdc/UnicodeEscapes.java:35-45 | An escape that decodes to a backslash forms a new escape with the text after it, which is decoded in turn |
| UnicodeEscapes.FirstStep | src/ole/gdc/UnicodeEscapes.java:35-45 | The first replacement of the restarting example leaves a new escape |
| UnicodeEscapes.SecondStep | src/ole/gdc/UnicodeEscapes.java:35-45 | The second replacement of the restarting example yields `A` and stops |
| Elements.Width | src/ole/gdc/DataElement.java:349-384 | An integral value takes 1, 2, 4 or 8 bytes |
| Elements.Count | src/ole/gdc/DataElement.java:251-256 | Occurrences of a char: at most the length, and zero exactly when the char is absent |
| Elements.CheckDecimalNumber | src/ole/gdc/DataElement.java:241-260 | The loop answers exactly `IsDecimalNumber`: only digits and points, with exactly one point |
| Elements.CountAppend | src/ole/gdc/DataElement.java:244-258 | One more char adds one occurrence exactly when it is the char counted |
| Elements.CountPrefix | src/ole/gdc/DataElement.java:244-258 | A prefix has no more occurrences than the whole |
| Elements.DecimalIsNotInteger | src/ole/gdc/DataElement.java:183-196 | Decimal text is never integer text, so `guessType` never takes both branches |
| Elements.NumberType | src/ole/gdc/DataElement.java:196-208 | The smallest of byte, short, int and long whose signed range holds the value, each case an if-and-only-if |
| Elements.KeywordType | src/ole/gdc/DataElement.java:93-134 | A type keyword never declares the typeless `Aux` |
| Elements.ElementCount | src/ole/gdc/DataElement.java:282-338 | `getElementCount`: at least one slot. Only byte, short and int slots count more, and then only for a wider integral constant: its width divided by the slot's width |
| Elements.IsIntegerNumber | src/ole/gdc/DataElement.java:223-239 | Definition, no contract: every char is a decimal digit, `a`-`f`, `A`-`F`, `x` or `X`, so the empty text qualifies; `CheckDecimalNumber` and `DecimalIsNotInteger` use it |
| Elements.IsDecimalNumber | src/ole/gdc/DataElement.java:241-260 | Definition, no contract: only digits and points, with exactly one point; `CheckDecimalNumber` proves the loop equal to it |
| Declarations.CheckArrayName | src/ole/gdc/DataElement.java:146-157 | A token not ending in `]`, or containing `[]`, is kept whole with no fixed length. A `NAME[N]` token gives its prefix and the decoded length |
| Declarations.DeclaredValue | src/ole/gdc/DataElement.java:83-91 | No value for two tokens. The trimmed third token for three. For more, everything from the third token on, which keeps the spaces in a string |
| Declarations.ParseElement | src/ole/gdc/DataElement.java:70-144 | Fewer than two tokens is malformed. Otherwise the name is the second token and the keyword comes from the first; any resolution only evolves the table |
| Declarations.TypedElement | src/ole/gdc/DataElement.java:93-143 | A keyword gives its type. `=` with a value guesses the type. Anything else is an unknown type |
| Declarations.FixedLengthType | src/ole/gdc/DataElement.java:146-157 | `string[8]` is the string type with fixed length 8 |
| Structs.FindField | src/ole/gdc/DataStruct.java:48-57 | The index of the first field of that name, or -1 when no field has it |
| Structs.ElementAt | src/ole/gdc/DataStruct.java:59-64 | A field exactly for an index in range. Exactly one past the end is the `ArrayIndexOutOfBounds` case |
| Structs.DataStruct.constructor | src/ole/gdc/DataStruct.java:33-37 | A new struct has its name and no elements |
| Structs.DataStruct.GetElement | src/ole/gdc/DataStruct.java:48-57 | None exactly when no field has the name. Otherwise the first field of that name |
| Structs.DataStruct.GetElementAt | src/ole/gdc/DataStruct.java:59-64 | The field at the index, as `ElementAt` |
| Structs.DataStruct.AddElement | src/ole/gdc/DataStruct.java:39-46 | Returns the existing field of the same name and changes nothing. Otherwise appends the element and grows the size by one. Keeps field names unique |
| Structs.ElementIsConstant | src/ole/gdc/DataElement.java:266-276 | A non-struct element is constant exactly when it has a value. A constant struct element names a registered struct |
| Structs.FieldsConstant | src/ole/gdc/DataStruct.java:69-78 | A field list is constant exactly when every field is |
| Structs.IsConstant | src/ole/gdc/DataElement.java:266-277 | Definition, no contract: `ElementIsConstant` started with no struct visited; its properties are those of `ElementIsConstant` |
| Lines.RemoveComment | src/ole/gdc/Utils.java:235-244 | The line is cut at the first comment marker and trimmed. Without a marker it is just trimmed |
| Lines.NoMarkerLeft | src/ole/gdc/Utils.java:235-244 | No comment marker is left in the result |
| Lines.RemoveCommentIdempotent | src/ole/gdc/Utils.java:235-244 | Removing the comment twice is removing it once |
| Lines.MarkerInsideQuotes | src/ole/gdc/Utils.java:235-244 | A marker inside a quoted string also cuts the line: quotes are not respected |
| Lines.RemoveQuotes | src/ole/gdc/Utils.java:329-334 | Unquoted text is unchanged. Quoted text loses exactly its outer quotes. A lone `"` is the substring failure |
| Lines.QuotesRoundTrip | src/ole/gdc/Utils.java:326-334 | Quoting any text and removing the quotes gives it back |
| Lines.IsWhiteSpace | src/ole/gdc/Utils.java:336-342 | Blank exactly when every char is a space or a tab |
| Lines.TokensEmpty | src/ole/gdc/Utils.java:340-341 | No tokens exactly when every char is a delimiter |
| Lines.GetIncludeName | src/ole/gdc/Utils.java:225-232 | An empty name is an error. `<...>` or `"..."` gives the text between the first and last chars. Anything else gives no name |
| Lines.IncludeNameRoundTrip | src/ole/gdc/Utils.java:225-232 | Both bracket forms give the name back |
| Lines.IncludeNameUnclosed | src/ole/gdc/Utils.java:225-232 | An unclosed `<a.h` silently loses its last character |
| Lines.SplitTokens | src/ole/gdc/Utils.java:353-364 | As many parts as tokens. A single token is the whole line, padding included. Otherwise the result is exactly `Tokens(line, delims)`, the tokenizer's tokens in order |
| Lines.SplitKeepsPadding | src/ole/gdc/Utils.java:353-358 | ` A=` splits into the one part ` A=`, not `A` |
| Lines.HasQuotes | src/ole/gdc/Utils.java:326-328 | Definition, no contract: starts and ends with a double quote, so a lone quote counts |
| QuotedSplit.ValidPosition | src/ole/gdc/DataCompiler.java:278-282 | Definition, no contract: without `checkSpace` every unquoted delimiter cuts; with it, only one after position 0 with more than two UTF-16 units from it to the end and a space or tab on both sides |
| QuotedSplit.CutBefore | src/ole/gdc/DataCompiler.java:283-291 | A segment ending at a delimiter is appended trimmed, and only when it is non-blank; a segment of at most one UTF-16 unit leaves the parts unchanged |
| QuotedSplit.SplitFrom | src/ole/gdc/DataCompiler.java:272-300 | Definition, no contract: the splitter from a position, with the quote state, the segment start and the parts so far; its properties are `SplitFromStep` and `SplitFromParts` |
| QuotedSplit.AtDelimiter | src/ole/gdc/DataCompiler.java:277-291 | The delimiter branch on UTF-16 positions: at a valid position the segment is cut as `CutBefore` says and the next one starts after the delimiter; otherwise nothing changes |
| QuotedSplit.UnitPositions | src/ole/gdc/DataCompiler.java:280-284 | The unit tests `i > 0 && i < chars.length - 2` and `i > startPosition + 1` agree with the same tests on the units of the line's slices |
| QuotedSplit.Split | src/ole/gdc/DataCompiler.java:265-307 | Every part is non-empty and trimmed at both ends |
| QuotedSplit.SplitFromStep | src/ole/gdc/DataCompiler.java:272-293 | One char of the loop: a quote flips the state, and a valid unquoted delimiter cuts a segment |
| QuotedSplit.SplitFromParts | src/ole/gdc/DataCompiler.java:272-300 | The splitter from any position keeps every part non-empty and trimmed |
| QuotedSplit.SplitLine | src/ole/gdc/DataCompiler.java:265-307 | The char loop, which keeps the UTF-16 positions of the current char and of the segment start, returns exactly `Split` |
| QuotedSplit.NoDelimiterOnePart | src/ole/gdc/DataCompiler.java:265-307 | A line without the delimiter is one trimmed part, or none when blank |
| QuotedSplit.NoDelimiterFrom | src/ole/gdc/DataCompiler.java:272-300 | Without the delimiter the whole line is one segment from any position |
| QuotedSplit.QuotedDelimiterIgnored | src/ole/gdc/DataCompiler.java:274-278 | A delimiter between quotes does not split |
| QuotedSplit.ShortSegmentDropped | src/ole/gdc/DataCompiler.java:284 | A one-char segment before a delimiter is dropped: `A,B` gives only `B` |
| QuotedSplit.WideSegmentKept | src/ole/gdc/DataCompiler.java:284 | A char above U+FFFF is two UTF-16 units, so alone before a delimiter it is a part: `😀,B` gives both parts |
| QuotedSplit.SpacedDelimiter | src/ole/gdc/DataCompiler.java:279-281 | With the spacing check, `ab + c` splits into `ab` and `c` |
| Constants.Lookup | src/ole/gdc/DataCompiler.java:233 | A previous definition exists exactly when the name is in the table |
| Constants.CheckElements | src/ole/gdc/DataCompiler.java:201-211 | A first definition says nothing. A redefinition warns, or fails under warnings-as-errors |
| Constants.ConstantValue | src/ole/gdc/DataCompiler.java:228-233 | The value is the second token, unless it starts with a quote; then it is the trimmed text after the first `=` |
| Constants.AddConstant | src/ole/gdc/DataCompiler.java:217-241 | A bare symbol is stored under its whole text as true, unchecked, without a redefinition check. A valued one is added checked, with its value, under its first token, and a redefinition is warned. No tokens is the index failure |
| Constants.Put | src/ole/gdc/DataCompiler.java:227-237 | The valued branch up to `constants.put`: a failing `guessType` fails it. Otherwise the name is added with the guessed type and the value, checked, and the previous entry is returned exactly when the name was defined |
| Constants.TableAfter | src/ole/gdc/DataCompiler.java:217-239 | The table `addConstant` leaves, also when it throws. It is the success table when it succeeds. When `guessType` succeeds, the new constant is in it even if `checkElements` then throws. A failing `guessType` or an empty line leaves the table unchanged |
| Constants.FailedRedefinitionKept | src/ole/gdc/DataCompiler.java:237-238 | Under warnings-as-errors a valued redefinition fails, yet the table already holds the new value |
| Constants.AddConstantAsWritten | src/ole/gdc/DataCompiler.java:201-211 | As written, every valued redefinition fails |
| Constants.RedefinitionFails | src/ole/gdc/DataCompiler.java:205 | As-written and intended agree on first definitions. On a redefinition the former fails where the latter warns and goes on |
| Constants.BareSymbolKeepsDelimiter | src/ole/gdc/DataCompiler.java:220-225 | `-D A=` defines the symbol ` A=`, padding and `=` included |
| Constants.Names | src/ole/gdc/DataCompiler.java:250-253 | The set of names a list of definitions defines holds each of them |
| Constants.DefineAllKeys | src/ole/gdc/DataCompiler.java:250-253 | Defining symbols one after the other adds exactly their names to the table |
| Constants.AddConstantWarns | src/ole/gdc/DataCompiler.java:217-241 | A definition only appends warnings |
| Constants.DefineAllWarnings | src/ole/gdc/DataCompiler.java:250-253 | Defining a list only appends warnings |
| Constants.DistinctNamesNoWarning | src/ole/gdc/DataCompiler.java:250-253 | Symbols with distinct names, none defined before, raise no warning |
| Constants.CreateElements | src/ole/gdc/DataCompiler.java:242-256 | No symbols gives an empty table. Otherwise the comma-split symbols are defined in order into an empty table |
| Constants.BareSymbol | src/ole/gdc/DataCompiler.java:221-225 | Definition, no contract: a byte element with the value `1`, left unresolved; `AddConstant` states that a bare symbol defines it |
| Constants.DefineAll | src/ole/gdc/DataCompiler.java:251-254 | Definition, no contract: `addConstant` on each part in turn, the first failure stopping; `DefineAllKeys`, `DefineAllWarnings` and `CreateElements` state its properties |
| Resolver.SetSelf | src/ole/gdc/DataElement.java:939 | Assigning the element's value evolves the table, and afterwards the element holds that value |
| Resolver.Fetch | src/ole/gdc/DataElement.java:792-796 | A lookup resolves an unchecked constant first. It finds the constant exactly when the name is in the table, and the constant found is checked |
| Resolver.ResolveEntry | src/ole/gdc/DataElement.java:747-764 | Resolving a constant marks it checked and only evolves the table |
| Resolver.ResolveAnonymous | src/ole/gdc/DataElement.java:445-450 | The anonymous element of a literal resolves to a value and only evolves the table |
| Resolver.Strategies | src/ole/gdc/DataElement.java:747-764 | The result is a value the element holds afterwards, in a table only evolved from the input. The fixed order of the strategies is stated by `ConditionFirst`, `OrBeforeAddition` and `AdditionBeforeVariable` |
| Resolver.Truth | src/ole/gdc/DataElement.java:913-937 | A string condition is true exactly when non-empty. An integral one must hold a value, must decode as a long (or an int), and is true exactly when that number is not zero. A type that is not a number or string fails |
| Resolver.Condition | src/ole/gdc/DataElement.java:895-953 | Applies exactly to text of the form `C?A:B` with `?` after the start and before `:`. The chosen branch is `A` when `C` is a constant whose truth is true and `B` otherwise; the result is the chosen branch's resolved value when it names a constant, else its text |
| Resolver.Lookup | src/ole/gdc/DataElement.java:941-948 | A name outside the table is the value itself. A checked constant gives its value. A resolved result is the constant's value in the table left behind |
| Resolver.BinaryOr | src/ole/gdc/DataElement.java:812-839 | Applies exactly to integral elements whose value has no space and has a `\|`. The result is the decimal text of the or, as a long, of the decoded values of the parts that name constants |
| Resolver.OrFold | src/ole/gdc/DataElement.java:825-834 | The or stays a long. A part that names no constant is skipped with the accumulator unchanged. The result is the or of the decoded constants among the remaining parts |
| Resolver.SplitAtChar | src/ole/gdc/DataElement.java:822 | `String.split` pieces contain no separator, and trailing empty pieces are dropped |
| Resolver.Pieces | src/ole/gdc/DataElement.java:822 | Splitting always gives at least one piece, none holding the separator |
| Resolver.DropTrailingEmpty | src/ole/gdc/DataElement.java:822 | Only trailing empty strings are removed, and the rest is a prefix |
| Resolver.Addition | src/ole/gdc/DataElement.java:766-810 | Does not apply when the first `+` is before UTF-16 index 2 or there is one part. Otherwise every part is quoted or a constant, and the result is the concatenation, in order, of the parts' texts: a quoted part's contents, a constant's resolved value without its quotes |
| Resolver.StripQuotes | src/ole/gdc/DataElement.java:789-790 | Quoted text loses its outer quotes. Other text is unchanged. A lone `"` is the substring failure |
| Resolver.AddFold | src/ole/gdc/DataElement.java:784-806 | Succeeds only when every part is quoted or names a constant. The text is the accumulator followed by the concatenation of the remaining parts' texts, in order |
| Resolver.PartText | src/ole/gdc/DataElement.java:786-805 | A quoted part is its contents. A part that names no constant is "element not found". A constant is resolved and its value is taken without quotes, as `PartValue` says |
| Resolver.Variable | src/ole/gdc/DataElement.java:841-893 | A quoted string, integer text for an integral type and decimal text for a float type stay as they are. An unknown unquoted string name is not found. An integral or float non-number that names no constant stays as it is. Otherwise a name in the table takes that constant's value (`Replace`). Other types do not apply |
| Resolver.Replace | src/ole/gdc/DataElement.java:846-851 | Constant substitution: it succeeds exactly when the lookup does, and the value is that of the named constant, resolved first when unchecked. It is the constant's value in the table the strategies see. A checked constant's value is taken at once, nothing else changing but the element itself |
| Resolver.NamesConstant | src/ole/gdc/DataElement.java:841-893 | Definition, no contract: when the value is read as a constant's name (an unquoted string, an integral non-integer, a float non-decimal); used by `Variable`'s contract |
| Resolver.Substitute | src/ole/gdc/DataElement.java:846-851 | The element takes the value of the constant its value names |
| Resolver.GuessType | src/ole/gdc/DataElement.java:179-221 | No value is `Aux`. Decimal text is float. Integer text takes the narrowest type holding it, or is a number-format error. A constant's name takes that constant's type. Anything else is string |
| Resolver.ConditionFirst | src/ole/gdc/DataElement.java:750-752 | A value that is a condition is resolved as a condition, before any other strategy |
| Resolver.OrBeforeAddition | src/ole/gdc/DataElement.java:754-756 | An or expression that is not a condition is resolved as an or, before concatenation |
| Resolver.AdditionBeforeVariable | src/ole/gdc/DataElement.java:757-763 | A value that is neither a condition nor an or, with a `+` at UTF-16 index 2 or later and two parts or more, is resolved as a concatenation, before variable substitution |
| Resolver.ConcatStep | src/ole/gdc/DataElement.java:784-806 | Appending one part's text to the accumulator, then the texts of the later parts, is appending the texts from that part on |
| Resolver.SeenAfterSetSelf | src/ole/gdc/DataElement.java:939 | Storing the element's own value keeps it checked and of its type, and the table the strategies saw is the one before the store |
| Resolver.MissingConditionIsFalse | src/ole/gdc/DataElement.java:907-939 | A condition on an undefined name takes the false branch |
| Resolver.OrOfNoConstants | src/ole/gdc/DataElement.java:825-837 | An or over names none of which is a constant resolves to `0` |
| Resolver.GuessTypeOfWord | src/ole/gdc/DataElement.java:196-197 | Letters that are hex digits pass `isIntegerNumber`, so `face` fails to decode |
| Resolver.Seen | src/ole/gdc/DataElement.java:747-764 | Definition, no contract: the table the strategies see once they are over: the constants they fetched resolved, and the element itself still holding its expression |
| Resolver.OrOf | src/ole/gdc/DataElement.java:822-835 | Definition, no contract: the or of the operands over resolved constants: a name that is not a constant is skipped, and one without a value or that does not decode spoils the or; `BinaryOr`, `OrFold` and `OrOfNoConstants` use it |
| Resolver.PartValue | src/ole/gdc/DataElement.java:789-803 | Definition, no contract: a quoted part without its quotes, a constant's value without its quotes, an unknown name an error |
| Resolver.Concat | src/ole/gdc/DataElement.java:783-807 | Definition, no contract: the texts of the parts in order, the first failing part failing it; `Addition`, `AddFold` and `ConcatStep` use it |
| Store.Operand | src/ole/gdc/DataElement.java:445-450 | The element stored is the named constant, resolved, or an anonymous element of the stored type holding the text |
| Store.SlotWidthAsWritten | src/ole/gdc/DataElement.java:453-564 | As written, a constant of a non-integral type writes nothing in a non-strict byte, short or int store |
| Store.SlotWidth | src/ole/gdc/DataElement.java:453-586 | The intended width is 1, 2, 4 or 8 bytes and never below the stored type. It is the stored type's width in strict stores, and agrees with the code for every integral constant |
| Store.IntegralBytes | src/ole/gdc/DataElement.java:475-496 | The value's bytes at the slot width. An out-of-range value at the type's own width warns, or fails under warnings-as-errors |
| Store.StoreNumber | src/ole/gdc/DataElement.java:453-586 | The operand's value is decoded as a long; a missing value or bad text fails. The bytes are that value at the slot width, in the configured order. A range warning comes exactly when the slot is the type's own width and the value is out of the type's range, and it fails exactly under warnings-as-errors |
| Store.StoreString | src/ole/gdc/DataElement.java:631-654 | The text is the operand's value, unquoted and unescaped. A plain string writes exactly `writeUTF` of it and warns nothing. A fixed-length string writes exactly `FixedString` of it: its length in bytes, cut or padded |
| Store.StringText | src/ole/gdc/DataElement.java:631-648 | No value fails. A quoted string value loses its quotes (a lone `"` is the substring failure). Every text is then unescaped |
| Store.SlotCount | src/ole/gdc/DataElement.java:685-698 | At least one slot per token |
| Store.ArrayPrefix | src/ole/gdc/DataElement.java:700-704 | The count is written in four bytes with `useIntegerArraySize`, otherwise two, and decodes to the count modulo 256^width |
| Store.SlotBytes | src/ole/gdc/DataElement.java:282-338 | A token's bytes are its slot count times the slot width |
| Store.Store | src/ole/gdc/DataElement.java:444-745 | Storing only evolves the table and appends valid bytes and warnings. Float, double and file data are not stored. `Aux` writes nothing |
| Store.Dispatch | src/ole/gdc/DataElement.java:452-744 | The branch for each type, on the trimmed data, with the same guarantees as `Store` |
| Store.StoreIntegralArray | src/ole/gdc/DataElement.java:675-711 | The count prefix comes first, then exactly count times element width bytes. Those bytes are the output of `StoreSlots` over the tokens, and its failure is the array's failure. A long array with tokens recurses without end |
| Store.StoreSlots | src/ole/gdc/DataElement.java:705-710 | The tokens' bytes are exactly their slot count times the element width. No tokens write nothing. Otherwise the first trimmed token is stored non-strictly as the element type (`StoreNumber`); its failure or the rest's is the result, else its bytes come first, then the rest's from the table and log it left |
| Store.StoreStruct | src/ole/gdc/DataElement.java:729-743 | A struct is written only when registered, not being written already, and when every field is constant. Its bytes are those of its fields, from the first |
| Store.StoreFields | src/ole/gdc/DataElement.java:735-742 | Any non-constant field fails the store. The first field's default is stored with the field's own type, and the remaining fields follow from the table and log it leaves: the bytes are the fields' bytes in field order |
| Store.HeadSlots | src/ole/gdc/DataElement.java:685-710 | A token of a byte, short or int array writes its slot count times the element width |
| Store.SumSlots | src/ole/gdc/DataElement.java:685-710 | The bytes of the first token and of the rest add up to the total slot count times the element width |
| Store.PlainNumber | src/ole/gdc/DataElement.java:747-764 | Integer text resolves to itself |
| Store.LiteralOperand | src/ole/gdc/DataElement.java:445-450 | A literal outside the table is stored as an anonymous element holding the literal |
| Store.StoreIntLiteral | src/ole/gdc/DataElement.java:533-564 | Storing a decimal literal as int writes its four bytes, with no warning |
| Store.IntLiteralRoundTrip | src/ole/gdc/DataElement.java:533-564 | The four bytes stored for an int literal decode back to the literal's value |
| Store.WordRoundTrip | src/ole/gdc/DataElement.java:349-384 | A value below 256^n decodes back from its `n` bytes in the configured order |
| Store.StoreQuotedLiteral | src/ole/gdc/DataElement.java:631-654 | A quoted literal is written by `writeUTF` as its unquoted, unescaped text |
| Store.PlainQuoted | src/ole/gdc/DataElement.java:842-845 | Quoted text without `?`, `:`, `+` or `\|` resolves to itself |
| Store.NonIntegralSlotAsWritten | src/ole/gdc/DataElement.java:453-497 | Finding: a float constant in a byte array counts one slot but writes no byte |
| Store.IntArrayCountAsWritten | src/ole/gdc/DataElement.java:680-691 | Finding: an int array holding a long constant counts one slot but writes eight bytes |
| Store.CountsAgree | src/ole/gdc/DataElement.java:684-691 | For byte and short arrays the count as written is the slot count |
| Store.OutOfRange | src/ole/gdc/DataElement.java:475-559 | Definition, no contract: a byte outside [-128, 127] with `warnInConversion`, otherwise outside [-128, 255]; a short or int outside its signed range; never for other types; `StoreNumber` warns exactly when it holds |
| Store.SlotElemType | src/ole/gdc/DataElement.java:680-698 | Definition, no contract: byte, short and int arrays store their tokens as byte, short and int; a long array stores each token as a long array again |
| Store.ArrayCountAsWritten | src/ole/gdc/DataElement.java:680-691 | Definition, no contract: the token count plus the extra slots of wide constants, added up for byte and short arrays only; `IntArrayCountAsWritten` exhibits the int case |
| Store.ArrayCount | src/ole/gdc/DataElement.java:680-691 | Definition, no contract: the slots all tokens fill; `StoreIntegralArray` writes it as the prefix and `CountsAgree` ties it to the bytes |
| Fuzzy.ByteWrap | src/ole/gdc/DataElement.java:1002 | The byte counter wraps into -128..127 and leaves small counts alone |
| Fuzzy.ByteWrapStep | src/ole/gdc/DataElement.java:1002 | Incrementing a wrapped counter is wrapping the incremented count |
| Fuzzy.Occurrences | src/ole/gdc/DataElement.java:995-1007 | A byte value occurs at most as often as there are bytes |
| Fuzzy.Bump | src/ole/gdc/DataElement.java:1000-1003 | One step of the density loop keeps the 128 counters |
| Fuzzy.DensityOf | src/ole/gdc/DataElement.java:995-1007 | The density map has 128 entries |
| Fuzzy.Density | src/ole/gdc/DataElement.java:995-1007 | The density map of a text has 128 entries |
| Fuzzy.DensityCounts | src/ole/gdc/DataElement.java:995-1007 | Each entry above 32 is the byte count of that code, wrapped to a byte; entries up to 32 are zero |
| Fuzzy.DensityMap | src/ole/gdc/DataElement.java:995-1007 | The byte loop over the array computes exactly `Density` |
| Fuzzy.Count | src/ole/gdc/DataElement.java:1000-1003 | One byte counted in the array, as `Bump` |
| Fuzzy.Percent | src/ole/gdc/DataElement.java:977-981 | No length difference costs nothing |
| Fuzzy.Quotient | src/ole/gdc/DataElement.java:981 | Java's integer division of naturals: zero when the divisor is larger |
| Fuzzy.QuotientIsDivision | src/ole/gdc/DataElement.java:981 | It is the mathematical division |
| Fuzzy.ScoreOfParts | src/ole/gdc/DataElement.java:975-994 | The score is 100 less the length penalty less the sum of density differences over codes 33-127 |
| Fuzzy.DiffSumSelf | src/ole/gdc/DataElement.java:986-992 | A map differs from itself by nothing |
| Fuzzy.ScoreOfBounds | src/ole/gdc/DataElement.java:975-994 | A score is at most 100, and exactly 100 for equal lengths and maps |
| Fuzzy.ScoreBounds | src/ole/gdc/DataElement.java:975-994 | Any key scores at most 100, and the name itself scores 100 |
| Fuzzy.MatchingScore | src/ole/gdc/DataElement.java:975-994 | The loop computes exactly the score |
| Fuzzy.FindBestMatch | src/ole/gdc/DataElement.java:955-973 | Names of length outside 1-60 get nothing. Otherwise the result is a key with a positive score, at least every key's score, and strictly above every earlier key. No result means no key scores above 0 |
| Fuzzy.NameAmongKeys | src/ole/gdc/DataElement.java:955-973 | When the name itself is a key, the suggestion scores 100 |
| Fuzzy.Signed | src/ole/gdc/DataElement.java:1000 | Definition, no contract: a byte read as Java's signed `byte` |
| Fuzzy.DiffSum | src/ole/gdc/DataElement.java:986-992 | Definition, no contract: the sum of the absolute differences of the two maps, position by position; `DiffSumSelf` is zero |
| Fuzzy.ScoreOf | src/ole/gdc/DataElement.java:977-992 | Definition, no contract: 100 less the length penalty less `DiffSum` from code 33 on; `ScoreOfParts` and `ScoreOfBounds` state it |
| Fuzzy.Score | src/ole/gdc/DataElement.java:975-994 | Definition, no contract: `ScoreOf` on the UTF-16 lengths and density maps of the name and key; `ScoreBounds` and `MatchingScore` state it |
| ItemCount.StepLevel | src/ole/gdc/DataCompiler.java:560-574 | The count stops exactly at a `{#}` or `}` at the outermost level. An opener enters a level |
| ItemCount.Count | src/ole/gdc/DataCompiler.java:552-578 | No more items than lines |
| ItemCount.GetItemCount | src/ole/gdc/DataCompiler.java:552-578 | The loop computes exactly the items after the line index |
| ItemCount.CountBound | src/ole/gdc/DataCompiler.java:552-578 | The items are at most the openers |
| ItemCount.CountAppend | src/ole/gdc/DataCompiler.java:552-578 | Counting over a concatenation continues at the level the first part ends at, and stops if the first part stops |
| ItemCount.InsideCountsNothing | src/ole/gdc/DataCompiler.java:552-578 | Lines nested inside a block count nothing |
| ItemCount.BlockCountsOnce | src/ole/gdc/DataCompiler.java:552-578 | A whole block is one item, whatever it contains |
| ItemCount.StopsAtOnce | src/ole/gdc/DataCompiler.java:552-578 | A closing line first counts nothing |
| ItemCount.Walk | src/ole/gdc/DataCompiler.java:556-576 | Definition, no contract: the level after scanning the lines, or none when the scan stops among them; `CountAppend` uses it to split a count |
| ItemCount.ItemCount | src/ole/gdc/DataCompiler.java:552-578 | Definition, no contract: `getItemCount`: nothing past the end, otherwise the count from the line on at level 0; `GetItemCount` proves the loop equal to it, and `CountBound` and `BlockCountsOnce` state properties of the count |
| Continuations.Opening | src/ole/gdc/Utils.java:258-275 | A line that is not continued is just its comment removed. A result not marked multi-line is the comment-free line. Continuation is kept. The multi-line form is stated by `OpeningMultiLine` and `OpeningQuoted` |
| Continuations.Requoted | src/ole/gdc/Utils.java:265-273 | A requoted line stays continued. When the text after the `=` is not quoted, the line is unchanged and not marked |
| Continuations.OpeningMultiLine | src/ole/gdc/Utils.java:260-273 | A group marked multi-line starts with a continued line with an `=` before the first `"`. The text up to that `=` and the final backslash stay, and the text between them, quoted again, is the trimmed text that followed the `=` |
| Continuations.OpeningQuoted | src/ole/gdc/Utils.java:260-273 | Conversely, a continued line whose trimmed text after such an `=` is quoted is marked multi-line |
| Continuations.OpeningOf | src/ole/gdc/Utils.java:265-273 | The exact first line of a multi-line string: up to the `=`, the quoted text without its quotes, then the backslash |
| Continuations.JoinPiece | src/ole/gdc/Utils.java:290-309 | A continuation line joined to a line that is not continued: plain text after a space. The result of a line that still ends in a backslash keeps the backslash. The quoted case is stated by `JoinPieceQuoted` |
| Continuations.JoinPieceQuoted | src/ole/gdc/Utils.java:302-305 | A quoted last line is joined without its quotes and without a space: the line, then the quoted text's contents. It fails exactly on a lone `"` |
| Continuations.Joined | src/ole/gdc/Utils.java:276-310 | The join loop stops at a line that is not continued, with the index of the last line used. Each continuation line has its comment cut before it is joined. Continuing past the last line fails |
| Continuations.Wrap | src/ole/gdc/Utils.java:312-319 | A multi-line string gains two quote chars and ends in a quote. Otherwise the line is unchanged. Where the first quote goes is stated by `WrapQuotes` |
| Continuations.WrapQuotes | src/ole/gdc/Utils.java:312-319 | The text up to the first `=` stays, a quote follows it, then the rest of the line and a closing quote |
| Continuations.QuoteAfter | src/ole/gdc/Utils.java:315-318 | Joining `a"` and `b"` leaves `a`, then a quote, then `b` |
| Continuations.Group | src/ole/gdc/Utils.java:253-321 | One output item: the number and source of its first line, text not continued, ending at a later line |
| Continuations.Finish | src/ole/gdc/Utils.java:312-321 | The joined text becomes an item with the first line's number and source |
| Continuations.TwoLineString | src/ole/gdc/Utils.java:253-321 | `S = "ab"\` followed by `"cd"` becomes the one item `S ="abcd"`, with the first line's number and source |
| Continuations.EntriesOf | src/ole/gdc/Utils.java:252-257 | One entry per line: skipped when blank or a whole-line comment, otherwise the group starting there |
| Continuations.RemoveComments | src/ole/gdc/Utils.java:246-324 | The loop computes exactly `Assemble` |
| Continuations.AdvanceLine | src/ole/gdc/Utils.java:252-321 | One pass of the loop, against the plan entry of its line: a skipped line adds nothing and moves to the next line, a failing group fails, and a group that succeeds adds its item and moves past its last line |
| Continuations.AssembleAt | src/ole/gdc/Utils.java:252-321 | The items from a line on: a skipped line is passed over, a failing group fails them all, and a group's item comes before the items after its last line, which lies within the input |
| Continuations.AssembleAfterGroup | src/ole/gdc/Utils.java:321 | The item of a group that succeeds is followed by the items after its last line, which lies within the input |
| Continuations.NextGroup | src/ole/gdc/Utils.java:253-321 | One iteration of the outer loop at a line that is not skipped computes exactly the group the plan holds for it, `Group` |
| Continuations.Requote | src/ole/gdc/Utils.java:312-319 | The requoting computes exactly `Wrap` |
| Continuations.OpenLine | src/ole/gdc/Utils.java:258-275 | The opening computes exactly `Opening` |
| Continuations.JoinLines | src/ole/gdc/Utils.java:276-310 | The inner loop computes exactly `Joined` |
| Continuations.AssembleLength | src/ole/gdc/Utils.java:246-324 | There are never more items than lines |
| Continuations.EntriesOfGroupsFrom | src/ole/gdc/Utils.java:252-321 | Each group's item has its first line's number and source |
| Continuations.AssembleOrigins | src/ole/gdc/Utils.java:246-324 | Every item comes from a distinct, increasing first line, and carries that line's number and source |
| Continuations.TracedCons | src/ole/gdc/Utils.java:321 | Adding an item in front of later items keeps the origins increasing |
| Continuations.AssembleSingleLines | src/ole/gdc/Utils.java:246-324 | Without continuations and blank lines, each line becomes its comment-free self |
| Continuations.AssemblePlain | src/ole/gdc/Utils.java:246-324 | A file of plain lines passes through with only comments removed |
| Continuations.LastLineContinued | src/ole/gdc/Utils.java:279-280 | A continued last line fails, as the read past the end does |
| Continuations.Skipped | src/ole/gdc/Utils.java:255-257 | Definition, no contract: a blank line, or one starting with the comment marker |
| Continuations.Plan | src/ole/gdc/Utils.java:252-275 | Definition, no contract: the same length as the lines, and each entry a skip for a skipped line and otherwise the group that starts there |
| Continuations.AssembleWith | src/ole/gdc/Utils.java:252-322 | Definition, no contract: from an entry on: a skip adds nothing, a failing group fails, and a group's item comes before the items after its last line |
| Continuations.Assemble | src/ole/gdc/Utils.java:246-324 | Definition, no contract: `removeComments` as `AssembleWith` over the plan of the lines; `RemoveComments`, `AssembleOrigins`, `AssemblePlain` and `AssembleLength` state it |
| Preprocessor.Condition | src/ole/gdc/Utils.java:150-177 | Conditional directives keep the enabled flag at the top of the stack. Other lines leave the state alone |
| Preprocessor.ConditionCases | src/ole/gdc/Utils.java:150-177 | `#ifdef` pushes whether the name is defined, `#ifndef` the opposite. `#else` flips the top. `#endif` pops. Overflow, an empty stack and a bare keyword each fail |
| Preprocessor.GetLineList | src/ole/gdc/Utils.java:128-223 | The array-stack loop over the physical lines computes exactly the file's pass |
| Preprocessor.ProcessLine | src/ole/gdc/Utils.java:147-207 | One loop iteration computes exactly one line step, and keeps the stack index in range |
| Preprocessor.Conditional | src/ole/gdc/Utils.java:150-177 | The conditionals on the array stack match `Condition` |
| Preprocessor.RunDirective | src/ole/gdc/Utils.java:179-207 | The directives of an enabled line compute exactly `Directive` |
| Preprocessor.FileFromItems | src/ole/gdc/Utils.java:146-210 | The items only grow, and each new item is a line of the file or of an included file |
| Preprocessor.PreprocessItems | src/ole/gdc/Utils.java:128-223 | Every item of a successful pass is traceable to a line of an input file |
| Preprocessor.LineStepItems | src/ole/gdc/Utils.java:147-207 | One line only appends traceable items |
| Preprocessor.DirectiveItems | src/ole/gdc/Utils.java:179-207 | A directive only appends traceable items |
| Preprocessor.DirectiveLineItems | src/ole/gdc/Utils.java:180-181 | A plain line appends its own item |
| Preprocessor.DirectiveIncludeItems | src/ole/gdc/Utils.java:190-201 | An include only appends lines of the included file |
| Preprocessor.DirectiveKeepsItems | src/ole/gdc/Utils.java:183-205 | Directives other than `#include` add no items |
| Preprocessor.IncludeItems | src/ole/gdc/Utils.java:190-201 | The items an included file adds are lines of files it reaches |
| Preprocessor.GrowsIncluded | src/ole/gdc/Utils.java:190-201 | What an included file adds is traceable from the including one |
| Preprocessor.LineStepCases | src/ole/gdc/Utils.java:147-207 | An empty line changes nothing. A failing conditional stops. A disabled line only moves the stack. An enabled line runs its directive |
| Preprocessor.DirectiveBare | src/ole/gdc/Utils.java:183-205 | A directive keyword with nothing after it fails as `substring` does |
| Preprocessor.DirectiveError | src/ole/gdc/Utils.java:187-188 | `#error` stops with its message |
| Preprocessor.DirectiveUndef | src/ole/gdc/Utils.java:203-205 | `#undef` removes exactly that constant and goes on |
| Preprocessor.DirectiveDefine | src/ole/gdc/Utils.java:183-185 | `#define` defines its argument |
| Preprocessor.DefineCases | src/ole/gdc/Utils.java:183-185 | A definition adds its constant as `addConstant` does. Or it fails with its error, the table keeping what `addConstant` put before it threw (`Constants.TableAfter`) |
| Preprocessor.FailedDefineKeepsValue | src/ole/gdc/Utils.java:183-185 | A redefinition under warnings-as-errors stops the pass, with the new value already in the table and the items and log unchanged |
| Preprocessor.IncludeSwallowsErrors | src/ole/gdc/Utils.java:60-87 | An included file that fails is passed over, keeping what it added, including a constant put by a redefinition that then failed. Only unbounded recursion escapes |
| Preprocessor.PlainFile | src/ole/gdc/Utils.java:146-210 | A file without directives yields every non-empty line, comment removed, with its number and source |
| Preprocessor.PlainFileStep | src/ole/gdc/Utils.java:148-181 | A plain line's item comes before those of the rest of the file |
| Preprocessor.PlainLine | src/ole/gdc/Utils.java:148-181 | A plain line appends its comment-free item and leaves the conditional state |
| Preprocessor.Directive | src/ole/gdc/Utils.java:179-207 | Definition, no contract: in an enabled region a plain line becomes an item, and `#define`, `#error`, `#include` and `#undef` act; stated case by case by the `Directive*` lemmas |
| Preprocessor.Define | src/ole/gdc/Utils.java:183-186 | Definition, no contract: `addConstant` on the argument, whose error stops the pass with the table `addConstant` left; stated by `DefineCases` and `FailedDefineKeepsValue` |
| Preprocessor.Include | src/ole/gdc/Utils.java:190-201 | Definition, no contract: a missing file is passed over, and the included file's pass runs from line 1 with an empty stack, its failure swallowed unless the fuel ran out; stated by `IncludeSwallowsErrors` and `IncludeItems` |
| Preprocessor.LineStep | src/ole/gdc/Utils.java:146-209 | Definition, no contract: one physical line: an empty one is passed over, the conditional directives act, and in an enabled region the line is a directive or an item; stated by `LineStepCases` and `LineStepItems` |
| Preprocessor.FileFrom | src/ole/gdc/Utils.java:146-214 | Definition, no contract: the lines from a position on, line `i` numbered `i + 1`, and an open conditional at the end an error; `GetLineList` and `FileFromItems` state it |
| Preprocessor.Preprocess | src/ole/gdc/Utils.java:128-223 | Definition, no contract: the pass over a whole file from an empty stack, its error making the result null; `PreprocessItems` and `PlainFile` state it |
| Binarizer.Start | src/ole/gdc/DataCompiler.java:310-320 | The initial state is well-formed: level 0, no struct, a full stack |
| Binarizer.Emit | src/ole/gdc/DataCompiler.java:502-506 | Writing data appends exactly the bytes and warnings that storing the element with its own type gives, and takes the constants table it leaves. Element and struct tables are unchanged. A failing store fails with its error |
| Binarizer.SkipTo | src/ole/gdc/DataCompiler.java:430-447 | The cursor stops at a later field of that name, writing only appends. A cursor already on the name stays put |
| Binarizer.SkipToFirst | src/ole/gdc/DataCompiler.java:430-447 | The cursor stops at the first field of that name, and every field passed is constant |
| Binarizer.SkipToMissing | src/ole/gdc/DataCompiler.java:430-447 | A name that no later field has fails |
| Binarizer.Fill | src/ole/gdc/DataCompiler.java:456-468 | Closing a block writes every remaining field's default. It fails exactly when one of them is not constant. No remaining field changes nothing. The order is stated by `FillInOrder` |
| Binarizer.FillInOrder | src/ole/gdc/DataCompiler.java:456-468 | The default of the field at the cursor is stored first, with its own type, and the fields after it are filled from what it leaves |
| Binarizer.StructName | src/ole/gdc/DataCompiler.java:330-343 | A struct header without `{` is a syntax error. A name is non-empty |
| Binarizer.Declare | src/ole/gdc/DataCompiler.java:328-386 | Declarations at the outermost level write nothing and only append warnings. The cases are stated by `DeclareHeader`, `DeclareEnd`, `DeclareField` and `DeclareGlobal` |
| Binarizer.DeclareHeader | src/ole/gdc/DataCompiler.java:330-343 | A struct header inside a struct definition fails. Otherwise it fails as its name does, or opens an empty struct of that name |
| Binarizer.DeclareEnd | src/ole/gdc/DataCompiler.java:346-354 | A `}` outside a definition fails, and so does one ending an empty struct. Otherwise the struct is registered under its name and closed |
| Binarizer.DeclareField | src/ole/gdc/DataCompiler.java:358-369 | A struct-typed field must name a registered struct. A new field is appended last. A redefined one keeps its place and warns |
| Binarizer.DeclareGlobal | src/ole/gdc/DataCompiler.java:358-384 | A struct-typed variable fails. An element with a value becomes a constant, one without a global element. A redefinition warns. Nothing is written |
| Binarizer.Nested | src/ole/gdc/DataCompiler.java:404-449 | A `{NAME` block opens a registered struct. With a parent, the parent's cursor moves to that field and only that slot of the cursors changes |
| Binarizer.Open | src/ole/gdc/DataCompiler.java:397-452 | Opening a block enters one level with the cursor at 0, pushes its struct, and moves the outer cursor past the current field. A bare `{`, or one with no enclosing struct, moves it by exactly one |
| Binarizer.Close | src/ole/gdc/DataCompiler.java:454-472 | Closing a block fills the defaults, then returns one level to the struct and cursor saved on the stack. A non-constant remaining field fails |
| Binarizer.DataText | src/ole/gdc/DataCompiler.java:473-498 | No tokens cannot convert. The name is the first token, trimmed. One token must be a constant with a value, which is written with its own type and is the value. Two tokens give the second as the value. With more, the value is the line from the first occurrence of the second token on |
| Binarizer.StructValue | src/ole/gdc/DataCompiler.java:508-537 | A value in a struct moves the cursor just past its field, and every field skipped is constant. A cursor past the end fails. With the cursor on a field it is `FieldValue` |
| Binarizer.FieldValue | src/ole/gdc/DataCompiler.java:508-537 | The cursor skips to the field of that name, writing the defaults it passes, and then the value is written as that field |
| Binarizer.FieldValueAfterSkip | src/ole/gdc/DataCompiler.java:508-537 | Once the skip has stopped at a field, the result is that field's write, with the cursor just past it |
| Binarizer.GlobalValue | src/ole/gdc/DataCompiler.java:500-507 | A constant reference writes nothing more. An unknown name fails. Otherwise the value is written as the global element of that name |
| Binarizer.Value | src/ole/gdc/DataCompiler.java:473-538 | A data line keeps the level and struct and only appends. Inside a struct it moves the cursor forward within the fields |
| Binarizer.Step | src/ole/gdc/DataCompiler.java:321-541 | One line keeps the state well-formed and only appends |
| Binarizer.StepCases | src/ole/gdc/DataCompiler.java:328-472 | At level 0 a non-block line is a declaration and writes nothing. `{#}` writes the item count of the block as the array prefix. Another `{` opens a block, and `}` closes one |
| Binarizer.IterateKeeps | src/ole/gdc/DataCompiler.java:321-541 | A property each step keeps holds after every run of steps |
| Binarizer.NextGrows | src/ole/gdc/DataCompiler.java:321-541 | Each loop step keeps well-formedness and only appends |
| Binarizer.RunAppends | src/ole/gdc/DataCompiler.java:321-541 | The pass only appends bytes and warnings |
| Binarizer.RunNext | src/ole/gdc/DataCompiler.java:321-541 | A failing line aborts the pass. A succeeding line passes its state on |
| Binarizer.BinarizedOutput | src/ole/gdc/DataCompiler.java:309-550 | What the pass writes is bytes |
| Binarizer.StepConsistent | src/ole/gdc/DataCompiler.java:397-472 | Every step keeps the struct stack holding the struct of every open block |
| Binarizer.RunConsistent | src/ole/gdc/DataCompiler.java:321-541 | Every state the pass reaches keeps the stack consistent |
| Binarizer.BlockRestores | src/ole/gdc/DataCompiler.java:397-472 | When the lines inside a block leave its stack as they found it, closing the block returns to the level and struct it was opened in, with the cursor past the field the block filled |
| Binarizer.SkipFields | src/ole/gdc/DataCompiler.java:430-447 | The skip loop computes exactly `SkipTo` |
| Binarizer.FillDefaults | src/ole/gdc/DataCompiler.java:456-468 | The default-filling loop computes exactly `Fill` |
| Binarizer.NestedStruct | src/ole/gdc/DataCompiler.java:404-449 | The nested-block branch computes exactly `Nested` |
| Binarizer.FieldStruct | src/ole/gdc/DataCompiler.java:415-447 | The branch with a parent struct computes exactly `Nested` |
| Binarizer.NestedSkipped | src/ole/gdc/DataCompiler.java:426-447 | When the skip stops at field `k`, the block is the field's struct and the parent's cursor slot becomes `k + 1` |
| Binarizer.NestedSkipFails | src/ole/gdc/DataCompiler.java:426-447 | When the skip fails, opening the block fails with the same error |
| Binarizer.NestedInField | src/ole/gdc/DataCompiler.java:415-447 | Once the parent's field names a registered struct and the cursor is on a field, the block is that struct and the parent's cursor slot moves past the field `SkipTo` stops at; a failing skip fails |
| Binarizer.EnterField | src/ole/gdc/DataCompiler.java:426-447 | The parent's cursor moves to the field the block fills, as `SkipTo` says |
| Binarizer.OpenBlock | src/ole/gdc/DataCompiler.java:397-452 | The `{` branch on the arrays computes exactly `Open` |
| Binarizer.CloseBlock | src/ole/gdc/DataCompiler.java:454-472 | The `}` branch on the arrays computes exactly `Close` |
| Binarizer.ReadData | src/ole/gdc/DataCompiler.java:474-498 | Reading a data line computes exactly `DataText` |
| Binarizer.StoreField | src/ole/gdc/DataCompiler.java:508-537 | Writing into the struct computes exactly `StructValue` |
| Binarizer.StoreAtField | src/ole/gdc/DataCompiler.java:508-537 | The skip loop then the field write compute exactly `FieldValue` |
| Binarizer.StoreValue | src/ole/gdc/DataCompiler.java:473-538 | The data branch computes exactly `Value` |
| Binarizer.ProcessLine | src/ole/gdc/DataCompiler.java:322-540 | One loop iteration on the arrays computes exactly `Step` |
| Binarizer.Binarize | src/ole/gdc/DataCompiler.java:309-550 | The whole loop computes exactly the pass |
| Binarizer.RestOfLine | src/ole/gdc/DataCompiler.java:494-498 | Definition, no contract: the line from the first occurrence of the value on; `DataText` states its use |
| Binarizer.Iterate | src/ole/gdc/DataCompiler.java:321-541 | Definition, no contract: a step applied to the lines in turn, the first failure aborting; `IterateKeeps` states what it keeps |
| Binarizer.Run | src/ole/gdc/DataCompiler.java:321-541 | Definition, no contract: `Iterate` of `Step` over the lines; `RunAppends`, `RunNext` and `RunConsistent` state it |
| Binarizer.Binarized | src/ole/gdc/DataCompiler.java:309-550 | Definition, no contract: the run from the start state over the preprocessor's constants, giving the tables and the bytes; `Binarize` and `BinarizedOutput` state it |

## Left out

- Reading files, readers and character encodings are left out. An `#include` looks its name up in a map from file name to lines, so `findFile` and the include directories are not modelled. Text is assumed to be UTF-8 where the original asks the platform's default.
- Runaway `#include` recursion is bounded by a fuel parameter. When the fuel runs out the result is the error `Diverges`, where the original overflows its stack.
- Console output is left out: the verbose printing, `printStackTrace`, warning and error message texts, and the "Did you mean" suffix. An error keeps only its kind. A warning keeps its kind and arguments.
- Float and double values, float and double arrays with elements, and `file` data are left out, because floating point and file reading are outside this model. Storing them gives `Err(Unsupported)`, and their declarations are still parsed.
- Bytes written before a failure are left out. A failing store or pass returns only the error, since the original then aborts the whole compilation.
- Store.StoreIntegralArray: a long array with elements gives `Err(Diverges)`. The original stores each token as a long array again, without end.
- Preprocessor.Include: when a `#define` in an included file fails inside `guessType`, constants that resolution had already marked checked or resolved return to their earlier state. The original keeps those changes in its shared table and the including file goes on with them. A failure after the put in `addConstant` is modelled, because `Constants.TableAfter` keeps that put.
- Structs are kept as a map from name to field list. A `DataStruct` object shared between tables is therefore a value.
- Structs.DataStruct.GetElement: its search loop is the function `FindField`, not a method.
- Preprocessor.Condition: the enabled flag is the top of the stack, as the code has it. An `#ifdef` nested in a disabled region is enabled by its own test alone, not combined with the outer levels.
- UnicodeEscapes.CodeChar: an escape naming a UTF-16 surrogate (D800-DFFF) becomes U+FFFD, because Dafny chars cannot hold a lone surrogate.
- Binarizer.Step: a state that is not well-formed cannot arise. Its error branch is therefore never taken.
- Binarizer.Binarize: the loop is split into one method per branch. Each array write is stated against the specification function.
- Binarizer.DataText: a data line of more than two tokens takes its value from the first occurrence of its second token on, as the code does. That occurrence can lie inside the name: `ab=b:c` gives the value `b=b:c`. This is modelled as written. The `indexOf < 0` branch cannot be reached, because the second token is part of the line.
- Binarizer.StructValue: a bare constant reference inside a struct writes the constant twice, once for the reference and once by the field store. This is modelled as written.
- Continuations.JoinPiece: a middle line of a multi-line string keeps its inner quotes. The cut at `Utils.java:290-292` tests the joined text, not the new line. This is modelled as written.
- Numbers.DigitValue: only ASCII digits and letters have a digit value. `Character.digit` also gives one to the other Unicode decimal digits (`٣` is 3) and to the fullwidth Latin letters. The Unicode digit table is not part of this model.
- Numbers.Decode: inherits the ASCII-only digits of `DigitValue`. A number written with other Unicode digits, such as `B=٣`, fails to decode in the model, while `Long.decode` at `DataElement.java:465` accepts it.
- Numbers.DecodeLong: inherits the ASCII-only digits of `Decode`, unlike `Long.decode` at `DataElement.java:465` and `831`.
- Numbers.DecodeInt: inherits the ASCII-only digits of `Decode`, unlike `Integer.decode` at `DataElement.java:154` and `917`.
- Continuations.JoinPiece: cuts the new line at the joined line's length less one, counted in chars, where `Utils.java:292` counts UTF-16 units. The two differ only when a char above U+FFFF comes before the cut. Java's cut can then fall inside a surrogate pair, and a Dafny string cannot hold the lone half it leaves.
- Lines.GetIncludeName: drops the last char, where `Utils.java:229` drops the last UTF-16 unit. For a name ending in a char above U+FFFF, Java keeps a lone high surrogate, which a Dafny string cannot hold.

## Findings

| source | as written | input that shows it | evidently intended | confidence | as-written member | corrected member |
|---|---|---|---|---|---|---|
| src/ole/gdc/DataElement.java:453-564 | A non-strict byte, short or int store of a constant whose type is not integral writes no byte: no `elementType` branch matches. `getElementCount` still counts it as one slot | `float F 5` then a `byte[]` value `F`: the count says 1 byte, the data has 0 | Write the value at the slot's own width | not executed | Store.NonIntegralSlotAsWritten | Store.SlotWidth |
| src/ole/gdc/DataElement.java:680-691 | Int arrays skip the count loop, because `elementType` there is 3 while `TYPE_INT` is 4. Each token counts one slot | `long L 5` then an `int[]` value `L`: the prefix says 1, the data is 8 bytes (2 int slots) | Count the extra slots of wide constants for int arrays too | not executed | Store.IntArrayCountAsWritten | Store.StoreIntegralArray |
| src/ole/gdc/DataCompiler.java:205 | `checkElements` builds its message from the static `li`, which only `binarize` sets (line 322). So a valued redefinition by `#define` or `-D` dereferences null and aborts | `-DA=1,A=2`, or `#define A 1` followed by `#define A 2` | Warn about the redefinition (fail only under warnings-as-errors) | not executed | Constants.AddConstantAsWritten | Constants.AddConstant |
