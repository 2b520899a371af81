# A verified model of the JSON codec, the fibre runtime and the logging queue

The project models three parts of the repository and proves what they are for.

**The JSON codec.** `Utf8`, `StringCodec` and `NumberCodec` hold the loops that write and read strings and integers.
`Lexer` and `Parser` give the tokens and the grammar of `OurReader` as functions of the input left; `Reader` is the
reader itself, a class with the document, a cursor, the stack of nodes and the list of errors, whose methods are proved
to finish and to do what those functions say, for every byte sequence and every feature setting. `FastWriter` and
`StyledWriter` are the two printers as classes; `StyledText` is the layout that the second one writes. `Tokens` says
which lexemes a value stands for and when a text renders them. `Grammar` has syntax trees over lexemes, how they are
spelled and what they mean, and shows that the reader accepts exactly the documents that spell a tree with a value.
`ObjectMembers` says what an object holds once it is read, and `Extensions` gives the bytes of what is accepted beyond
JSON. `JsonTexts` says which bytes are a JSON text of RFC 8259, which accepted documents are one, and which of them are
accepted. `ParseTokens` and `RoundTrip` show that whatever renders the lexemes of a value is a JSON text and is read
back as that value. `JsonValue` has the ordering of values and `ValueArray` the array operations on the sorted map.

**The fibre runtime.** `Timers` is the timer manager as a class over a sorted set. `Scheduler` has the shared task list
as a class, and the workers, the idle fibres and `stop` as a transition system. `IOManager` keeps the bookkeeping of
event registrations twice: as a value with an invariant, and as objects whose methods compute that value, beside a ghost
copy of the kernel's interest set. `FibreRuntime` is a transition system of fibres in hooked calls, event contexts,
timers, callbacks and workers, with a clock; its invariant locates every fibre. `Timeouts` shows on it when a call
answers ETIMEDOUT, and when its timeout can still wake it, `CallTimers` that no timer outlives its round, and `Sleeps`
that a sleep lasts, and ends.

**The logging queue.** `CircularQueue` is the ring buffer and the ring buffer sink as classes, `ThreadPool` the blocking
queue and the shutdown by terminate messages.

A protocol is a `State`, a `Label` for each step, `Enabled` and `Apply`; a run is a sequence of labels, and a theorem
about runs quantifies over all of them. A step is one critical section, or one action of a thread on its own data.

## What is assumed

- Setting a fibre's state and swapping its context are one step. The code writes `READY` before `swapcontext`
  (src/fiber.cc:163-181), so a finer interleaving could resume a fibre whose registers are not saved yet.
- Reading the clock and taking the lock in `listExpiredCb` are one step, and so are the size check and `contextResize`
  in `addEvent`.
- Deadlines fit 64 bits, and timers have a callback.
- `epoll_ctl` may refuse any call (`refused`); a legal call that is not refused takes effect.
- Fibres are scheduled only by the hooked calls, their timers and their events. A user who schedules a fibre that is
  parked elsewhere breaks the one-place property by intent.
- Numbers are those of 64-bit machine integers, arrays have fewer than 2^32 elements, strings and keys fit memory.
- Reading and printing a `double` are two unspecified functions in `Features`.

## Properties that turned out to have conditions

- Decoding what the escaping writer produced gives the string back if and only if it is well-formed UTF-8
  (`RoundTripEscaped`).
- With `failIfExtra`, an accepted document is a JSON text of RFC 8259 if and only if each of its tokens is legal there and
  no two neighbours are a bad pair, such as a comma and a closing brace (`AcceptedIsJson`). The reader accepts more even
  with every extension off: a comma after a member with an empty name (`EmptyNameAllowsTrailingComma`), and after a
  comment any token for a comma (`CommentHidesMissingComma`). Without `failIfExtra` anything may follow the text. What is
  accepted in all cases is exactly what `AcceptsExactlyTheTexts` says.
- `compare` and `operator==` agree on a value and itself if and only if no NaN is inside (`CompareWithItself`).
- A value comes back with the very same constructors if and only if it has no unsigned number that fits a signed one
  (`ComesBackUnchanged`).
- The assertion of a dispatch fails if and only if a report names both a registered event and one no longer registered
  (`DispatchFails`).
- An unclosed C-style comment is taken for complete if and only if the text ends with a slash (`CStyleUnclosed`).
- `Timer::refresh` and an expiry may need a wake-up that is not sent when the clock has been set back (`Timer.Refresh`,
  `ListExpiredCb`); with a clock that does not go back none is lost.
- `stop` leaves nothing behind if and only if the scheduler had a worker or nothing to do (`StopDrains`,
  `StopWithoutStart`).
- The destructor of a thread pool can get through if and only if the queue has room (`DestructorEndsWithRoom`); then it
  always does (`DestructorAlwaysEnds`).
- The timeout of a hooked call wakes its fibre unless it is lost: its callback has marked the call and made its cancel
  while the fibre was not registered. Then nothing but the event, a close or a cancel for another call on the same event
  ever wakes the fibre (`TimeoutCanWake`, `LostStaysLost`). It can happen because the timer is added before the event is
  registered (`TimeoutsCanBeLost` is such a run), and a callback left over from an earlier round can do it too.
- `sleep(seconds)` lasts that long if and only if the seconds are at most 4294967, since the milliseconds are counted in 32
  bits (`SleepAsksForSeconds`, `SecondsLast`, `LongSleepIsShort`); `usleep` drops what is left of a millisecond.
- `Timer::reset` answers true for a cancelled timer when nothing would change (`Timers.Timer.Reset`).

## Model

| member | source | states |
|---|---|---|
| Utf8.CodePointToUTF8 | include/json/json_tool.h:39-65 | the byte-by-byte construction yields the RFC 3629 encoding of every code point, and the empty string above 0x10FFFF |
| Utf8.Utf8ToCodepoint | src/json_writer.cpp:188-254 | the cursor arithmetic yields the code point and the last byte consumed of the functional decoder, malformed and truncated sequences included, and never passes the end |
| Utf8.DecodeThenEncode | src/json_writer.cpp:188-254 | decoding the front of a well-formed string and encoding the code point gives back exactly the bytes consumed |
| Utf8.EncodeThenDecode | include/json/json_tool.h:39-65 | decoding the encoding of a Unicode scalar value gives the value back, whatever follows it |
| Utf8.EncodedFrontWellFormed | include/json/json_tool.h:39-65 | the encoding of a scalar value is a well-formed character in front of any string |
| StringCodec.HighSurrogate | src/json_writer.cpp:338-343 | above 0xFFFF the first unit lies in 0xD800..0xDBFF (RFC 2781, section 2.1) |
| StringCodec.LowSurrogate | src/json_writer.cpp:338-343 | above 0xFFFF the second unit lies in 0xDC00..0xDFFF |
| StringCodec.UnitLength | src/json_writer.cpp:289-349 | one round of the write loop consumes at least one byte and never passes the end, for every byte string |
| StringCodec.PlainBody | src/json_writer.cpp:275-282 | the shortcut is sound: a string that needs no escape is its own quoted body |
| StringCodec.DoesAnyCharRequireEscaping | src/json_writer.cpp:180-186 | true exactly when some byte is a backslash, a quote, a control character or not ASCII |
| StringCodec.AppendCodePoint | src/json_writer.cpp:331-343 | the cascade over the size of a code point appends exactly its escape, surrogate pair included |
| StringCodec.AppendUnit | src/json_writer.cpp:289-349 | one round of the write loop appends the unit at the cursor and leaves the cursor on its last byte |
| StringCodec.ValueToQuotedStringN | src/json_writer.cpp:275-350 | the quoting loop, with its shortcut, produces the quoted form that the round-trip lemmas are about |
| StringCodec.DecodeUnicodeEscapeSequence | src/json_reader.cpp:1758-1782 | the digit loop computes the value of four hex digits of either case, or the error, within the token |
| StringCodec.DecodeUnicodeCodePoint | src/json_reader.cpp:1733-1756 | surrogate pairs are joined; a high surrogate without a following escape is an error; the cursor stays inside the token |
| StringCodec.DecodeEscape | src/json_reader.cpp:1693-1729 | each escape letter gives its byte, `u` gives the UTF-8 of its code point, any other letter an error |
| StringCodec.DecodeString | src/json_reader.cpp:1680-1731 | the decode loop over the token computes the functional decoding, for every token text |
| StringRoundTrip.QuotedIsLegal | src/json_writer.cpp:275-350 | for every byte string and either setting the quoted form is a string of section 7 of RFC 8259: only legal escapes, no raw control byte, quote or backslash |
| StringRoundTrip.LegalScans | src/json_reader.cpp:1422-1444 | the scan passes over the body of every string of section 7 of RFC 8259 |
| StringRoundTrip.QuotedIsOneToken | src/json_reader.cpp:1422-1444 | for every byte string and either setting, scanning from after the opening quote stops exactly at the closing one, whatever follows |
| StringRoundTrip.QuotedIsAscii | src/json_writer.cpp:275-350 | without `emitUTF8` the quoted form of every byte string is pure ASCII |
| StringRoundTrip.SurrogatePairDecodes | src/json_reader.cpp:1733-1756 | the two escapes written for a pair decode to one code point |
| StringRoundTrip.RoundTripRaw | src/json_writer.cpp:275-350 | with `emitUTF8`, `decodeString` gives back every byte string |
| StringRoundTrip.RoundTripEscaped | src/json_writer.cpp:275-350 | without `emitUTF8`, `decodeString` gives back the string if and only if it is well-formed UTF-8 |
| StringRoundTrip.FourDigitsAre | src/json_reader.cpp:1758-1782 | four characters are read as a number below 0x10000 if and only if they are its digits in base sixteen, each of either case; and if and only if they are the digits the writer emits for it, up to case |
| StringRoundTrip.HexCaseDoesNotMatter | src/json_reader.cpp:1733-1782 | for every legal string body, surrogate pairs included: changing the case of the hexadecimal letters in its escapes keeps it legal and changes neither what it decodes to nor the error |
| StringRoundTrip.TokenCaseDoesNotMatter | src/json_reader.cpp:1680-1731 | the same for whole string tokens |
| StringRoundTrip.LettersDecode | src/json_reader.cpp:1693-1729 | the eight escapes of one letter, in front of any text, with the bytes they stand for |
| StringRoundTrip.SlashDecodes | src/json_reader.cpp:1696-1698 | the token of an escaped slash decodes to the one byte 0x2F |
| NumberCodec.DecimalValue | include/json/json_tool.h:81-87 | the digits written for a number denote that number, and only zero starts with a zero |
| NumberCodec.FormatIntIsLegal | src/json_writer.cpp:94-110 | every integer printed is a number of section 6 of RFC 8259 |
| NumberCodec.DecimalFits | include/json/json_tool.h:67-74 | the digits, a sign and the terminator of every 64-bit integer fit the 25-byte buffer |
| NumberCodec.UintToString | include/json/json_tool.h:81-87 | writing backwards into the buffer leaves the decimal digits and a NUL in front of the old position, and nothing else changes |
| NumberCodec.ValueToStringInt | src/json_writer.cpp:94-108 | the decimal form of every signed 64-bit integer, the least one included |
| NumberCodec.ValueToStringUInt | src/json_writer.cpp:110-116 | the decimal form of every unsigned 64-bit integer |
| NumberCodec.GuardStep | src/json_reader.cpp:1593-1611 | when the overflow guard fires on a digit the whole number exceeds the limit; while it does not, the value so far stays within |
| NumberCodec.GuardIsExact | src/json_reader.cpp:1593-1611 | the guard fires on some digit of a number exactly when the number exceeds the limit |
| NumberCodec.ReadMagnitude | src/json_reader.cpp:1589-1611 | for a digit string of any length the loop answers the exact magnitude, never wrapping, or reports that it does not fit |
| NumberCodec.DecodeNumber | src/json_reader.cpp:1562-1640 | the integer branch is taken exactly when the number lies in -2^63..2^64-1, and then the value is exact and of the right signedness |
| NumberCodec.IntRoundTrip | src/json_reader.cpp:1562-1640 | `decodeNumber` inverts `valueToString` on every signed 64-bit integer |
| NumberCodec.UIntRoundTrip | src/json_reader.cpp:1562-1640 | and on every unsigned one, except that a value not above the largest signed integer comes back signed |
| JsonValue.BytesTrichotomy | src/json_value.cpp:295-324 | `CZString` order: of two byte strings exactly one is less, or they are the same |
| JsonValue.BytesTransitive | src/json_value.cpp:295-310 | `CZString` order is transitive |
| JsonValue.BytesEqualIsEquality | src/json_value.cpp:312-324 | `CZString` equality is equality of the strings |
| JsonValue.EqualIsEquality | src/json_value.cpp:546-588 | `operator==` on NaN-free nested values is equality of the trees |
| JsonValue.Trichotomy | src/json_value.cpp:490-538 | for NaN-free nested values exactly one of less, greater, equal holds |
| JsonValue.Transitivity | src/json_value.cpp:490-538 | `operator<` is transitive through arbitrarily deep arrays and objects |
| JsonValue.Irreflexive | src/json_value.cpp:490-538 | `operator<` is irreflexive on all values, NaN included |
| JsonValue.CompareAgrees | src/json_value.cpp:482-488 | `compare` answers 0 exactly on `operator==`, and is antisymmetric |
| JsonValue.CompareWithItself | src/json_value.cpp:482-588 | the exact limit of that agreement: a value is `==` to itself if and only if no NaN is inside, while `compare` always answers 0 |
| JsonValue.BytesLessIs | src/json_value.cpp:295-310 | one byte string is less if and only if at some position the two agree so far and the first either ends there, while the second does not, or has the smaller byte |
| JsonValue.ScalarOrder | src/json_value.cpp:490-520 | values of different kinds are ordered by kind; numbers, booleans and doubles of one kind as such, infinities outside; strings as byte strings |
| JsonValue.ArrayOrder | src/json_value.cpp:521-538 | of two arrays the shorter is less; of one length, the one with the lesser first differing element |
| JsonValue.ObjectOrder | src/json_value.cpp:521-538 | of two objects the one with fewer members is less; of one size, the one with the lesser first differing pair of key and value |
| JsonValue.TiesAreEqual | src/json_value.cpp:490-588 | without NaN, neither of two values is less if and only if they are the same |
| JsonValue.CompareIs | src/json_value.cpp:482-488 | `compare` is negative exactly when the first is less and positive exactly when the second is |
| Lexer.TokenSplits | src/json_reader.cpp:1158-1267 | the text of a token and what is left after it make up what was there, for every input and setting |
| Parser.LowerBound | src/json_value.cpp:1057-1072 | the first position whose key is not less: every earlier key is less |
| Parser.SuccessMeansNoErrors | src/json_reader.cpp:1010-1054 | `parse` answers true exactly when it has recorded no error |
| Reader.OurReader.GetNextChar | src/json_reader.cpp:1814-1818 | the next character and the cursor after it; NUL at the end, where the cursor stays |
| Reader.OurReader.SkipSpaces | src/json_reader.cpp:1269-1277 | the cursor moves over exactly the leading whitespace |
| Reader.OurReader.SkipBom | src/json_reader.cpp:1279-1287 | a byte order mark is skipped exactly when the feature is on and it is there |
| Reader.OurReader.Match | src/json_reader.cpp:1289-1298 | comparing from the end consumes the pattern exactly when it comes next |
| Reader.OurReader.ReadCStyleComment | src/json_reader.cpp:1366-1378 | the loop ends where the functional scan does, a final `/` without `*` included |
| Reader.OurReader.ReadCppStyleComment | src/json_reader.cpp:1380-1394 | the loop ends after the first line end of any of the three kinds |
| Reader.OurReader.ReadNumber | src/json_reader.cpp:1396-1420 | the look-ahead over digits, fraction and exponent ends where the functional scan does |
| Reader.OurReader.ReadString | src/json_reader.cpp:1422-1444 | the loop stops where the scan does, escapes included |
| Reader.OurReader.ReadToken | src/json_reader.cpp:1158-1267 | the token that the functional lexer gives, with its position, for every input and feature setting |
| Reader.OurReader.SkipCommentTokens | src/json_reader.cpp:1148-1156 | the first token that is not a skipped comment |
| Reader.OurReader.RecoverFromError | src/json_reader.cpp:1793-1804 | the loop finishes, restores the errors recorded before it, and stops where the functional recovery does |
| Reader.OurReader.ReadScalar | src/json_reader.cpp:1072-1146 | each scalar token gives its value, its error or its exception; a dropped null un-reads its token |
| Reader.OurReader.ReadValue | src/json_reader.cpp:1056-1146 | finishes on every input and setting; the cursor stays in the document, the node stack regains its height, exactly one error is recorded when it answers false and none when it answers true; value, errors and position are those of the grammar |
| Reader.OurReader.ReadObject | src/json_reader.cpp:1446-1508 | the member loop builds the map the grammar describes, with recovery at each error |
| Reader.OurReader.ReadMember | src/json_reader.cpp:1486-1493 | the pushed member is read in place and written back under its key |
| Reader.OurReader.ReadArray | src/json_reader.cpp:1510-1550 | the element loop builds the elements the grammar describes |
| Reader.OurReader.ReadItem | src/json_reader.cpp:1527-1533 | the pushed element is read in place |
| Reader.OurReader.Parse | src/json_reader.cpp:1010-1054 | `parse` ends on every byte sequence and feature setting with the answer, value and errors of the grammar, or the exception of a limit |
| Tokens.RendersAppend | src/json_writer.cpp:381-432 | rendering composes: texts of token sequences concatenate |
| Tokens.LegalReads | src/json_reader.cpp:1158-1267 | every token of RFC 8259 is read whole under every setting, unless it is a number that the next character extends |
| Tokens.RenderedLexes | src/json_reader.cpp:1158-1267 | a text that renders separated lexemes, with any whitespace between them, lexes to exactly those |
| Tokens.TokensSeparated | src/json_writer.cpp:381-432 | in the tokens of a value a number is always followed by punctuation or nothing |
| Grammar.SpelledReads | src/json_reader.cpp:1056-1146 | from any position whose tokens start with the spelling of a tree that has a value, `readValue` consumes exactly them and builds that value, or throws exactly when the tree is too high for the stack |
| Grammar.SpelledItemsRead | src/json_reader.cpp:1510-1550 | the same along the elements of an array: commas, comments after an element, a comma before the bracket |
| Grammar.SpelledFieldsRead | src/json_reader.cpp:1446-1508 | the same along the members of an object: comments, names, duplicates, and what passes for a separator |
| Grammar.ValueIsSpelled | src/json_reader.cpp:1056-1146 | whatever `readValue` accepts, the tokens it consumed spell a tree whose value is the one built |
| Grammar.ItemsAreSpelled | src/json_reader.cpp:1510-1550 | the same for what `readArray` accepts |
| Grammar.FieldsAreSpelled | src/json_reader.cpp:1446-1508 | the same for what `readObject` accepts |
| Grammar.OthersAreSpelled | src/json_reader.cpp:1495-1506 | after a member come the closing brace, a comma, or a comment and then any one token |
| Grammar.EndOfText | src/json_reader.cpp:1148-1156 | the token looked at for extra content is an end of stream exactly when only comments are left, where they are allowed |
| Grammar.TextIsAccepted | src/json_reader.cpp:1010-1054 | every document that spells a tree with a value is accepted, with that value and no error |
| Grammar.AcceptedIsText | src/json_reader.cpp:1010-1054 | every document that is accepted spells a tree whose value is the one built |
| Grammar.AcceptsExactlyTheTexts | src/json_reader.cpp:1010-1054 | for every byte sequence and every feature setting the reader accepts exactly the documents that spell a tree with a value, and what it builds is what any such tree means |
| ObjectMembers.IsMemberIs | src/json_value.cpp:1082-1094 | the look-up at the lower bound finds a key if and only if some member has it |
| ObjectMembers.AccessIs | src/json_value.cpp:1057-1072 | `operator[]` leaves the keys ascending and the key there, with its old value or a null; every other key is as it was |
| ObjectMembers.SetIs | src/json_reader.cpp:1486-1493 | a member read in place: its key has the value read, every other key is as it was, and the keys still ascend |
| ObjectMembers.ParseKeepsOrder | src/json_reader.cpp:1010-1054 | for every byte sequence and feature setting, every object inside the value that `parse` leaves has ascending keys: always when it answers true, and on errors when the value it was given had them |
| ObjectMembers.ObjectHoldsItsFields | src/json_reader.cpp:1446-1508 | for every accepted object: its keys ascend, they are exactly the names of its fields, and each has the value of the last field of that name; where duplicates are rejected no name comes twice |
| ObjectMembers.ArrayHoldsItsItems | src/json_reader.cpp:1510-1550 | for every accepted array: the values of its elements, in their order |
| JsonTexts.AcceptedIsJson | src/json_reader.cpp:1010-1054 | with `failIfExtra`, whatever the other settings are: an accepted document is a JSON text of RFC 8259, byte by byte, if and only if each of its tokens is one of RFC 8259 (so no comment, NUL, special float, single quote, raw control byte, illegal escape or badly written number) and no two that follow each other are a comma or closing bracket where a value is missing, or a number and a colon |
| JsonTexts.CleanIsStandard | src/json_reader.cpp:1446-1550 | an accepted tree of such tokens is one of RFC 8259, section 2: a comma exactly between two elements or members, string names, nothing left out |
| JsonTexts.JsonIsClean | src/json_reader.cpp:1158-1267 | a JSON text lexes to the tokens of its tree, under every feature setting, all of them legal and without a bad pair |
| JsonTexts.LexedRenders | src/json_reader.cpp:1158-1267 | the tokens of any document, with whitespace between them, make up the document |
| JsonTexts.StandardHasValue | src/json_reader.cpp:1446-1550 | every tree of RFC 8259 whose scalars and names can be decoded and stored, and repeat no name where that is rejected, has a value |
| JsonTexts.JsonIsAccepted | src/json_reader.cpp:1010-1054 | under every feature setting every JSON text of such a tree, no higher than the stack limit and with a container as root where one is required, is accepted with the value of its tree |
| JsonTexts.EmptyNameAllowsTrailingComma | src/json_reader.cpp:1456-1462 | the document `{"":0,}` is accepted under every setting, and is no JSON text |
| JsonTexts.CommentHidesMissingComma | src/json_reader.cpp:1495-1506 | the document `{"":0/**/0}` is accepted under every setting, and is no JSON text: after a comment any token is taken for a comma |
| Extensions.CStyleEnds | src/json_reader.cpp:1366-1378 | a C-style comment ends after the first star and slash |
| Extensions.CStyleUnclosed | src/json_reader.cpp:1366-1378 | one without them runs to the end of the text, and is taken for complete if and only if the last byte is a slash |
| Extensions.CommentsRead | src/json_reader.cpp:1300-1332 | each comment of either style is one token, up to its end; a C++-style one ends after a line feed, a carriage return, both, or with the text |
| Extensions.NanReads | src/json_reader.cpp:1234-1241 | `NaN` is a token exactly when special floats are allowed, and an error otherwise |
| Extensions.InfinityReads | src/json_reader.cpp:1242-1249 | so is `Infinity` |
| Extensions.SignedInfinityReads | src/json_reader.cpp:1206-1221 | and with a sign, whose minus makes it the negative one |
| Extensions.SpecialFloatsMean | src/json_reader.cpp:1102-1119 | the doubles these tokens stand for |
| Extensions.SingleQuotesRead | src/json_reader.cpp:1180-1188 | a string in single quotes is one token and decodes to what is between them exactly when they are allowed |
| Extensions.NumbersName | src/json_reader.cpp:1467-1471 | every 64-bit number names the member that has its decimal digits for a key, exactly when numeric keys are allowed |
| Extensions.MarkIsSkipped | src/json_reader.cpp:1279-1287 | the three bytes of a byte order mark are left out exactly when asked, and no other text changes |
| Extensions.LongNamesThrow | src/json_reader.cpp:1474-1475 | a name of 2^30 bytes or more leaves by an exception |
| Extensions.LongStringsThrow | src/json_value.cpp:133-152 | a string is stored whole up to 2^31 - 6 bytes, and a longer one throws |
| ParseTokens.TokensSpell | src/json_writer.cpp:381-432 | the tokens of a value spell its syntax tree, which needs as many nested reads as the value is high |
| ParseTokens.SyntaxIsStandard | src/json_writer.cpp:381-432 | the syntax tree of a value is one of RFC 8259, the texts of its numbers, strings and names included |
| ParseTokens.ScalarMeans | src/json_reader.cpp:1072-1100 | the lexeme of a scalar means the scalar |
| ParseTokens.SyntaxMeans | src/json_reader.cpp:1056-1146 | the syntax tree of a storable value means that value, under every feature setting |
| ParseTokens.MembersMean | src/json_reader.cpp:1446-1508 | ascending keys are appended one by one and never meet the duplicate check |
| ParseTokens.ValueReads | src/json_reader.cpp:1056-1146 | from any position whose tokens start with those of a storable value, `readValue` consumes exactly them and builds the value, or throws exactly when the nesting exceeds the stack limit |
| FastWriter.FastWriter.Write | src/json_writer.cpp:373-379 | the compact text of the whole value, and the line feed unless omitted |
| FastWriter.FastWriter.WriteValue | src/json_writer.cpp:381-432 | appends exactly the compact text of the value |
| FastWriter.FastRenders | src/json_writer.cpp:381-432 | the compact text of a real-free value renders its tokens |
| FastWriter.DocumentRenders | src/json_writer.cpp:373-379 | so does the whole document |
| FastWriter.FastIsCompact | src/json_writer.cpp:381-432 | the compact text is the texts of its tokens one after the other and nothing else, but for the space after a colon in YAML style |
| StyledText.DocumentRenders | src/json_writer.cpp:926-1112 | the layout with any whitespace indentation renders the tokens of the value |
| StyledText.TextIsCompact | src/json_writer.cpp:926-1112 | without indentation it is, whatever the layout chosen for each array, the texts of the tokens one after the other |
| StyledText.BothPrintersAgree | src/json_writer.cpp:373-1112 | without indentation and without `emitUTF8` both printers write the same bytes |
| StyledWriter.BuiltStyledStreamWriter.Write | src/json_writer.cpp:926-940 | the stateful writer writes the layout of the value, byte for byte, for every indentation, comment style and symbol; the indentation is back to empty |
| StyledWriter.BuiltStyledStreamWriter.WriteValue | src/json_writer.cpp:941-1002 | writes the layout of the value at the present indentation and place in the line, or, while caching, adds exactly one child value with its text; the indentation is restored |
| StyledWriter.BuiltStyledStreamWriter.WriteArrayValue | src/json_writer.cpp:1004-1052 | each of the three layouts exactly where the rule for it says so; the cached values used are those of the elements, one each and in order |
| StyledWriter.BuiltStyledStreamWriter.WriteLines | src/json_writer.cpp:1010-1034 | one element a line, from the cache or afresh, each on a new indented line, with a comma after each but the last |
| StyledWriter.BuiltStyledStreamWriter.WriteOnOneLine | src/json_writer.cpp:1035-1051 | the single-line layout: the cached texts in order, with its commas and spaces; its assertion on their number holds |
| StyledWriter.BuiltStyledStreamWriter.IsMultilineArray | src/json_writer.cpp:1054-1079 | many elements, a nested one, or a line over the margin, counted in 32 bits; the cache is afterwards empty or holds the text of each element in order, and it is full when a single line is chosen |
| StyledWriter.BuiltStyledStreamWriter.WriteObjectValue | src/json_writer.cpp:972-1001 | the layout of the object, each member on a new line; indent and unindent balance |
| StyledWriter.BuiltStyledStreamWriter.Unindent | src/json_writer.cpp:1109-1112 | its assertion holds at every call, and it removes what the last indent added |
| StyledWriter.NewStreamWriter | src/json_writer.cpp:1162-1202 | the writer a configuration gives, with the bytes of its colon and null symbols, and none exactly for an unknown comment style |
| StyledWriter.BuiltToBeRead | src/json_writer.cpp:1162-1202 | with any whitespace indentation and without dropped nulls its settings are those of a text that reads back |
| RoundTrip.DocumentReads | src/json_reader.cpp:1010-1054 | any rendering of the tokens of a storable value is parsed back, under every feature setting: success with that value, the strict-root error exactly for a scalar root, or the stack-limit exception exactly when the height exceeds the limit |
| RoundTrip.PrintedIsJson | src/json_writer.cpp:381-432 | any rendering of the tokens of a real-free value is a JSON text of RFC 8259, byte by byte |
| RoundTrip.FastIsJson | src/json_writer.cpp:373-432 | the compact text of every real-free value is one |
| RoundTrip.FastRoundTrip | src/json_writer.cpp:373-432 | `parse(FastWriter::write(v))` gives v back, for every storable v |
| RoundTrip.SameTokensAsFast | src/json_writer.cpp:926-1112 | what renders the tokens of a value lexes to the same token sequence as its compact text |
| RoundTrip.WriteFastAndRead | src/json_writer.cpp:373-432 | the two classes together: the compact writer followed by the reader answers the value |
| RoundTrip.WriteStyledAndRead | src/json_writer.cpp:926-1112 | the indenting writer followed by the reader answers the value, and its text has the tokens of the compact one when `emitUTF8` is off |
| RoundTrip.ComesBackUnchanged | src/json_reader.cpp:1622-1640 | the value comes back unchanged if and only if no unsigned number in it fits a signed one |
| RoundTrip.SecondRoundIsExact | src/json_reader.cpp:1622-1640 | what comes back prints the same tokens, so a second round changes nothing |
| ValueArray.Value.Size | src/json_value.cpp:859-880 | the highest index plus one is the length of the sequence |
| ValueArray.Value.At | src/json_value.cpp:925-939 | `operator[]` answers the element, made as a null first when missing, and changes no other |
| ValueArray.Value.Append | src/json_value.cpp:1128-1135 | appends to the sequence; a null becomes an array first |
| ValueArray.Value.Insert | src/json_value.cpp:1141-1153 | the loop that moves elements up inserts into the sequence, or answers false exactly when the index is beyond the end |
| ValueArray.Value.RemoveIndex | src/json_value.cpp:1198-1220 | the loop that moves elements down removes from the sequence and hands out the element removed |
| ValueArray.Value.Resize | src/json_value.cpp:906-923 | truncates or pads with nulls; the assertion on the final size holds |
| ValueArray.Replay | src/json_value.cpp:906-1220 | over every run of append, insert, remove and resize from an empty array, reading out the map gives the sequence the run stands for |
| ValueArray.InsertRemove | src/json_value.cpp:1141-1220 | in what the operations mean for a sequence, to which `Replay` ties the code: remove undoes insert and insert undoes remove; inserting at the end is appending |
| Timers.LowerBound | src/timer.cc:7-25 | the position before which every timer is less under the comparator and at which none is |
| Timers.InsertedSorted | src/timer.cc:7-25 | inserting at that position keeps the set sorted, whatever the tie-break by address |
| Timers.FindsItself | src/timer.cc:45 | in a sorted set with distinct addresses `find` finds exactly the timer itself |
| Timers.Timer.Cancel | src/timer.cc:41-50 | true exactly when the callback was set; then the timer is out of the set and its callback gone, and `find` has not missed |
| Timers.Timer.Refresh | src/timer.cc:52-65 | the deadline starts again from now; `find` does not miss; nobody is woken, and unless the clock has been set back no wake-up is lost |
| Timers.Timer.Reset | src/timer.cc:67-91 | the new deadline is the new period after now or after the start of the present one; a reset that changes nothing answers true even for a cancelled timer, as the code does |
| Timers.TimerManager.AddPending | src/timer.cc:179-190 | an insertion at the front sets the tickled flag, and only the first since the last report calls for a wake-up |
| Timers.TimerManager.AddTimer | src/timer.cc:101-107 | the new timer is in the set with its callback, and the invariant holds |
| Timers.TimerManager.GetNextTimer | src/timer.cc:121-135 | the time to the earliest deadline, 0 when it has come, all ones without one; from now on that deadline is the one reported |
| Timers.TimerManager.DetectClockRollover | src/timer.cc:192-200 | true exactly when the clock is set back by more than an hour, or, in the first hour, when the subtraction wraps, at all |
| Timers.TimerManager.EndOfExpired | src/timer.cc:159-163 | the position after the last timer due, wherever the address of the look-up timer falls among equal deadlines |
| Timers.TimerManager.Expire | src/timer.cc:168-176 | each callback once and in order; recurring timers go back with their next deadline, the others lose their callback |
| Timers.TimerManager.ListExpiredCb | src/timer.cc:137-177 | emits exactly the callbacks of the timers due, ordered by deadline and then by address, or of all timers when the clock has rolled over; one-shot timers leave the set, recurring ones are due a period from now, all others are untouched; membership and order are kept, and the watch on the earliest deadline unless the clock has been set back |
| Scheduler.TaskList.ScheduleNoLock | include/scheduler.h:128-135 | an entry goes to the end, one without work is dropped; asks for a tickle exactly when the list was empty |
| Scheduler.TaskList.TakeTask | src/scheduler.cc:157-187 | the scan takes the first entry that is neither pinned elsewhere nor a running fibre, and counts the worker as active; others are tickled exactly when entries are left or were skipped as pinned |
| Scheduler.ListIsInOrder | include/scheduler.h:128-135 | in every run the list holds entries in the order in which they were scheduled |
| Scheduler.EarlierFirst | src/scheduler.cc:157-187 | in every run, of two entries that a worker may take it takes the one scheduled earlier |
| Scheduler.PinnedRunsThere | src/scheduler.cc:157-187 | in every run an entry pinned to a thread is held and run by no other worker |
| Scheduler.StepAccounted | src/scheduler.cc:157-213 | every step keeps the active count equal to the entries held, the idle count equal to the idle workers, and the entries scheduled equal to those queued, held and finished, as multisets |
| Scheduler.QuiescentIsStable | src/scheduler.cc:83-86 | stopping, empty and inactive is stable |
| Scheduler.StepExits | src/scheduler.cc:92-97 | an idle fibre ends, and a worker leaves `run`, only in that state |
| Scheduler.StepJoined | src/scheduler.cc:99-135 | what `stop` has waited for has left `run` |
| Scheduler.RunKeepsInv | src/scheduler.cc:149-213 | all of this in every run of any number of workers, with and without the caller as one of them |
| Scheduler.StopDrains | src/scheduler.cc:99-135 | when `stop` returns, everything scheduled is finished if and only if there was a worker (started, or the caller) or nothing was scheduled; then nothing is queued, held or idle |
| Scheduler.ExitIsFinal | src/scheduler.cc:202-207 | once a worker has left `run`, everything scheduled is finished, and stays so in every continuation |
| Scheduler.StopWithoutStart | src/scheduler.cc:99-135 | the failing case: entries of a scheduler that is stopped without having been started are never run |
| IOManager.AddedKeepsInv | src/iomanager.cc:149-199 | registering keeps the bookkeeping: bits and filled contexts agree, the pending count is the number of bits, the kernel set mirrors the bits, every ticket is in one place; ADD or MOD is legal and the context is free |
| IOManager.EndedOneKeepsInv | src/iomanager.cc:201-269 | so does deleting or cancelling one event; MOD or DEL is legal |
| IOManager.TriggeredAllKeepsInv | src/iomanager.cc:271-309 | so do `cancelAll` and a dispatch: each registration named ends once |
| IOManager.DispatchedKeepsInv | src/iomanager.cc:406-447 | a report triggers exactly the registered events it stands for; its assertion fails exactly for a report that names both a registered event and one that is not |
| IOManager.AddedIs | src/iomanager.cc:182-196 | after a registration the event is registered with the handler given, under a new ticket; no other registration changes and nothing is scheduled |
| IOManager.EndedOneIs | src/iomanager.cc:201-269 | deleting or cancelling ends that registration alone; its handler is scheduled exactly when it is cancelled |
| IOManager.TriggeredAllIs | src/iomanager.cc:271-309 | of a descriptor exactly the registrations named end, their handlers are scheduled, reading first, and every other registration stays |
| IOManager.DispatchEnds | src/iomanager.cc:406-447 | a report ends reading when it is readable, writing when it is writable, and both on an error or a hang-up, of what is registered; the handlers of the registrations ended are scheduled, reading first, and no other registration of any descriptor changes |
| IOManager.DispatchFails | src/iomanager.cc:418-440 | an assertion fails if and only if a report that is not refused ends some registration and names an event that is not registered |
| IOManager.OutcomesAreFinal | src/iomanager.cc:149-309 | over every run of operations an outcome of a registration never changes, and the entries scheduled are the handlers of exactly the registrations triggered, one for each, in the order of triggering |
| IOManager.IOManager.ContextResize | src/iomanager.cc:138-147 | fresh contexts are added, none is lost or shared |
| IOManager.IOManager.AddEvent | src/iomanager.cc:149-199 | the new bookkeeping with the event registered, or only the room for it when the kernel refuses |
| IOManager.IOManager.DelEvent | src/iomanager.cc:201-235 | the registration ends as deleted; false exactly when it was not there or the kernel refuses |
| IOManager.IOManager.CancelEvent | src/iomanager.cc:237-269 | the registration ends as triggered and its handler is scheduled |
| IOManager.IOManager.CancelAll | src/iomanager.cc:271-309 | all registrations of the descriptor trigger; the final assertion holds |
| IOManager.IOManager.TriggerEvent | src/iomanager.cc:80-97 | schedules the handler stored, frees the context and clears the bit; its assertion holds exactly when the event is registered |
| IOManager.IOManager.Dispatch | src/iomanager.cc:395-447 | the loop over the reports of one wait does each report in turn, and stops exactly at the first stale mixed one |
| FibreRuntime.StepKeepsInv | src/hook.cc:111-150 | every step of hooked I/O, connect, sleep, close, timers, dispatch and workers keeps the invariant that locates each fibre |
| FibreRuntime.ParkKeepsInv | src/hook.cc:125-138 | a running fibre that registers for an event or a sleep is held exactly there from then on |
| FibreRuntime.TakeKeepsInv | src/scheduler.cc:157-187 | skipping running fibres makes a fibre in a worker's hand a suspended one |
| FibreRuntime.ResumeKeepsInv | src/fiber.cc:146-161 | the fibre resumed is ready, and is held nowhere afterwards |
| FibreRuntime.ConditionCallbackKeepsInv | src/hook.cc:116-123 | a condition callback marks its own call, unless that is over or marked already |
| FibreRuntime.TriggeredKeepsInv | src/iomanager.cc:80-97 | a trigger moves the fibre of the context to the task list |
| FibreRuntime.CancelledTimerKeepsInv | src/hook.cc:140-142 | cancelling the condition timer of a call drops no fibre |
| FibreRuntime.LeaveKeepsInv | src/fiber.cc:163-181 | a fibre that yields is suspended where it has registered; one that ends is held nowhere |
| FibreRuntime.EveryFibreIsInItsPlace | src/scheduler.cc:157-203 | in every reachable state each fibre is in at most one waiting place, a suspended one in exactly one, a finished one in none, and a running one on exactly one worker |
| FibreRuntime.ResumeNeverFails | src/fiber.cc:146-149 | in no reachable state does the assertion of `resume` fail, and no two workers are about to resume one fibre |
| FibreRuntime.NotReadyBeforeYield | src/fiber.cc:163-181 | between two resumptions of a fibre lies a yield of it |
| FibreRuntime.TriggerWakes | src/iomanager.cc:80-97 | in every reachable state an event moves the fibre that waits for it from the event context to the task list, and nothing else |
| FibreRuntime.CloseWakes | src/hook.cc:344-358 | closing a descriptor moves whoever waits for either event to the task list, the reader first, and nobody else |
| Sleeps.SleepLasts | src/hook.cc:161-206 | over every run from a hooked sleep: its timer expires no earlier than after the time asked for; until it has, it is in the set and can expire exactly from that time on, the fibre is still leaving or suspended, and no worker is about to resume it |
| Sleeps.SleepersWake | src/hook.cc:161-206 | a suspended sleeper can be running again at the very moment its sleep is over, on any worker that is free |
| CallTimers.TimersAreCurrent | src/hook.cc:108-149 | in every reachable state a timer of a call that is in the timer set is the one of the round its fibre is in: none outlives its round |
| Sleeps.SecondsLast | src/hook.cc:161-177 | a fibre in `sleep(seconds)` is not woken before that many seconds are over, when they are at most 4294967 |
| Sleeps.SleepAsksForSeconds | src/hook.cc:172-174 | the product counted in 32 bits is the time asked for if and only if the seconds are at most 4294967, and less otherwise |
| Sleeps.LongSleepIsShort | src/hook.cc:172-174 | one second more asks for 704 milliseconds |
| Sleeps.UsleepAsksForLess | src/hook.cc:185-187 | the whole milliseconds, which is all of the time asked for if and only if it is a multiple of one |
| Sleeps.NanosleepAsksForMilliseconds | src/hook.cc:197-203 | the whole milliseconds if and only if they fit an `int` |
| Timeouts.StepKeepsTimely | src/hook.cc:108-149 | every step keeps: a call belongs to one fibre, the callback of its present timer is in flight while it is unmarked, a timer is due a timeout after the attempt that made it, and a call is marked exactly when a callback of its own has run |
| Timeouts.NoEarlyTimeout | src/hook.cc:108-149 | when a call answers ETIMEDOUT, its timeout has elapsed since one of its own attempts, whose timer has expired and called back |
| Timeouts.TimesOutIfOwnCallbackRan | src/hook.cc:140-149 | at every wake-up the call answers ETIMEDOUT if and only if a callback of its own has run; otherwise the system call is tried again, or `connect` asks for its result, whatever else woke it and whichever timers have expired |
| Timeouts.PendingUnlessLost | src/hook.cc:116-140 | a parked fibre has its timeout still to come, in flight or being cancelled, if and only if the call is not marked with the cancel already made |
| Timeouts.LostStaysLost | src/hook.cc:116-140 | in the other case no run without the event, a close or a cancel for another call ever moves the fibre |
| Timeouts.TimeoutCanWake | src/hook.cc:116-140 | with a free worker, some run of the timeout alone puts the fibre back into the task list if and only if the timeout is not lost |
| Timeouts.TimeoutsCanBeLost | src/hook.cc:116-138 | a run from the start that loses a timeout: the callback runs between adding the timer and registering the event |
| FibreRuntime.EventsWakeTheirWaiters | src/hook.cc:131-137 | a fibre in an event context is in a call that waits for exactly that event of that descriptor |
| FibreRuntime.RunningFibresGoOn | src/hook.cc:111-150 | in every reachable state a running fibre has a step of its own |
| FibreRuntime.WorkersCanGoOn | src/scheduler.cc:187-212 | a worker that holds a task or is cancelling for a timeout always has a next step |
| CircularQueue.CircularQ.Size | include/spdlog/details/circular_q.h:77-87 | the number of items that can be read |
| CircularQueue.CircularQ.Full | include/spdlog/details/circular_q.h:109-117 | true exactly when the contents have reached the capacity; never for a disabled queue |
| CircularQueue.CircularQ.PushBack | include/spdlog/details/circular_q.h:49-62 | the contents become the last `capacity` of the old contents and the new item; an overrun is counted exactly when the queue was full |
| CircularQueue.CircularQ.PopFront | include/spdlog/details/circular_q.h:99-102 | drops the oldest item |
| CircularQueue.CircularQ.At | include/spdlog/details/circular_q.h:91-95 | the item at an index, oldest first |
| CircularQueue.CircularQ.MoveFrom | include/spdlog/details/circular_q.h:131-143 | the contents move, and the source is left disabled |
| CircularQueue.NothingIsLost | include/spdlog/details/circular_q.h:49-102 | over every run, pushes are pops plus overruns plus what is there, and what is there is the newest in order |
| CircularQueue.PushesKeepLatest | include/spdlog/details/circular_q.h:49-62 | with pushes only, the latest `capacity` items are there |
| CircularQueue.Replay | include/spdlog/details/circular_q.h:49-117 | the ring buffer does what the bounded queue does over every run, overrun count included |
| CircularQueue.RingbufferSink.SinkIt | include/spdlog/sinks/ringbuffer_sink.h:59-62 | the sink holds the latest messages of all ever logged |
| CircularQueue.RingbufferSink.LastRaw | include/spdlog/sinks/ringbuffer_sink.h:28-40 | the most recent min(limit, capacity, total) messages in order, 0 meaning no limit |
| ThreadPool.BlockingQueue.Enqueue | include/spdlog/details/mpmc_blocking_q.h:32-40 | waits exactly while the queue is full; never overruns |
| ThreadPool.BlockingQueue.EnqueueNowait | include/spdlog/details/mpmc_blocking_q.h:43-50 | overruns the oldest exactly when full |
| ThreadPool.BlockingQueue.DequeueFor | include/spdlog/details/mpmc_blocking_q.h:54-67 | takes the oldest, or nothing from an empty queue |
| ThreadPool.ProcessNextMsg | include/spdlog/details/thread_pool-inl.h:109-138 | the worker stops exactly on a terminate message |
| ThreadPool.StepKeepsInv | include/spdlog/details/thread_pool-inl.h:88-138 | every step of producers, workers and destructor keeps: messages posted are those gone and those queued in order, terminate messages come last and none is overrun, and a worker has taken one terminate message if it is leaving and none otherwise |
| ThreadPool.PoolDrains | include/spdlog/details/thread_pool-inl.h:45-60 | in every run, when the destructor is through: the queue is empty, each worker has taken exactly one terminate message and exited, and every message posted was taken or overrun, in order |
| ThreadPool.BlockingPoolTakesAll | include/spdlog/details/thread_pool-inl.h:45-60 | with blocking posts only, nothing is overrun and the messages taken are exactly those posted, in order |
| ThreadPool.DestructorEndsWithRoom | include/spdlog/details/thread_pool-inl.h:45-60 | from the start of the destructor a run reaches its end if and only if the queue has room |
| ThreadPool.DestructorAlwaysEnds | include/spdlog/details/thread_pool-inl.h:45-60 | with room no run of the destructor gets stuck or goes on for ever: the steps that are no timed-out waits are bounded, and one is possible until it is through |
| ThreadPool.NoRoomNeverEnds | include/spdlog/details/thread_pool-inl.h:45-60 | without room the destructor never gets past its first terminate message |

## Left out

- Comments of JSON values and their placement: collection is off in the reader, and the printers' values have none.
- Token positions in errors, line and column, formatted error messages and the `offset` fields of values.
- Section 8.1 of RFC 8259: a JSON text is judged as bytes, and whether the bytes above 0x7F are well-formed UTF-8 is not part of it.
- Real numbers: `decodeDouble`, printing a double, special-float printing and precision.
- `dropNullPlaceholders` in the compact printer, and what reads back of texts written with it: `[null]` is printed as `[]`.
- The legacy `Reader`, `StyledWriter` and `StyledStreamWriter`: near copies of what is modelled.
- `Path`, iterators, `CZString` memory policies, and sparse arrays: an array is dense, as it stays under the operations modelled.
- Pointers into the tree: the node on top of the reader's stack is a value that is written back into its parent.
- The 31-bit index of `readArray`, which counts elements in a signed `int`, beyond 2^31 elements.
- `Fiber` as a class of its own: its three states and the two assertions are those of `FibreRuntime`, which needs nothing else of it.
- `do_io`, `connect` and the sleeps as methods: each is a sequence of steps of `FibreRuntime`, since other threads act in between.
- Branches of the hooked calls that never park: hooks off, closed or non-socket descriptors, user non-blocking mode.
- Registering an event that is already registered: the code stops on an assertion, so the step is not enabled and the method requires that it is not so.
- `delEvent` among the fibre steps: it drops the registration without waking anyone, by design. It is in the event bookkeeping.
- Event registrations with a callback among the fibre steps: they hold no fibre.
- Tickling idle workers through the pipe: liveness and fairness are not modelled.
- `IOManager::stopping`, which reads timers, events and tasks at different moments; the drain is that of the base `Scheduler`.
- Log file, console and formatter sinks, sockets, address lookup, configuration, thread and mutex wrappers.
- Timeouts.TimeoutCanWake: requires a free worker; that every busy worker becomes free again is not part of it.
