# CPTML front end, modelled in Dafny

This project models the front end of the CPTML markup language in Dafny and proves properties of the model. The front end was written as several Rust drafts and one Go reader. It has three layers.

- **Characters.** UTF-8 decoding of one scalar (`bytes_to_char`, `char_size`, `u32_to_char` and the panicking `read_single_char`) follows section 3 of RFC 3629. Positions (`CharPos::walk`, `Position`, `Span`) count bytes, lines and columns. The line breaks are those of section 5.8 of the Unicode Standard.
- **Bounded-lookahead readers.** There are four: `PeekReader` in its first and its `Result`-returning draft, `RawParser` and `CharReader`.
  - The first three are classes over a fixed `array<char>` with an index into it. A read cycle shifts the kept window to the front and refills the rest from a byte source. The invariant proved for each is that every slot holds the char of the decoded stream it stands for. So the peek window survives a refill, and pops return the decoded input in order, padded with NUL.
  - `CharReader` is a class over an `array<Option<char>>` filled from the `chars()` iterator of a string. After the end of the string each slot holds `None`. The invariant proved is that every slot holds the iterator result it stands for.
- **Tokenizers and tag assembly.**
  - The inline-text scanners share one rule: a delimiter flanked by spaces is literal. They also handle backslash and `\uHEX;` escapes and trim blanks at line breaks.
  - There are scanners for tag names, attribute names and string values, and a backtick-counting code-block scanner.
  - The one-token pushback `Tokenizer` feeds `BasicParser`, which folds tokens into `Tag` values with ordered attributes.
  - The nom parsers of `ast.rs` and `lexer.rs` read names and tag heads. `encode_cptml` writes heads back.
  - Value conversions work on `AttrValue` and `BasicName`.
- **The Go SAX reader** (`go/sax.go`) does the same in Go:
  - the entity-escape state machine of `CharData.writeRune`, with blank trimming;
  - `Pos.advance`;
  - `ReadToken`, with one start-element stack per view and end-tag matching.

The model follows each file's own form:
- Readers, the tokenizer methods, the Go `CharData` and `BasicTokenReader`, and `BasicParser` are classes whose methods update fields in place.
- Every loop is a `while` loop proved equal to a step-by-step reference function on `seq<char>`. The properties are proved about those functions.
- The nom parsers, the escape tables and the conversions are pure functions.

The tokenizers read an abstract cursor over the input. It is padded with `'\0'` at the end and uses the convention of `rust/src/old2/peek_reader.rs`: `peek(0)` is the last char popped and `peek(1)` the next one. `rust/src/raw_tokenizer.rs` imports the first-draft reader, whose `peek(0)` is the next char. The offsets that `rust/src/raw_tokenizer.rs` passes to `peek` are kept as written and read in the old2 convention: its `peek(1)` is the next char and its `peek(0)` the last one popped. Against the first-draft reader, the same offsets would read one char further on (see Left out).

Where the code and its documentation disagree, the model follows the code:
- `process_text` (rust/src/basic_parser.rs:119-130) gives the `val` attribute the non-empty name `val`, so the attribute is named, not positional.
- `get_pos_attr` (rust/src/basic_parser.rs:58-69) returns a named attribute rather than the documented positional one; see Findings.

Where the code looks wrong (see Findings), the operation takes a switch between the code as written and the corrected code, and both are proved:
- `RawTokenizer.Tokenizer.ModeText` takes `asWritten`;
- the `TokenParser` members take a `TextParsers.Draft`, where `TokenDraftAsWritten` is token_parser.rs as written;
- `CodeBlock.ParseCodeBlock` takes `closePops`, true as written;
- `BasicParser.GetPosAttr` takes `asWritten`;
- the curly-tag members of `BasicParser` take `valueEnd`, false as written.

Dafny's `int` is unbounded. Where the source relies on a fixed width, the model writes the width out:
- the i64 range of nom's `i64` and of `integer_hex`;
- the u32 of `u32_to_char`;
- the bytes of the decoders, as a `byte` newtype.

Nothing here was executed. Every row of the table below states the contract of a member that Dafny verifies.

## Model

| member | source | states |
|---|---|---|
| Chars.IsReservedChar | rust/src/chars.rs:4-7 | true exactly for `<`, `>`, `{`, `}`, `\` and `\|` |
| Chars.U32ToChar | rust/src/chars.rs:34-43 | `ScalarTooLarge(v)` iff v > 0x10FFFF; `SurrogateInUtf8(v)` iff v is in 0xD800..0xDFFF; Ok iff v is a Unicode scalar, and then the char's code point is v |
| Chars.MaskTests | rust/src/chars.rs:58-76 | the lead-byte classes used by the model coincide with the source's bit-mask tests (`& 0xe0 == 0xc0`, `& 0xf0 == 0xe0`, `& 0xf8 == 0xf0 && <= 0xf4`) |
| Chars.CharSize | rust/src/chars.rs:102-114 | 1 iff b < 0x80, 2 iff b is 110xxxxx, 3 iff 1110xxxx, 4 iff 11110xxx and at most 0xF4; otherwise exactly `InvalidFirstByte(b)`; every Ok result is in 1..4 |
| Chars.BytesToChar | rust/src/chars.rs:45-100 | empty slice gives `SliceTooShort(1)`; a bad lead byte gives `InvalidFirstByte`; a slice shorter than the lead byte's size n gives `SliceTooShort(n)`; with enough bytes, `ScalarTooLarge` iff the assembled value exceeds 0x10FFFF and `SurrogateInUtf8` iff it is a surrogate; on success the size is `CharSize(v[0])` and the char is the value assembled from those bytes |
| Chars.BytesToCharIgnoresTail | rust/src/chars.rs:55-90 | two slices that agree on the first `CharSize` bytes decode identically: bytes past the decoded size never matter |
| Chars.Utf8Len | rust/src/old2/char_reader.rs:46 | Rust's `len_utf8`: the encoded length of a char is between 1 and 4 |
| Chars.DecodeEncoded | rust/src/chars.rs:55-99 | round trip: `bytes_to_char` of the RFC 3629 section 3 encoding of any scalar, followed by any bytes, is that scalar with its encoded length |
| Chars.EncodedLeadSize | rust/src/chars.rs:102-114 | `char_size` of the first byte of an encoded scalar is the scalar's encoded length |
| Chars.ReadSingleChar | rust/src/hacks.rs:1-43 | on a slice of at least four bytes, panics exactly when `bytes_to_char` returns an error (bad lead byte, too large, surrogate) and otherwise returns the same (char, size) |
| Chars.ReadSingleCharEncoded | rust/src/hacks.rs:11-42 | round trip: decoding the encoding of any scalar padded to four bytes returns that scalar and its encoded length |
| Chars.EncodeStringAppend | rust/src/peek_reader.rs:77-96 | the byte source of a concatenation is the concatenation of the byte sources, so a reader consumes the encoding char by char |
| Positions.IsCharNewLine | rust/src/old2/char_reader.rs:3-7 | true exactly for U+000A, U+000B, U+000C, U+0085, U+2028 and U+2029 (CR is excluded) |
| Positions.Position.Walk | rust/src/old2/char_reader.rs:45-60 | `byte` grows by the char's UTF-8 length; a line terminator gives line+1 and col 0, any other char keeps the line and gives col+1 |
| Positions.Position.WalkOpt | rust/src/old2/char_reader.rs:38-43 | `None` leaves the position unchanged; `Some(c)` is `walk(c)` |
| Positions.WalkAllCounts | rust/src/old2/char_reader.rs:45-60 | walking over a string adds its byte length to `byte` and its number of line terminators to `line`, and `col` is the length of the last line (or grows by the length when there is no break) |
| Positions.WalkAllAppend | rust/src/old2/char_reader.rs:45-60 | walking over `a + b` is walking over `a` then over `b` |
| Positions.ByteLenEncoding | rust/src/old2/char_reader.rs:46 | the byte count a walk accumulates is the length of the string's UTF-8 encoding |
| Positions.Span.Step | rust/src/pos.rs:1-12 | stepping a span keeps its start and lengthens it by the char's UTF-8 length |
| Positions.SpanOfWalk | rust/src/token_parser_text.rs:148-149 | a span from a start position to that position walked over a text is exactly as long as the text's UTF-8 encoding |
| Utf8Source.Stream | rust/src/peek_reader.rs:80-95 | the first n chars a reader delivers: the decoded text, then `'\0'` for ever |
| Utf8Source.ReadChar | rust/src/peek_reader.rs:78-96 | reading one slot from the byte source at the offset of char k yields the k-th stream char (`'\0'` past the end, with the end-of-file flag set exactly then) and leaves the offset of char k+1 |
| Utf8Source.Refill | rust/src/peek_reader.rs:72-97 | the fill loop keeps slots before `from` and writes stream char `base + j` into every slot j from `from` on |
| Utf8Source.StreamPosIsWalk | rust/src/peek_reader.rs:48-56 | the position after n pops is the start position walked over the first n stream chars |
| CharReader.PosAfterStep | rust/src/old2/char_reader.rs:111-115 | the position after n+1 iterator steps is the position after n walked over the (n+1)-th `Option<char>` |
| CharReader.CharReader.New2 | rust/src/old2/char_reader.rs:102-117 | leaves exactly `buffer_size` entries, the first `buffer_size` iterator results in order, and `real_pos` is the start walked over them |
| CharReader.CharReader.New | rust/src/old2/char_reader.rs:98-100 | `new2` with the default window of 3 |
| CharReader.CharReader.IterNext | rust/src/old2/char_reader.rs:112-125 | the source iterator yields the next char, or `None` for ever once exhausted |
| CharReader.CharReader.RealNext | rust/src/old2/char_reader.rs:119-129 | the buffer is shifted left by one and the next iterator result appended; `real_pos` walks over that result |
| CharReader.CharReader.Next | rust/src/old2/char_reader.rs:131-139 | returns the old `buffer[0]` with the position after it, `None` exactly once the source is exhausted (and then for ever); `fake_pos` walks over the old `buffer[0]`; the new buffer is the old one shifted left by one plus the next source char, with its length unchanged |
| CharReader.CharReader.Peek | rust/src/old2/char_reader.rs:141-154 | read-only; for n below the buffer length, returns char `taken + n` of the source with the position just before it, or `None` past the end; so `peek(0)` holds the char the next `next()` returns, but paired with the position before that char where `next()` gives the position after it |
| PeekReader.PeekReader.New | rust/src/peek_reader.rs:21-31 | after construction `buf_pos` is 4, slot j holds stream char j-4 (so `peek(-1)` is `'\0'` and `peek(0)` the first input char) |
| PeekReader.PeekReader.Peek | rust/src/peek_reader.rs:37-46 | for -4 <= d <= 4 with `buf_pos + d < 64`, returns the stream char d places after the next one to pop, changing nothing |
| PeekReader.PeekReader.Pop | rust/src/peek_reader.rs:48-56 | returns what `peek(0)` returned just before, which is the next stream char in order (`'\0'` once the source is exhausted), advances by one and steps `pos` by that char; the window invariant is kept across a refill |
| PeekReader.PeekReader.ReadCycle | rust/src/peek_reader.rs:58-98 | after a refill, `buf_pos` is 4 and every kept slot from `peek(-4)` to the last buffered char holds the same char as before the shift |
| PeekReader.PeekReader.Compact | rust/src/peek_reader.rs:59-75 | the copy loop moves `buf[buf_pos-4..64)` to the front in order and returns where filling starts (4 on the first cycle) |
| PeekReader.PeekReader.FillFrom | rust/src/peek_reader.rs:76-97 | the fill loop keeps the slots before `from` and fills the rest with the following stream chars, leaving `buf_pos` at 4 |
| PeekReader.MoveReserve | rust/src/peek_reader.rs:61-69 | the shift loop copies `buf[from..]` to the front and leaves the tail alone |
| RawParser.RawParser.New | rust/src/raw_parser.rs:54-64 | after construction `buf_pos` is 0 and slot j holds stream char j |
| RawParser.RawParser.Peek | rust/src/raw_parser.rs:66-71 | for 1 <= d <= 3 within the buffer, returns the stream char d places after the next one to pop |
| RawParser.RawParser.Pop | rust/src/raw_parser.rs:73-81 | returns `buf[buf_pos]`, the next stream char in order (`'\0'` after the end), increments the count and steps `pos`; pops across a refill stay in order |
| RawParser.RawParser.ReadCycle | rust/src/raw_parser.rs:83-121 | every unpopped char `buf[buf_pos..64)` moves to the front in order, then the tail is filled and `buf_pos` is 0 |
| RawParser.RawParser.Compact | rust/src/raw_parser.rs:84-98 | the copy loop moves the unpopped chars to the front and returns where filling starts |
| RawParser.RawParser.FillFrom | rust/src/raw_parser.rs:99-120 | the fill loop keeps slots before `from` and fills the rest with the following stream chars |
| ResultPeekReader.ReadOneBadLead | rust/src/old2/peek_reader.rs:102 | a bad lead byte makes a slot read fail with `CharError(InvalidFirstByte)` |
| ResultPeekReader.ReadOneTruncated | rust/src/old2/peek_reader.rs:103-113 | a multi-byte sequence cut off by the end of input fails with `SliceTooShort(size, …)` whose payload starts with the bytes read |
| ResultPeekReader.ReadOneAtEnd | rust/src/old2/peek_reader.rs:94-97 | at the end of the source a slot reads as `'\0'` and sets the end-of-file flag |
| ResultPeekReader.ReadOneEncoded | rust/src/old2/peek_reader.rs:92-118 | the encoding of any char reads back as that char, consuming exactly its encoded length |
| ResultPeekReader.ReadOneScratch | rust/src/old2/peek_reader.rs:91-117 | what a slot read returns does not depend on the stale scratch bytes (only the error payload may) |
| ResultPeekReader.DecodingAfterEnd | rust/src/old2/peek_reader.rs:94-97 | once the source is used up, every further char decoded is `'\0'` and earlier chars are unchanged |
| ResultPeekReader.NulAfterEnd | rust/src/old2/peek_reader.rs:94-97 | after end of input, the decoded stream continues with `'\0'` indefinitely |
| ResultPeekReader.DecodingEncoded | rust/src/old2/peek_reader.rs:92-118 | decoding n chars from the UTF-8 encoding of a text succeeds and yields the text followed by NULs |
| ResultPeekReader.CycleStaysFailed | rust/src/old2/peek_reader.rs:102-117 | once a slot fails, the fill fails with that same error (the `?` returns at once) |
| ResultPeekReader.ReadSlot | rust/src/old2/peek_reader.rs:93-117 | the inner byte loop of one slot computes exactly the slot reader's result |
| ResultPeekReader.FillSlots | rust/src/old2/peek_reader.rs:92-120 | the fill loop returns the error of the first failing slot, or fills every slot from `from` on with the next decoded chars and keeps the slots before it |
| ResultPeekReader.PeekReader.Peek | rust/src/old2/peek_reader.rs:48-62 | `OutOfRange(d, -3, 4)` when d is outside -3..4; `OutOfRange(tmp, 0, 63)` when `buf_pos + d - 1` is outside the buffer; otherwise the stream char at `popped + d - 1`, so `peek(0)` is the last popped char and `peek(1)` the next |
| ResultPeekReader.PeekReader.PeekReach | rust/src/old2/peek_reader.rs:57-61 | with a valid window, an in-range peek fails only for d = 4 just before a refill |
| ResultPeekReader.PeekReader.PeekString | rust/src/old2/peek_reader.rs:40-46 | Ok iff every `peek(i)` for i in from..=to succeeds, and then the string is those peeks concatenated; otherwise the error of the first failing peek |
| ResultPeekReader.PeekReader.Pop | rust/src/old2/peek_reader.rs:64-72 | fails exactly when a needed refill fails to decode; otherwise returns what `peek(1)` returned before (the next stream char, `'\0'` after the end), advances by one and steps `pos` |
| ResultPeekReader.PeekReader.ReadCycle | rust/src/old2/peek_reader.rs:74-121 | succeeds iff the decoder can deliver the needed chars, and then keeps the 4 reserved chars and all unpopped chars in their relative places; on failure returns the failing slot's error |
| ResultPeekReader.PeekReader.Compact | rust/src/old2/peek_reader.rs:75-89 | the copy loop moves `buf[buf_pos-4..64)` to the front and returns where filling starts |
| ResultPeekReader.PeekReader.FillCycle | rust/src/old2/peek_reader.rs:90-120 | the fill loop either fails with the first slot error or extends the decoded stream and keeps the slots before `from` |
| ResultPeekReader.NewReader | rust/src/old2/peek_reader.rs:20-30 | `new` succeeds iff the first 60 chars decode, returning a reader whose window starts at the source's first char; otherwise returns the decode error |
| SaxText.NextText | go/sax.go:56-125 | one rune never removes written text; it reports an error iff an `&` is followed by a rune that is neither a literal escape nor a letter or digit, an entity name ends in `;` unknown to the table, or an entity name holds another rune; leading blanks change nothing; `&&`, `&"`, `&<`, `&>` write the rune; a known entity writes its text |
| SaxText.TrimStart | go/sax.go:57-69 | drops exactly the leading white space |
| SaxText.TrimEnd | go/sax.go:70-72 | drops exactly the trailing white space |
| SaxText.TextAfterAppend | go/sax.go:56-125 | writing two strings in turn is writing their concatenation |
| SaxText.TextAfterSnoc | go/sax.go:56-125 | writing a string and then a rune is one more `writeRune` |
| SaxText.TrimStartSnoc | go/sax.go:57-69 | a rune after the leading blanks is kept; a blank before any visible rune is dropped |
| SaxText.TrimEndSnoc | go/sax.go:70-72 | a visible rune moves the cut to the end, a blank leaves it |
| SaxText.PlainWritten | go/sax.go:56-72 | text without `&` is written with its leading blanks dropped, and `last` marks the end of its last visible rune |
| SaxText.PlainTextTrimmed | go/sax.go:51-72 | the finished text of a string without `&` is that string with white space trimmed at both ends, and it is empty iff the string is all white space |
| SaxText.TextAfterCons | go/sax.go:56-125 | writing a rune and then a string is writing their concatenation |
| SaxText.LiteralEscape | go/sax.go:73-103 | `&` followed by `&`, `"`, `<` or `>` writes that rune, clears the entity name and returns to plain text |
| SaxText.EntityNameRun | go/sax.go:115-116 | letters and digits inside an entity name are gathered into the name and nothing is written |
| SaxText.EntityOpen | go/sax.go:91-97 | `&` and a letter or digit start an entity name with that rune |
| SaxText.EntityEscape | go/sax.go:104-114 | `&name;` with a known name writes the entity's text and moves `last` past it |
| SaxText.UnknownEntityDropped | go/sax.go:106-111 | `&name;` with an unknown name reports `unknown entity`, writes nothing and returns to plain text |
| SaxText.Advance | go/sax.go:186-193 | the byte offset grows by the rune's size; a newline starts the next line at column 0, any other rune moves one column right |
| SaxText.Width | go/sax.go:327 | the UTF-8 size `ReadRune` reports is between 1 and 4 |
| SaxText.WalkAppend | go/sax.go:186-193 | advancing over two strings in turn is advancing over their concatenation |
| SaxText.WalkLines | go/sax.go:186-193 | the line grows by the number of newlines; without a newline the column grows by the number of runes |
| SaxText.ColumnAfterNewline | go/sax.go:186-193 | after the last newline the column counts the runes since it |
| SaxText.CharData.constructor | go/sax.go:350-351 | a new `CharData` is empty, in plain mode, and starts at the given position |
| SaxText.CharData.IsZero | go/sax.go:47-49 | true iff nothing was written |
| SaxText.CharData.WriteRune | go/sax.go:56-125 | the new state and the error are those of `NextText`; the finished text and position stay |
| SaxText.CharData.Finish | go/sax.go:51-54 | the finished text is the written text cut at `last`, and the buffer is emptied |
| SaxReader.PushStack | go/sax.go:299-304 | the element is on top of the stack of its view |
| SaxReader.PopStack | go/sax.go:306-311 | the stack of the view is the new stack with the returned element on top |
| SaxReader.PushElsewhere | go/sax.go:299-304 | a push leaves the stacks of the other views alone |
| SaxReader.PopElsewhere | go/sax.go:306-311 | a pop leaves the stacks of the other views alone |
| SaxReader.PopAfterPush | go/sax.go:299-311 | popping the view of the element just pushed returns it and restores every stack |
| SaxReader.PushByView | go/sax.go:299-304 | a push keeps every element on the stack of its own view |
| SaxReader.PopByView | go/sax.go:306-311 | a pop keeps every element on the stack of its own view, and returns an element of the view popped |
| SaxReader.AtEof | go/sax.go:330-338 | at the end of the input the reader is done and the stacks stay; it returns the pending token iff one is pending, else `EndInput`; pending text comes back finished |
| SaxReader.TextRune | go/sax.go:346-366 | in text, a rune either continues with the same input and stacks, or returns a text token with no error and the stacks unchanged |
| SaxReader.OpenRune | go/sax.go:367-389 | after `<` the reader always continues, in the start or end tag mode, with the same stacks |
| SaxReader.YieldStart | go/sax.go:414-434 | a finished start tag leaves a well-formed reader state |
| SaxReader.StartRune | go/sax.go:390-440 | a rune in a start tag either continues or ends the call in a well-formed state |
| SaxReader.CloseEnd | go/sax.go:452-468 | a finished end tag leaves a well-formed reader state |
| SaxReader.EndRune | go/sax.go:441-468 | a rune in an end tag either continues with the same input and stacks, or ends the call in a well-formed state |
| SaxReader.ReadStep | go/sax.go:324-473 | a turn that continues keeps the stacks and the state well formed, and consumes one rune unless it re-reads the held one; one that ends leaves a well-formed state |
| SaxReader.ReadLoop | go/sax.go:324-475 | the loop ends in a well-formed state |
| SaxReader.Read | go/sax.go:313-476 | `ReadToken` ends in a well-formed state |
| SaxReader.YieldStartRespects | go/sax.go:414-434 | a returned start tag is pushed unless it closes itself |
| SaxReader.CloseEndRespects | go/sax.go:452-468 | a returned end tag pops the stack of its view; `</>` takes the name of the popped element; the error is reported iff the names differ |
| SaxReader.StepRespects | go/sax.go:324-473 | every way out of a single turn changes the stacks exactly as its token says |
| SaxReader.LoopRespects | go/sax.go:324-475 | every way out of the loop changes the stacks exactly as its token says |
| SaxReader.ReadRespects | go/sax.go:313-476 | each `ReadToken` pushes for a start tag that does not close itself, pops for an end tag, and otherwise leaves the stacks alone |
| SaxReader.ReadKeepsByView | go/sax.go:313-476 | `ReadToken` keeps every element on the stack of its own view |
| SaxReader.TokenReader.constructor | go/sax.go:281-286 | a new reader is in text mode at the start of its input, at position 0, with every stack empty |
| SaxReader.TokenReader.Push | go/sax.go:299-304 | the stacks become `PushStack` of the old ones and nothing else changes |
| SaxReader.TokenReader.Pop | go/sax.go:306-311 | an empty stack gives None and changes nothing; otherwise it returns the top and the stacks become those of `PopStack` |
| SaxReader.TokenReader.Finish | go/sax.go:330-338 | the new state and the result are those of `AtEof` |
| SaxReader.TokenReader.TextStep | go/sax.go:346-366 | the new state and any result are those of `TextRune` |
| SaxReader.TokenReader.OpenStep | go/sax.go:367-389 | the new state is that of `OpenRune` |
| SaxReader.TokenReader.EmitStart | go/sax.go:414-434 | the new state and result are those of `YieldStart` |
| SaxReader.TokenReader.StartStep | go/sax.go:390-440 | the new state and any result are those of `StartRune` |
| SaxReader.TokenReader.EmitEnd | go/sax.go:452-468 | the new state and result are those of `CloseEnd` |
| SaxReader.TokenReader.EndStep | go/sax.go:441-468 | the new state and any result are those of `EndRune` |
| SaxReader.TokenReader.Step | go/sax.go:324-473 | the new state and any result are those of `ReadStep` |
| SaxReader.TokenReader.ReadToken | go/sax.go:313-476 | the new state and the result are those of `Read` on the old state |
| SaxReaderFacts.TextStep | go/sax.go:346-366 | a rune other than `<` in text is written to the current text and the loop goes on |
| SaxReaderFacts.StartNameStep | go/sax.go:397-401 | a letter, digit, `\|` or `:` in a start tag's name is added to the name |
| SaxReaderFacts.EndNameStep | go/sax.go:445-447 | a letter, digit, `\|` or `:` in an end tag's name is added to the name |
| SaxReaderFacts.TextRun | go/sax.go:346-366 | a run of text without `<` is written in full and the position walks over it |
| SaxReaderFacts.StartNameRun | go/sax.go:397-401 | a run of name runes in a start tag is added to the name in full |
| SaxReaderFacts.EndNameRun | go/sax.go:445-447 | a run of name runes in an end tag is added to the name in full |
| SaxReaderFacts.OpenAngle | go/sax.go:346-363 | a `<` at the start of a token moves to the tag-opening mode without returning anything |
| SaxReaderFacts.TextOpens | go/sax.go:346-366 | any other rune at the start of a token begins a new text at that position |
| SaxReaderFacts.StartOpens | go/sax.go:379-389 | a rune other than `/` after `<` begins a start tag whose name starts with it, one column back |
| SaxReaderFacts.EndOpens | go/sax.go:370-378 | `/` after `<` begins an end tag, one column back |
| SaxReaderFacts.StartNamed | go/sax.go:402-407 | the first rune that cannot be in a name sets the view and name and is read again as an attribute rune |
| SaxReaderFacts.StartCloses | go/sax.go:414-434 | `>` ends a start tag, pushing it unless it closes itself |
| SaxReaderFacts.StartSlash | go/sax.go:410-413 | `/` marks a start tag as closing itself |
| SaxReaderFacts.EndCloses | go/sax.go:448-468 | `>` ends an end tag, with the name and view set from the gathered name if there is one |
| SaxReaderFacts.Ends | go/sax.go:330-338 | when the input is used up the loop gives the end-of-input result |
| SaxReaderFacts.TextCloses | go/sax.go:355-363 | an unescaped `<` after written text returns that text finished |
| SaxReaderFacts.TextRead | go/sax.go:346-366 | a text of several runes without `<` is read in full into a new `CharData` |
| SaxReaderFacts.TextEnds | go/sax.go:330-363 | text followed by `<` or the end of the input is returned finished, or `EndInput` when it is empty at the end |
| SaxReaderFacts.PlainTextRead | go/sax.go:313-366 | one `ReadToken` over text without `<` that ends in plain mode returns its finished text, consuming the `<` after it |
| SaxReaderFacts.PlainTextToken | go/sax.go:313-366 | for text without `<` or `&`: all blanks at the end give `EndInput`; otherwise the token is the text trimmed at both ends, the stacks stay, and the `<` after it is consumed |
| SaxReaderFacts.StartTagOpened | go/sax.go:346-389 | `<` and a rune other than `/` put the reader inside a start tag with that rune as the first of its name |
| SaxReaderFacts.StartTagRead | go/sax.go:346-401 | the rest of the name is then read in full |
| SaxReaderFacts.StartTagEnds | go/sax.go:402-434 | a name followed by `>` or `/>` returns the start tag named by it, self-closing iff `/>`, pushed iff not |
| SaxReaderFacts.StartTagToken | go/sax.go:313-434 | one `ReadToken` over `<name>` or `<name/>` returns that start tag with no error, pushes it iff it does not close itself, and stops right after the tag |
| SaxReaderFacts.EndTagOpened | go/sax.go:346-378 | `</` puts the reader inside an end tag with an empty name |
| SaxReaderFacts.EndTagRead | go/sax.go:441-451 | the name of an end tag is read in full |
| SaxReaderFacts.Closed | go/sax.go:452-468 | an end tag aborts when the stack of its view is empty; otherwise it pops it, `</>` takes the popped name, and a different name gives `wrong element closure` with both names |
| SaxReaderFacts.EndTagToken | go/sax.go:313-468 | one `ReadToken` over `</name>` aborts on an empty stack, else pops the view's stack and returns the end tag with the closure error iff the names differ, stopping right after `>` |
| CharReader.CharReader.Fill | rust/src/old2/char_reader.rs:102-117 | the loop of `new2` reads one iterator result per slot in order, `None` after the end, and walks `real_pos` over what it read |
| PeekReader.PeekReader.RefillWindow | rust/src/peek_reader.rs:48-51 | the refill `pop` runs past the read limit keeps the reader valid and puts `buf_pos` back at 4 |
| RawParser.RawParser.RefillWindow | rust/src/raw_parser.rs:73-76 | the refill `pop` runs past the read limit keeps the reader valid and puts `buf_pos` back at 0 |
| ResultPeekReader.ReadOne | rust/src/old2/peek_reader.rs:93-118 | a successful slot read moves forward within the input and keeps a four-byte scratch buffer |
| ResultPeekReader.Decoding | rust/src/old2/peek_reader.rs:92-119 | decoding n chars from the start yields exactly n chars when it succeeds |
| ResultPeekReader.FillOne | rust/src/old2/peek_reader.rs:93-118 | one turn of the fill loop stores the decoded char in its slot and extends the decoded run by exactly that char, or fails with the run's error |
| ResultPeekReader.PeekReader.Empty | rust/src/old2/peek_reader.rs:21-27 | the reader before its first read cycle: NUL buffer, `buf_pos` 0, nothing read, at the start |
| ResultPeekReader.PeekReader.Take | rust/src/old2/peek_reader.rs:68-71 | returns the char at `buf_pos`, the next stream char, and steps the count and the position over it |
| ResultPeekReader.PeekReader.Extend | rust/src/old2/peek_reader.rs:92-120 | the chars a successful cycle decoded are appended to the stream read so far |
| RawTokenizer.TagSpecialKept | rust/src/raw_tokenizer.rs:339-341 | once past the first char the special flag of the tag name no longer changes |
| RawTokenizer.HexStaysUnicode | rust/src/raw_tokenizer.rs:808-818 | corrected, hex digits keep the Unicode escape state until `;` returns it to Normal |
| TextWhitespace.PushAll | rust/src/token_parser_text.rs:123-142 | pushing a run of chars in order keeps the last-visible mark within the parsed text |
| Cursors.Cursor.Pop | rust/src/old2/peek_reader.rs:64-72 | the abstract reader the tokenizers consume: popping returns the next char of the `'\0'`-padded input and advances by one |
| Escapes.TextEscape | rust/src/raw_tokenizer.rs:227-245 | the inline-text table: `\c` decodes iff c is one of `" < > ' \ `` a f n r s t v { \| }`, and each delimiter or quote decodes to itself |
| Escapes.StringEscape | rust/src/raw_tokenizer.rs:459-470 | the string-value table decodes exactly `" \ a f n r t v` |
| Escapes.StringEscapeIsTextEscape | rust/src/raw_tokenizer.rs:227-245 | the string table is the text table with `< > ' `` s { \| }` removed, and agrees with it where both decode |
| Escapes.SpecialCharEscape | rust/src/token_parser_text.rs:56-60 | the escape `parse_special_char_escape(last, c)` is assumed to give: a char exactly when `last` is a backslash and `c` is in the inline-text table, and then that table's char |
| Escapes.DecodeHex | rust/src/token_parser_text.rs:83-90 | `from_str_radix(_, 16)` followed by `u32_to_char`: decodes iff the hex digits are non-empty and name a Unicode scalar, and then yields the char with that code point |
| Escapes.DecodeHexExamples | rust/src/token_parser_text.rs:207-251 | `1F4DA` gives 📚, `10437` gives U+10437, the surrogate `D801` and the empty string fail |
| TextWhitespace.Push | rust/src/token_parser_text.rs:123-142 | one step of the whitespace rule keeps the parsed text's last-visible mark within it |
| TextWhitespace.PushVisible | rust/src/raw_tokenizer.rs:250-255 | an escaped char is appended and counts as visible, ending any dropping of blanks |
| TextWhitespace.NewLineCuts | rust/src/token_parser_text.rs:129-136 | at a line break the text is cut back to just after its last visible char and `\n` is appended (only to a non-empty text when empty lines are not kept), and blanks are dropped from then on |
| TextWhitespace.BlanksAfterNewLineDropped | rust/src/token_parser_text.rs:125-128 | after a line break, spaces and tabs are dropped and change nothing |
| TextWhitespace.BlankLinesCollapse | rust/src/token_parser_text.rs:129-136 | two line breaks in a row leave the text as one break does |
| TextWhitespace.SameLineKeepsAll | rust/src/token_parser_text.rs:137-142 | with no line break, every decoded char is appended unchanged |
| TextParsers.NormalSpec | rust/src/token_parser_text.rs:20-47 | the text stops (popping nothing) exactly at `{ } < > \|` not flanked by spaces on both sides and at `/*`; otherwise one char is popped and returned, except that a backslash switches to Unicode mode iff `u` follows and to Slash mode otherwise, returning no char |
| TextParsers.ParseTextNormal | rust/src/token_parser_text.rs:20-47 | the method pops and returns what `NormalSpec` says, and `raw` grows by exactly the popped chars |
| TextParsers.SlashSpec | rust/src/token_parser_text.rs:49-64 | Ok iff `parse_special_char_escape(last, c)` decodes; otherwise `IllegalEscapeSequence` at the current position with text `\x` |
| TextParsers.SlashDecodes | rust/src/token_parser_text.rs:56-59 | after a backslash, the escape decodes exactly the inline-text table |
| TextParsers.ParseTextSlash | rust/src/token_parser_text.rs:49-64 | returns `SlashSpec`, popping the char only on success, and `raw` grows by exactly the popped chars |
| TextParsers.UnicodeLoop | rust/src/token_parser_text.rs:66-101 | the `\u` loop always pops at least one char; success ends right after a `;`; every error is `IllegalEscapeSequence` at the position after the last popped char |
| TextParsers.UnicodeErrorText | rust/src/token_parser_text.rs:72-75 | the error text is `\` followed by every char the loop popped |
| TextParsers.UnicodeDigits | rust/src/token_parser_text.rs:80-94 | hex digits up to a `;` are consumed through the `;` and the result is their decoded scalar, failing iff the value is empty, too large or a surrogate |
| TextParsers.UnicodeEscape | rust/src/token_parser_text.rs:66-101 | `u` + hex + `;` consumes exactly those chars and decodes through `from_str_radix` and `u32_to_char` |
| TextParsers.ParseTextUnicode | rust/src/token_parser_text.rs:66-101 | the method returns what `UnicodeLoop` returns, stops where it stops, and `raw` grows by exactly the popped chars |
| TextParsers.UnicodeExample | rust/src/token_parser_text.rs:207-224 | `\u1F4DA;` decodes to 📚 after consuming all eight chars |
| TextParsers.SurrogateExample | rust/src/token_parser_text.rs:226-251 | `\uD801;` is `IllegalEscapeSequence` reported after the `;` with text `\uD801;` |
| TextParsers.Feed | rust/src/token_parser_text.rs:123-142 | a decoded char goes through the whitespace rule keyed on the raw char (or on the decoded char in the token_parser.rs draft) and keeps the rule's invariant |
| TextParsers.TextStep | rust/src/token_parser_text.rs:111-146 | one loop iteration never moves backwards, grows `raw` by exactly the chars it pops, makes progress or changes mode, enters Stop only where the text must stop, and exits successfully only at `'\0'` or in Stop mode with what was collected |
| TextParsers.LoopContinues | rust/src/token_parser_text.rs:111-146 | the loop's result is the result from the state after one iteration |
| TextParsers.TextLoopResult | rust/src/token_parser_text.rs:111-146 | on success `raw` is exactly the chars consumed, and the text ended at `'\0'` or before a char where it must stop |
| TextParsers.TextSpanCoversRaw | rust/src/token_parser_text.rs:148-149 | the token span from the start to the end position is exactly as long in bytes as `raw` |
| TextParsers.PlainText | rust/src/token_parser_text.rs:111-146 | text on one line with no reserved char (`Chars.IsReservedChar`), no `/` and no NUL is consumed to `'\0'` with `raw` and the parsed text both equal to the input |
| TextParsers.EscapedBlankKeys | rust/src/token_parser.rs:165-184 | an escaped `\s` after a line break counts as visible when the key is the raw char (token_parser_text.rs) but is dropped when the key is the decoded char (token_parser.rs) |
| TextParsers.ParseTextLoop | rust/src/token_parser_text.rs:103-156 | `parse_text` fails iff the reference loop fails, with the same error; on success it stops where the loop stops and returns a Text token whose span runs from the start to the end position, whose `raw` is the consumed chars and whose text is the trimmed parsed text |
| TextParsers.ParseText | rust/src/token_parser_text.rs:103-156 | `parse_text` of token_parser_text.rs: `ParseTextLoop` with the backslash popped and the whitespace rule keyed on the raw char |
| TextParsers.UnpoppedBackslashFails | rust/src/token_parser.rs:81-87 | as written (backslash left unpopped), `\u` in text always fails: the state becomes Unicode with the backslash still unread, so `parse_text_unicode` pops the backslash as its first char and reports `IllegalEscapeSequence` after it with text `\\` |
| TextParsers.PoppedEscapeDecodes | rust/src/token_parser_text.rs:37-45 | with the backslash popped, `\u` + hex + `;` naming a scalar is consumed whole and its char goes through the whitespace rule |
| TextParsers.EscapeExampleAsWritten | rust/src/token_parser.rs:63-101 | as written, `\u41;` fails with `IllegalEscapeSequence` at position (1, 1, 1) |
| TextParsers.EscapeExample | rust/src/token_parser.rs:63-101 | corrected, `\u41;` gives the text `A` with `raw` equal to the whole input |
| RawTokenizer.InlineStep | rust/src/raw_tokenizer.rs:177-297 | one iteration of `parse_inline_text` either pops one char (appending it to `raw`) or leaves; it leaves successfully only at `'\0'` or at `{ } < > \|` in Normal mode not flanked by spaces on both sides, returning what was collected |
| RawTokenizer.InlineTextStops | rust/src/raw_tokenizer.rs:168-300 | on success `raw` is exactly the consumed chars, and the text ended at `'\0'` or before a delimiter not flanked by spaces, which is not consumed |
| RawTokenizer.PlainInlineText | rust/src/raw_tokenizer.rs:181-224 | text with no reserved char (`Chars.IsReservedChar`), line break or NUL is consumed to the end with `raw` and the parsed text both equal to it |
| RawTokenizer.UnknownEscape | rust/src/raw_tokenizer.rs:225-248 | a backslash followed by a char outside the table gives `IllegalEscapeSequence` at the current position with text `\` + the char after |
| RawTokenizer.NonHexUnicodeEscape | rust/src/raw_tokenizer.rs:260-292 | in inline text, a char inside `\u…` that is not the leading `u`, a hex digit or `;` gives `IllegalEscapeSequence` after that char, which is popped, with text `\u` + the digits + that char |
| RawTokenizer.BadUnicodeEscape | rust/src/raw_tokenizer.rs:268-279 | `\u` + `;` with empty hex, or with a value over 0x10FFFF or a surrogate, gives `IllegalEscapeSequence` with text `\u` + the digits |
| RawTokenizer.GoodUnicodeEscape | rust/src/raw_tokenizer.rs:270-285 | a valid `\uHEX;` appends the decoded scalar as a visible char and returns to Normal mode |
| RawTokenizer.ParseInlineText | rust/src/raw_tokenizer.rs:168-300 | the method returns what the reference loop returns and stops where it stops; its state is switched to `InlineTextNew` with the escape state it ends in |
| RawTokenizer.NameStep | rust/src/raw_tokenizer.rs:339-362 | a name char is refused exactly when it is not a leading `!`, not a valid id char (asked with the UTF-8 length of the local part, as `name.local.len()`), not the first `:` and not a pointy view parenthesis; a leading `!` sets `special` |
| RawTokenizer.TagEnd | rust/src/raw_tokenizer.rs:365-378 | an unclosed `(` gives `MissingTerminator`; an empty local name gives `MissingLocalName` except for `\|`…`>`; otherwise a `CurlyTagStart` or a `PointyTag` with the opener and closer |
| RawTokenizer.TagStep | rust/src/raw_tokenizer.rs:326-363 | one iteration of the name loop: a curly name stops before `;`, `}`, space or `'\0'`; a pointy name consumes its closing `\|`/`>` into `raw`; any other char is consumed into `raw` |
| RawTokenizer.ParseTagSpec | rust/src/raw_tokenizer.rs:302-321 | `}` gives `CurlyTagEnd` at once; any opener other than `< \| { }` gives `IllegalChar2(pos, c, "<>{}")` |
| RawTokenizer.TagLoopResult | rust/src/raw_tokenizer.rs:326-378 | on success `raw` is exactly the consumed chars; the local name is non-empty unless the tag is `\|`…`>`; a curly tag stopped before ` `, `;`, `}` or `'\0'`, and a pointy one either consumed its `\|`/`>` as its last char or stopped before a space or `'\0'` |
| RawTokenizer.TagSpecial | rust/src/raw_tokenizer.rs:339-341 | a tag's name is special iff the char after the opener is `!` |
| RawTokenizer.TagStops | rust/src/raw_tokenizer.rs:328-333 | at `'\0'`, a space, or (curly) `;`/`}`, the loop leaves without consuming |
| RawTokenizer.TagCloses | rust/src/raw_tokenizer.rs:334-338 | in a pointy tag, `\|` or `>` is consumed as the closer and ends the loop |
| RawTokenizer.TagNameChar | rust/src/raw_tokenizer.rs:339-362 | any other char either is refused with `IllegalCharMsg(pos, c, "valid id char")` or updates the name and is consumed |
| RawTokenizer.EndTag | rust/src/raw_tokenizer.rs:365-378 | the checks after the name loop compute `TagEnd` without popping |
| RawTokenizer.ScanTagName | rust/src/raw_tokenizer.rs:326-363 | the name loop either fails as the reference loop does or stops in a state from which `TagEnd` gives the reference result |
| RawTokenizer.ParseTag | rust/src/raw_tokenizer.rs:302-379 | `parse_tag` returns what `ParseTagSpec` returns and stops where it stops |
| RawTokenizer.AttrNameStep | rust/src/raw_tokenizer.rs:387-411 | one iteration of `parse_attr_name`: an `=` after the first char ends the name and is consumed into `raw`, yielding an `AttributeName` with a non-empty local part |
| RawTokenizer.AttrNameResult | rust/src/raw_tokenizer.rs:381-417 | on success the name is non-empty, the last consumed char is `=`, and `raw` is exactly the consumed chars |
| RawTokenizer.ParseAttrName | rust/src/raw_tokenizer.rs:381-417 | `parse_attr_name` returns what the reference loop returns and stops where it stops |
| RawTokenizer.StringStep | rust/src/raw_tokenizer.rs:436-512 | one iteration of `parse_string_value`: `'\0'` gives `IllegalChar2(pos, '\0', "\"")`; a `"` in Normal mode ends the value and is included in `raw`; otherwise one char is consumed into `raw` |
| RawTokenizer.ParseStringSpec | rust/src/raw_tokenizer.rs:426-434 | a value not starting with `"` gives `IllegalChar2(pos, c, "\"")` |
| RawTokenizer.StringLoopResult | rust/src/raw_tokenizer.rs:436-514 | on success `raw` is exactly the consumed chars, ending with the closing quote |
| RawTokenizer.PlainString | rust/src/raw_tokenizer.rs:446-457 | a value with no escape is consumed through its closing quote, with `raw` including both quotes and the value the chars between |
| RawTokenizer.NonHexStringEscape | rust/src/raw_tokenizer.rs:478-506 | in a string value, a char inside `\u…` that is not the leading `u`, a hex digit or `;` gives `IllegalEscapeSequence` at that char, which is not popped, with text `\u` + the digits + that char |
| RawTokenizer.UnterminatedString | rust/src/raw_tokenizer.rs:439-445 | reaching `'\0'` before the closing quote gives `IllegalChar2` at the end of input |
| RawTokenizer.ParseStringValue | rust/src/raw_tokenizer.rs:419-515 | `parse_string_value` returns what the reference loop returns and stops where it stops |
| RawTokenizer.NextEscape | rust/src/raw_tokenizer.rs:808-818 | corrected escape tracking: a backslash enters Slash, `u` after it enters Unicode, and `;` in Unicode returns to Normal |
| RawTokenizer.UnicodeNeverLeft | rust/src/raw_tokenizer.rs:810-818 | as written, no char ever leaves the Unicode escape state |
| RawTokenizer.EscapeThenTagAsWritten | rust/src/raw_tokenizer.rs:786-822 | as written, after `\u41;` the text stays in Unicode, so the `{` of `\u41;{b}` is kept as text instead of opening a tag |
| RawTokenizer.UnicodeEscapeCloses | rust/src/raw_tokenizer.rs:808-818 | corrected, a complete `\uHEX;` returns the escape state to Normal |
| RawTokenizer.Tokenizer.constructor | rust/src/raw_tokenizer.rs:547-559 | a new tokenizer starts in inline-text mode with empty text, no result and a blank span |
| RawTokenizer.Tokenizer.ResultText | rust/src/raw_tokenizer.rs:780-784 | emits an inline-text token for the collected text, and no token when the text is empty |
| RawTokenizer.Tokenizer.ModeText | rust/src/raw_tokenizer.rs:786-822 | at `{ } < \|` outside an escape, unless a space stands before it and a space or the end after it, the text is emitted, the mode switches to the matching tag mode and the char is repeated; otherwise the char is appended to the text, the span steps over it and the escape state advances, by `NextEscapeAsWritten` (the code as written, where `\uHEX;` never returns to Normal) or by the corrected `NextEscape`, as `asWritten` says; the span keeps covering exactly the text's bytes |
| RawTokenizer.Tokenizer.ModeCurlyEnd | rust/src/raw_tokenizer.rs:736-745 | the span steps over the char, a curly-end token is emitted, and the tokenizer returns to inline text outside any tag |
| TokenParser.NextState | rust/src/token_parser.rs:191-204 | the char after a text picks the next state: Ok exactly for `{ } < \| / `` `, with `<`/`\|` giving `PointyTagHead` of that char, `/` `Comment` and `` ` `` `CodeBlock`; any other char, end of input included, is a `FauxPanic` |
| TokenParser.TokenText | rust/src/token_parser.rs:146-214 | `parse_text`, for the draft given (`TokenDraftAsWritten` is the code as written): a token's `raw` is exactly the consumed chars, its span runs from the start to the end position and is as long in bytes as `raw`, and it always leaves a state other than `Normal`; an error leaves `Normal` |
| TokenParser.TextTokenStops | rust/src/token_parser.rs:191-204 | for either draft, a text token ends before `{ } < \|` or `/`, never before a backtick: the text loop does not stop there, so the `CodeBlock` transition is unreachable |
| TokenParser.PlainTextIsFauxPanic | rust/src/token_parser.rs:198-203 | a document of ordinary text runs to the end of input, where no state matches, so it is a `FauxPanic` |
| TokenParser.CloseAngleIsFauxPanic | rust/src/token_parser.rs:191-204 | a text that stops before `>` is a `FauxPanic` "unhandled state transition", since `>` stops the text but picks no state |
| TokenParser.PlainLoop | rust/src/token_parser.rs:155-188 | an ordinary char in Normal mode is consumed into both `raw` and the parsed text |
| TokenParser.CommentExampleText | rust/src/token_parser_test.rs:104-117 | the text loop on `abc/*…` stops before `/*` with `raw` and text `abc` |
| TokenParser.CommentExample | rust/src/token_parser_test.rs:104-117 | `abc/*comment` gives the Text token `abc` spanning bytes 0..3 and the `Comment` state |
| TokenParser.EscapeTokenExample | rust/src/token_parser.rs:81-87 | on `\u41;`, `parse_text` as written fails with `IllegalEscapeSequence` at (1, 1, 1) with text `\\`; with the backslash popped the escape decodes and the text runs to the end, a `FauxPanic` |
| TokenParser.NextToken | rust/src/token_parser.rs:216-243 | `parse_next_token`, for the draft given: panics (`unreachable!`) exactly outside the `Normal` state, and otherwise returns what `parse_text` returns; the span-length check never fires |
| TokenParser.NextLoop | rust/src/token_parser.rs:259-271 | for the draft given, the repeat loop returns only an error or a token with a non-empty span, and only from the `Normal` state |
| TokenParser.EmptyTextPanics | rust/src/token_parser.rs:259-271 | an empty text token sends the loop round again in a non-`Normal` state, which panics |
| TokenParser.TagFirstText | rust/src/token_parser.rs:70-74 | a document that starts with `{ } < \|` yields an empty text at once |
| TokenParser.TagFirstPanics | rust/src/token_parser.rs:259-271 | so `next` on such a document panics |
| TokenParser.SecondNextPanics | rust/src/token_parser.rs:222-225 | after the first token, the next call to `next` panics, since only `Normal` is implemented |
| TokenParser.ParseTokenText | rust/src/token_parser.rs:146-214 | the method returns the token and state `TokenText` gives for its draft and stops where it stops |
| TokenParser.ParseNextToken | rust/src/token_parser.rs:216-243 | the method panics exactly when `NextToken` does for its draft, and otherwise returns its result and state |
| TokenParser.Tokenizer.constructor | rust/src/token_parser.rs:246-253 | a fresh tokenizer is in `Normal`, has nothing to replay, holds `Err(NotReadyYet)` and keeps the draft it is given |
| TokenParser.Tokenizer.Next | rust/src/token_parser.rs:254-272 | after `unnext`, returns the previous output again without touching the reader, and clears the flag; otherwise runs the repeat loop for the tokenizer's draft, stores and returns its result |
| TokenParser.Tokenizer.Unnext | rust/src/token_parser.rs:273-275 | sets the replay flag and nothing else |
| CodeBlock.Ticks | rust/src/old2/token_parser_code_block.rs:39-45 | the pushed run: exactly n backticks |
| CodeBlock.CloseStep | rust/src/old2/token_parser_code_block.rs:34-46 | a run of at least N ticks adds the excess to the content; as written, exactly N stops and the following char is popped, and more than N stays Counting; corrected, both stop without popping |
| CodeBlock.CodeStep | rust/src/old2/token_parser_code_block.rs:23-84 | one iteration pops at most one char, grows `raw` by exactly the popped chars, and either pops or makes progress; the loop leaves only in Stop mode or at `'\0'` |
| CodeBlock.CodeContinues | rust/src/old2/token_parser_code_block.rs:23-84 | the loop's result is the result from the state after one iteration |
| CodeBlock.CodeLoopResult | rust/src/old2/token_parser_code_block.rs:23-84 | `raw` is exactly the consumed chars, and the loop ended in Stop mode or at `'\0'` (end of input inside `lang` or `content` ends the token without error) |
| CodeBlock.CodeBlockToken | rust/src/old2/token_parser_code_block.rs:86-100 | the token is a code block, never fails, and `lang` and `content` are swapped when `content` is empty, so a language name is only reported beside some content |
| CodeBlock.CodeSpanCoversRaw | rust/src/old2/token_parser_code_block.rs:86-87 | the span starts at the start position and is exactly as long in bytes as `raw` |
| CodeBlock.TickRun | rust/src/old2/token_parser_code_block.rs:27-28 | a run of k backticks in Counting mode is consumed into `raw` and counted |
| CodeBlock.LangRun | rust/src/old2/token_parser_code_block.rs:53-65 | after the opening run, `lang` accumulates every char up to a space, newline, tab, backtick or `'\0'` |
| CodeBlock.ContentRun | rust/src/old2/token_parser_code_block.rs:66-77 | `content` accumulates every char up to a backtick or `'\0'` |
| CodeBlock.ShortRunKept | rust/src/old2/token_parser_code_block.rs:36-41 | a run of fewer than N backticks inside the content is kept literally in `content` and `raw` |
| CodeBlock.OpeningEnds | rust/src/old2/token_parser_code_block.rs:30-33 | the first char after the opening run fixes N and starts the language name at that char, without popping it |
| CodeBlock.NameEnds | rust/src/old2/token_parser_code_block.rs:58 | the one separator after the name is consumed into `raw` but goes into neither `lang` nor `content` |
| CodeBlock.OpeningRun | rust/src/old2/token_parser_code_block.rs:27-33 | an opening run of n ticks is consumed and fixes N = n |
| CodeBlock.NameRun | rust/src/old2/token_parser_code_block.rs:53-65 | a language name followed by a blank is collected into `lang`, the blank is consumed, and reading the content starts |
| CodeBlock.ClosingRun | rust/src/old2/token_parser_code_block.rs:34-50 | a run of exactly N ticks ends the block with `lang` and `content` unchanged; as written the char after it is also popped unless it is `'\0'`, corrected it is left |
| CodeBlock.BlockName | rust/src/old2/token_parser_code_block.rs:23-65 | an opening run and a language name followed by a space bring the loop to reading content with that name |
| CodeBlock.BlockHead | rust/src/old2/token_parser_code_block.rs:23-77 | …and plain content after it is collected into `content` |
| CodeBlock.WellFormedBlock | rust/src/old2/token_parser_code_block.rs:12-101 | a block of the form N ticks, name, space, content, N ticks yields that name and content, and stops right after the closing run (as written, one char later unless at the end of input) |
| CodeBlock.ExcessRunAsWritten | rust/src/old2/token_parser_code_block.rs:42-46 | as written, on three ticks, " a", four ticks and "}" the excess tick is appended twice and the "}" is swallowed into `raw` |
| CodeBlock.ExcessRunCorrected | rust/src/old2/token_parser_code_block.rs:42-46 | corrected, on the same input the excess tick is content once and the "}" is left for the next token |
| CodeBlock.ExcessRunExample | rust/src/old2/token_parser_code_block.rs:197-213 | the resulting tokens: as written, content "a" plus two ticks and `raw` the whole input; corrected, content "a" plus one tick and `raw` without the "}" |
| CodeBlock.PushTicks | rust/src/old2/token_parser_code_block.rs:39-45 | the push loop appends exactly n backticks to the content |
| CodeBlock.ParseCodeBlock | rust/src/old2/token_parser_code_block.rs:12-101 | `parse_code_block` returns `Ok` of the reference token and stops where the reference loop stops; `closePops` true is the code as written (the Stop branch pops the next char, a longer closing run stays counting), false the corrected loop |
| BasicParser.KindsPartition | rust/src/basic_parser.rs:21-34 | no tag kind is both pointy and curly, and a kind is neither exactly when it is `Virtual` |
| BasicParser.Unnamed | rust/src/basic_parser.rs:58-69 | the count of positional (unnamed) attributes is at most the number of attributes |
| BasicParser.UnnamedStep | rust/src/basic_parser.rs:61-64 | extending the prefix by one attribute adds one to the positional count exactly when that attribute is unnamed |
| BasicParser.UnnamedPrefix | rust/src/basic_parser.rs:58-69 | the positional count of a prefix never exceeds the count of the whole list |
| BasicParser.AsWrittenScan | rust/src/basic_parser.rs:59-69 | the loop as written returns None iff no named attribute is met while the positional counter equals `pos`, and otherwise returns the first such attribute |
| BasicParser.PositionalScan | rust/src/basic_parser.rs:59-69 | the counting-from-one scan returns None iff no unnamed attribute is the `pos`-th one, and otherwise returns that attribute |
| BasicParser.PosAttrAsWritten | rust/src/basic_parser.rs:58-69 | `get_pos_attr` as written only ever returns a named attribute: the first named one seen after exactly `pos` positional ones |
| BasicParser.PosAttrCountsFromOne | rust/src/basic_parser.rs:58-69 | the documented lookup finds an attribute iff 1 <= pos <= the number of positional attributes, and it is the unnamed attribute at that position |
| BasicParser.PositionalWitness | rust/src/basic_parser.rs:58-69 | whenever 1 <= pos <= the positional count, some index holds the `pos`-th unnamed attribute |
| BasicParser.PosAttrExample | rust/src/basic_parser.rs:58-69 | with one unnamed and then one named attribute, position 1 yields the named one as written and the unnamed one as documented |
| BasicParser.GetPosAttr | rust/src/basic_parser.rs:59-69 | the loop with its counter returns exactly the lookup the specification function defines |
| BasicParser.NamedFrom | rust/src/basic_parser.rs:76-84 | finds an attribute iff some attribute from index i on matches the name, and then returns the first match |
| BasicParser.NamedAttr | rust/src/basic_parser.rs:71-85 | an empty name never matches; otherwise the result is Some iff some attribute carries the name, and it is the first such attribute |
| BasicParser.GetNamedAttr | rust/src/basic_parser.rs:71-85 | the early return and the loop compute exactly `NamedAttr` |
| BasicParser.ProcessText | rust/src/basic_parser.rs:119-130 | a text tag is `Virtual`, keeps the raw text and span, is named `text`, and has a single named attribute holding the parsed text |
| BasicParser.TextValueLookup | rust/src/basic_parser.rs:119-130 | the text tag's value is found by the name `val` and no positional attribute exists |
| BasicParser.NextOf | rust/src/token_parser.rs:254-275 | after `unnext` the next call returns the last output without reading; otherwise it reads the next result and remembers it; the flag is always cleared |
| BasicParser.UnnextReplays | rust/src/token_parser.rs:254-275 | `next`, `unnext`, `next` returns the same result and leaves the same state as a single `next` |
| BasicParser.TokenStream.constructor | rust/src/token_parser.rs:246-253 | a new stream is at its start, not pushed back, with the `NotReadyYet` output |
| BasicParser.TokenStream.Next | rust/src/token_parser.rs:254-272 | result and new state are those of `NextOf` on the old state |
| BasicParser.TokenStream.Unnext | rust/src/token_parser.rs:273-275 | sets the pushback flag and changes nothing else |
| BasicParser.CurlyStep | rust/src/basic_parser.rs:149-220 | a step that continues has read an Ok token and either moves to the next token or stays on it in a lower phase; an exit reports the current token as the last one read |
| BasicParser.CurlyContinues | rust/src/basic_parser.rs:149-220 | the loop's result is unchanged by taking one continuing step |
| BasicParser.RawFromStep | rust/src/basic_parser.rs:159-204 | appending the current token's raw text extends the raw text gathered from the start by exactly that token |
| BasicParser.CurlyStepKeeps | rust/src/basic_parser.rs:149-220 | each step keeps the invariant: the tag's raw text is the start raw followed by every token read, the attributes are the name/value pairs read, and the span end is that of the last token read (as written, the opening token's when that token is a value) |
| BasicParser.CurlyExitMadeOf | rust/src/basic_parser.rs:196-225 | on exit the tag is `CurlyFull` iff the last token is `}`, its raw text is every token consumed, its attributes are the name/value pairs, its span ends where `LastEnd` says for the flag, and the stop token is pushed back iff it is not whitespace, a text marker or `}` |
| BasicParser.CurlyMadeOfTokens | rust/src/basic_parser.rs:149-225 | as written or corrected, from any state satisfying the invariant, the loop ends with a tag made of the tokens read, or with the first error or non-value after a name |
| BasicParser.ProcessCurlyMadeOf | rust/src/basic_parser.rs:132-226 | a whole `process_curly_tag` call returns a tag made of exactly the tokens it consumed, starting from the opening token; corrected its span ends at the last consumed token, as written at the opening token when the last consumed token is a value |
| BasicParser.NameWithoutValue | rust/src/basic_parser.rs:172-188 | an attribute name followed by anything other than a value fails with `NotAttributeValue` carrying that token's span and raw text |
| BasicParser.ValueSpanExample | rust/src/basic_parser.rs:176-180 | for `{a x=1` followed by another tag, the code as written ends the tag span at the opening token, while the corrected code ends it after the value |
| BasicParser.ParseNextOutcome | rust/src/basic_parser.rs:228-237 | for either span-end flag, `next` panics iff the first token is Ok but neither inline text nor a curly start; an error is passed through; text becomes `ProcessText`; a curly start becomes a tag made of its tokens, with the span end of that flag |
| BasicParser.TextExample | rust/src/basic_parser_test.rs:16-35 | the test's text input gives the expected `Virtual` tag with the collapsed value, then `EndOfInput`, as written and corrected |
| BasicParser.CurlyExample | rust/src/basic_parser_test.rs:38-54 | `{icon \n }` gives a `CurlyFull` tag with no attributes spanning all nine chars, then `EndOfInput`, as written and corrected |
| BasicParser.AddNewView | rust/src/basic_parser.rs:107-110 | adding a new prefix to a table numbered 1..n gives a table numbered 1..n+1 |
| BasicParser.ViewAddedTwice | rust/src/basic_parser.rs:107-110 | adding a prefix a second time gives the next prefix the same index as the first one |
| BasicParser.BasicParser.constructor | rust/src/basic_parser.rs:97-105 | no views, one empty curly stack, full prefixes hidden, a fresh tokenizer |
| BasicParser.BasicParser.AddView | rust/src/basic_parser.rs:107-110 | maps the prefix to the table's old size plus one and changes nothing else |
| BasicParser.BasicParser.ViewToIndex | rust/src/basic_parser.rs:112-117 | Some iff the prefix is in the table, and then an index between 1 and the table size |
| BasicParser.BasicParser.ProcessCurlyTag | rust/src/basic_parser.rs:132-226 | result and tokenizer state are those of the specification loop started after the opening token, with the span end of a value as written (`valueEnd` false: the opening token's, basic_parser.rs:179) or corrected |
| BasicParser.BasicParser.SeekAttrName | rust/src/basic_parser.rs:154-171 | the inner loop skips whitespace into the tag and stops at a name, a non-name token or an error, each case agreeing with the specification loop |
| BasicParser.BasicParser.TakeAttrValue | rust/src/basic_parser.rs:172-193 | reads exactly one token: a value is appended as an attribute, with the span end set to the opening token's as written or to the value's corrected; anything else is the error the specification loop gives |
| BasicParser.BasicParser.FinishCurlyTag | rust/src/basic_parser.rs:196-225 | the stop loop agrees with the specification loop in result and tokenizer state, including the pushback |
| BasicParser.BasicParser.Next | rust/src/basic_parser.rs:228-237 | result and tokenizer state are those of `ParseNext` on the old state, for the span-end flag given |
| Prelude.TrimStart | rust/src/old2/prelude.rs:44 | the result is a suffix of the input, what it drops is all white space, and it does not start with white space |
| Prelude.TrimEnd | rust/src/old2/prelude.rs:44 | the result is a prefix of the input, what it drops is all white space, and it does not end with white space |
| Prelude.TrimIsSubstring | rust/src/old2/prelude.rs:76 | `trim` returns a substring with only white space around it, and neither of its ends is white space |
| Prelude.TrimEmptyIffBlank | rust/src/old2/prelude.rs:42-50 | the trimmed string is empty iff the string is all white space |
| Prelude.NonEmptyOrNone | rust/src/old2/prelude.rs:42-50 | None iff the input is None or blank; otherwise the input string unchanged (not trimmed) |
| Prelude.NewBasicName | rust/src/old2/prelude.rs:60-79 | blank view and prefix become None, the local name is trimmed, the raw text is kept; the name is empty iff every given part is blank and there is no raw text |
| Prelude.NewEmptyBasicName | rust/src/old2/prelude.rs:80-87 | the empty name satisfies `is_empty` |
| Prelude.TryBool | rust/src/old2/prelude.rs:102-111 | a number converts, to true iff it is non-zero; a string gives `NotANumber` holding the value |
| Prelude.TryString | rust/src/old2/prelude.rs:143-152 | a string converts to its parsed text; a number gives `NotAString` holding the value |
| Prelude.Pow10 | rust/src/old2/prelude.rs:118-120 | the divisor 10^k is at least 1 |
| Prelude.Quot | rust/src/old2/prelude.rs:119 | Rust's `/` on integers: the quotient truncated toward zero, bounded as such for both signs |
| Prelude.QuotQuot | rust/src/old2/prelude.rs:117-120 | truncating by b and then by c is truncating by b*c, so the loop of single divisions by 10 is one division by 10^places |
| Prelude.TryI64 | rust/src/old2/prelude.rs:113-126 | a number converts to `num` divided `places` times by ten, which equals `num` truncated by 10^places; a string gives `NotANumber` |
| Prelude.QuotStaysI64 | rust/src/old2/prelude.rs:113-126 | the converted value stays in the i64 range, so the loop never overflows, and it is non-negative iff num + 10^places > 0 |
| Ast.RunEnd | rust/src/ast.rs:144 | the end of the longest run of chars satisfying the test from index i: every char before it satisfies it and the char at it does not |
| Ast.NatString | rust/src/ast.rs:111 | the decimal text of a number: non-empty, all digits, reads back as the number, and has no leading zero |
| Ast.TagP | rust/src/ast.rs:117-125 | nom's `tag`: succeeds iff the literal is a prefix, consuming exactly it; otherwise fails with `Tag` on the whole input |
| Ast.CharP | rust/src/ast.rs:158 | nom's `char`: succeeds iff the input starts with the char, consuming exactly it; otherwise fails with `Char` |
| Ast.Multispace0 | rust/src/ast.rs:156 | nom's `multispace0`: splits the input into its longest leading run of blanks and the rest |
| Ast.HexDigit1 | rust/src/ast.rs:135 | nom's `hex_digit1`: succeeds iff the first char is a hex digit, and takes the longest run of hex digits |
| Ast.I64 | rust/src/ast.rs:143-146 | nom's `i64`: a success lies in the i64 range and consumes something; a failure is `Digit` on the whole input |
| Ast.I64Digits | rust/src/ast.rs:143-146 | an optional sign and a run of decimal digits read as the signed value, and fail with `Digit` iff that value is outside the i64 range |
| Ast.I64Of | rust/src/ast.rs:143-146 | the decimal text of any i64 value, followed by a non-digit, parses back to that value |
| Ast.TagArgsBool | rust/src/ast.rs:117-130 | succeeds iff the input starts with `true` or `false`, giving that flag and consuming exactly its text; otherwise `Tag` on the whole input |
| Ast.IntegerHex | rust/src/ast.rs:133-140 | `0x` plus hex digits gives their value; the program aborts iff that value exceeds i64::MAX; it fails iff the prefix or the digits are missing |
| Ast.TagArgsInteger | rust/src/ast.rs:148-151 | a success is an integer in the i64 range that consumes something; a failure is `Digit` on the whole input |
| Ast.TagArgsValue | rust/src/ast.rs:159 | a value always consumes part of its input |
| Ast.TagArgsPair | rust/src/ast.rs:153-161 | a pair consumes part of its input and its leading text is blanks only |
| Ast.Many0Pairs | rust/src/ast.rs:180 | `many0` never consumes more than its input |
| Ast.ParseCurlyTagStart | rust/src/ast.rs:177-192 | a curly head starts with `{` and consumes part of its input |
| Ast.ViewName | rust/src/ast.rs:224-226 | a view is a name between parentheses, and the parentheses, the name and the rest make up the input |
| Ast.ParsePointyTagStart | rust/src/ast.rs:228-245 | a pointy head starts with `<` and consumes part of its input |
| Ast.EncodePointy | rust/src/ast.rs:202-222 | the appends of `encode_cptml` produce exactly `PointyText`: `<`, the view in parentheses if any, the element, each argument, the blanks and `\|` |
| Ast.AppendArgs | rust/src/ast.rs:212-217 | the argument loop appends the text of every argument in order |
| Ast.AppendArg | rust/src/ast.rs:213-216 | one turn appends the blanks, the name, `=` and the value |
| Ast.ValueOf | rust/src/ast.rs:159 | the text of any valid value, followed by a head terminator, parses back to that value |
| Ast.PairOf | rust/src/ast.rs:153-161 | the text of any valid argument parses back to that argument |
| Ast.NoPairAtEnd | rust/src/ast.rs:153-161 | no pair is read from blanks followed by `\|` or `;`, so `many0` stops there |
| Ast.Many0Of | rust/src/ast.rs:180 | the text of any list of valid arguments, followed by the head's end, parses back to that list |
| Ast.ViewOf | rust/src/ast.rs:224-231 | the optional view reads back the written view, and leaves the input untouched when there is none |
| Ast.PointyRoundTrip | rust/src/ast.rs:202-245 | for every valid pointy head, parsing its `encode_cptml` text gives back the head and the rest of the input |
| Ast.CurlyRoundTrip | rust/src/ast.rs:177-192 | for every valid curly head, parsing its text `{name args blanks;` gives back the head and the rest |
| Ast.CurlyNeedsSemicolon | rust/src/ast.rs:182 | the same text without the closing `;` fails with `Char` at the end of the input |
| Ast.CurlyTooShort | rust/src/ast.rs:523-537 | the empty input fails with `Char` and `{` alone fails with `Eof` |
| Ast.BoolExamples | rust/src/ast.rs:635-662 | the five boolean cases of the tests |
| Ast.IntegerExamples | rust/src/ast.rs:614-632 | `0xA` is 10 and the empty input fails with `Digit` |
| Ast.HexOverflowAborts | rust/src/ast.rs:133-140 | a hexadecimal literal above i64::MAX aborts `tag_args_integer` instead of failing |
| Ast.HexPanics | rust/src/ast.rs:133-151 | once the digits after `0x` exceed i64::MAX, both `integer_hex` and `tag_args_integer` abort |
| Ast.PointyExampleBare | rust/src/ast.rs:410-411 | `<sentence\|` parses and encodes back to itself |
| Ast.PointyExampleBlank | rust/src/ast.rs:412-413 | `<sentence  \|` parses and encodes back to itself |
| Ast.PointyExampleFull | rust/src/ast.rs:414-415 | the head with a view, a namespace and one argument parses and encodes back to itself |
| Ast.FullExampleText | rust/src/ast.rs:414-415 | the head of that test writes back as the same text |
| Names.NameEnd | rust/src/lexer.rs:33-45 | the end of the name: every char before it continues a name and what follows cannot |
| Names.NameEndUnique | rust/src/lexer.rs:33-45 | any index with that property is the one `NameEnd` finds |
| Names.XidName | rust/src/lexer.rs:22-51 | fails iff the input is empty (`Eof`) or does not start with an XID_Start char (`Alpha`); otherwise splits the input into a maximal name and the rest |
| Names.ScanXidName | rust/src/ast.rs:39-71 | the char loop computes exactly `XidName` |
| Names.XidNameOf | rust/src/lexer.rs:22-51 | a name followed by a non-name char parses back to that name and that rest |
| Names.DashesDiffer | rust/src/ast.rs:34-36 | with a `-` after the first char, the ast.rs name keeps the dash while the lexer.rs name stops before it |
| Names.Encode | rust/src/ast.rs:21-27 | no namespace writes the local name; `!` writes `!` and the local name; any other namespace writes it, `:` and the local name |
| Names.Special | rust/src/lexer.rs:53-56 | succeeds iff the input is `!` followed by a name, giving the pair (`!`, name) |
| Names.Regular | rust/src/lexer.rs:58-61 | a success is two names and the input is the first, `:`, the second and the rest |
| Names.Local | rust/src/lexer.rs:63-66 | succeeds iff a name is read, giving the pair (empty, name) |
| Names.ParseIdFullName | rust/src/lexer.rs:68-74 | a success consumes something; a failure means all three forms failed and carries the error of the last one |
| Names.ParseIdFullNameForms | rust/src/lexer.rs:68-74 | a parsed name is well formed, has the namespace `!` iff the input starts with `!`, and has no namespace only when the regular form fails |
| Names.EncodeParsed | rust/src/lexer.rs:68-74 | writing the parsed name back and appending the rest gives the input |
| Names.EncodeParsedSpecial | rust/src/lexer.rs:53-56 | the same for a special name |
| Names.EncodeParsedRegular | rust/src/lexer.rs:58-61 | the same for a namespaced name |
| Names.ParseEncoded | rust/src/ast.rs:88-98 | any well-formed name, followed by a char that cannot continue it, parses back from its own text |
| Names.ParseEncodedLocal | rust/src/lexer.rs:63-66 | the local case of that round trip |
| Names.ParseEncodedSpecial | rust/src/lexer.rs:53-56 | the special case of that round trip |
| Names.ParseEncodedRegular | rust/src/lexer.rs:58-61 | the namespaced case of that round trip |
| Names.LocalStopsAtColon | rust/src/lexer.rs:63-66 | on `ns:local` the local form alone would stop at the colon, which is why the regular form is tried first |

## Left out

- Unicode tables: the XID_Start/XID_Continue tables, Go's `unicode.IsLetter`/`IsDigit` and `hacks::is_valid_id_char` are parameters (function values). `is_id_start`/`is_id_continue` are abstract predicates.
- Escapes.SpecialCharEscape: the token parsers import `parse_special_char_escape` from `crate::chars`, but rust/src/chars.rs does not define it. Its definition is assumed: the inline-text table of rust/src/raw_tokenizer.rs:227-245 after a backslash, and nothing otherwise.
- Byte sources: Rust `ByteReader` iterators are a `seq<byte>`. Go's `bufio.Reader` is a string of runes whose UTF-8 sizes are given by `Width`. Invalid UTF-8 in the Go input is not modelled.
- I/O errors other than end of input are not modelled.
- The token parsers (`TextParsers`, `TokenParser`, `CodeBlock`) read an already-decoded cursor that cannot fail. In the source, each `src.pop()?` can return the reader's decoding error (SliceTooShort, InvalidFirstByte, ScalarTooLarge, Surrogate; rust/src/old2/peek_reader.rs:64-67, 102-117), and `?` passes it up during a token (rust/src/token_parser.rs:88, 101, 119; rust/src/token_parser_text.rs:38, 58, 76; rust/src/old2/token_parser_code_block.rs:82). Those errors are not modelled. Results such as "fails iff the reference loop fails" hold over decoded input only.
- The behaviour of rust/src/raw_tokenizer.rs against the first-draft reader it imports (rust/src/peek_reader.rs, where `peek(0)` is the next char) is not modelled. Its `peek(1)` is read as the next char, in the convention of rust/src/old2/peek_reader.rs.
- PeekReader.PeekReader.New: requires the byte source to be the UTF-8 encoding of some text. The source reads any byte iterator and panics on bytes that are not UTF-8: at `res.unwrap()` on a char cut off by the end of input (rust/src/peek_reader.rs:91), and in the decoder on a bad lead byte or scalar. Those panics are not modelled for this reader; `ResultPeekReader` models them as errors.
- RawParser.RawParser.New: requires the byte source to be the UTF-8 encoding of some text. The source panics on other bytes (rust/src/raw_parser.rs:114 for a cut-off char), and those panics are not modelled for this reader.
- Error messages: Rust errors and Go `errors.New` messages are datatype constructors named after the message.
- Floating point: the `TryFrom<AttrValue> for f64` conversion (rust/src/old2/prelude.rs:128-141) is not modelled.
- Prelude.TryI64: `places` is a `u16` in the source and an unbounded `nat` here. The quotient is proved to stay in the i64 range, so there is no overflow to model.
- Stubs: the `todo!()`/`unimplemented!()` bodies of ast.rs (`CurlyTagStart`, `PointyTagEnd`, `InlineText`, `Comment`, `CodeBlock`, `TexCode`) are not modelled. The curly head has no encoder in the source, so Ast.CurlyRoundTrip states its round trip against the layout of the pointy encoder, closed by `;`.
- The debugging modes of `RawTokenizer` (rust/src/raw_tokenizer.rs:610-726) and its other `mode_*`/`result_*` methods are not modelled; only `mode_text`, `result_text` and `mode_curly_end` are. `mode_text`'s `last_c`/`next_c` peeks are parameters.
- `Debug` formatting, `println!` tracing, and the `String()` methods of the Go tokens are output only and are not modelled.
- Tests that contradict the code they test are not restated as lemmas.
- TokenParser.ParseNextToken: only the `Normal` state of `parse_next_token` is implemented in the source; the other states panic, and the model keeps that panic as a `Completion`.
- SaxReader.TokenReader.TextStep: the error `writeRune` returns is dropped by `ReadToken` (go/sax.go:365), and the model drops it too.
- The Go `CharData` fields `bracketsNum` and `tmpRune` are never read and are not modelled.
- In Go's `StartElement` and `EndElement`, `Style` is always `XML_STYLE`, set at go/sax.go:374 and 383. The `AttrMap` methods are empty stubs. Neither is modelled.
- SaxReader.Initial: the nil check that allocates the stacks map is folded into an empty map, whose missing views read as empty stacks.
- SaxReader.Read: the unknown-mode and unknown-submode branches cannot be reached from the reader's own states and are not modelled.
- SaxReader.Read: `setNameAndView` and its regular expression (go/sax.go:23 and 218-226) are a parameter `names` from the gathered name to a view and a `Name`.
- SaxReader.Read: the default entity table is a parameter `ent`.
- SaxReader.CloseEnd: a `pop` on an empty stack indexes out of range in Go and panics. The model returns `Aborts(view)`.
- SaxReader.AtEof: the token returned at the end of the input is not pushed, even for a start tag, as in the source.
- SaxReaderFacts.StartTagEnds: this lemma and the tag-token lemmas assume that `/` and `>` are neither letters nor digits for the `cls` parameter.
- SaxReaderFacts.PlainTextRead: a text token's `StartPos` is the position after its first rune, as in the source.
- Names.ParseEncoded: this lemma and the round-trip lemmas that build on it assume `Sane(xid)`, that is, the markup punctuation is neither XID_Start nor XID_Continue.

## Findings

| source | as written | input that shows it | evidently intended | confidence | as-written member | corrected member |
|---|---|---|---|---|---|---|
| rust/src/raw_tokenizer.rs:808-818 | the `escape == Slash && c == ';'` branch follows an `escape == Slash` branch and can never run, so nothing leaves the Unicode escape state | the text `\u41;{b}`: after `;` the state is still Unicode, so `{` is kept as text | `;` ends a `\uHEX;` escape and returns to Normal | high, not executed | RawTokenizer.UnicodeNeverLeft, RawTokenizer.EscapeThenTagAsWritten | RawTokenizer.UnicodeEscapeCloses |
| rust/src/token_parser.rs:81-87 | on `\` the mode changes but the backslash is not popped, so the Slash/Unicode parser reads the backslash itself | `\u41;` fails with `IllegalEscapeSequence` at position (1, 1, 1) | the backslash is popped into `raw` as in rust/src/token_parser_text.rs:37-45, and `\u41;` gives `A` | high, not executed | TextParsers.UnpoppedBackslashFails, TextParsers.EscapeExampleAsWritten | TextParsers.PoppedEscapeDecodes, TextParsers.EscapeExample |
| rust/src/old2/token_parser_code_block.rs:34-50 | a closing run longer than the opening one appends its excess but never sets Stop, so the scan stays in the counting mode and the next char ends the run again; an exact-length closing run pops the char that follows it | three ticks, ` a`, four ticks and `}`: the content is `a` plus two ticks and `raw` is the whole input, `}` included | a closing run of at least N ticks ends the block once, with the excess in the content, and the next char is left unread: content `a` plus one tick | medium, not executed | CodeBlock.ExcessRunAsWritten | CodeBlock.ExcessRunCorrected |
| rust/src/basic_parser.rs:58-69 | `get_pos_attr` returns the first named attribute seen once `pos` unnamed ones were counted | attributes [unnamed u, named n], pos 1: returns n | the `pos`-th unnamed attribute, counting from 1, as its doc comment says | high, not executed | BasicParser.PosAttrAsWritten, BasicParser.PosAttrExample | BasicParser.PosAttrCountsFromOne |
| rust/src/basic_parser.rs:176-180 | after an attribute value the span end is set from the tag's opening span, not the value's | `{a x=1` then another tag: span ends at byte 2 | the span ends after the value, at byte 6 | medium, not executed | BasicParser.ValueSpanExample | BasicParser.ProcessCurlyMadeOf |
