# desi: byte-level machines, modelled and proved

This project models the core of the C library `desi` in Dafny and proves what it is for.

* **Event streams** (`src/sse.c`): `Utf8`, `Utf8Standard`, `EventStream`, `SseMachine`, `SseInvariants`,
  `SseRefinement`, `SseChunks`, `SseBudget`, `SseHost`, `SseParser`, `SseWriter`, `SseRoundTrip`, `SseStandard`.
  `EventStream` is the text side of sections 9.2.5 and 9.2.6 of the HTML Living Standard; `SseMachine` is the
  byte-driven machine; `SseParser` is the parser object, whose every method is tied to the machine; `SseHost`
  says what the host's answers can change.
* **The JSON tokenizer** (`include/jstok.h`): `JsonLexer`, `JsonTree`, `Jstok`, `JstokComplete`, `JstokSound`,
  `JstokResume`, `JstokCount`, `JstokPart`, `JstokErrors`, `JstokParser`, `Navigation`, `Places`, `Unescape`.
  `JsonTree` has concrete syntax trees with all their white space, the text they print to and the flat token
  array they stand for; `Jstok` is the pushdown machine; `JstokParser` is the parser object.
* **The JSON writers** (`src/json_build.c`): `JsonWriter`, `ToolCallsRoundTrip`, `ChatRequest`,
  `JsonTexts`.
* **Streamed tool calls** (`src/protocol_chat.c`, `src/tools_accum.c`, `src/llm.c`, `include/llm/internal.h`):
  `ChatChunk`, `ChunkTree`, `StreamTools`, `StreamSafety`, `StreamComplete`, `StreamBreaks`, `LateDelta`,
  `StreamContext`, `ChatTransfer`, `ChatPolls`, `ChatDownload`.
  `StreamTools` is the handler of the events; `ChatTransfer` puts it behind the event parser, with the polls of
  the host; `ChatDownload` is the same as an object.
* **Whole completions and the bounded tool loop** (`src/protocol_chat.c`, `src/llm.c`): `ChatResponse`,
  `RepeatGuard`, `TurnHash`, `HashSpread`, `ToolLoop`, `ToolLoopRun`, `ToolLoopLog`, `ToolIds`, `PostedIds`,
  `PostedOutputs`.
* **The alphabet** of all of them: `Spelling` spells out every set of bytes by its characters, every name by its
  text and every limit by its value.

Code that works by changing state is a class or a method with loops here (`SseParser`, `SseWriter`,
`JstokParser`, `Unescape`, `JsonWriter`, `ChatChunk`, `StreamContext`, `ChatDownload`, `ChatRequest`,
`ChatResponse`, `RepeatGuard`, `TurnHash`, `ToolLoopRun`). Each such method is proved against a function on
values, and the theorems are about those functions: over every input, every run and every way of cutting a
stream.

Callbacks and polls are a trace of calls plus a function that answers given the trace. Memory allocation
succeeds, except that `StreamTools.Config.room` bounds how many accumulators fit. A pointer and a length are a
`Span`.

Where the code and its description differ, the code is followed:

* A whole overlong or surrogate UTF-8 sequence becomes one U+FFFD, while the standard's decoder gives one per
  byte (`Utf8Standard.OverlongDiffers`). The decoders agree exactly on streams in which no lead byte is followed
  by a tail byte that may not follow it (`Utf8Standard.DecodersAgreeExactly`). So "the reading" of a stream below
  is the standard's but for the decoder, which is the parser's own; without such a pair of bytes it is the
  standard's (`SseStandard.RefinesStandard`, `SseStandard.PayloadReadsExactly`). An unfinished sequence at the very
  end gives nothing yet in either; what the standard makes of it when the stream ends is in a line it discards.
* The tokenizer is built without `JSTOK_STRICT`: several top-level values and empty input are accepted, and a
  number at the very end of the input is PART. `JsonTree.WfDocument` says exactly which inputs that gives.
* The total limit of `sse_feed` refuses a whole chunk, so cuts do not matter exactly for texts within that
  limit (`SseChunks.CutsMatterExactly`).
* A host that refuses a poll between two chunks makes cuts visible (`ChatPolls.PollsMakeCutsVisible`). The
  handler ends where the reading of the stream leaves it exactly when the host refused nothing before an event broke
  the stream (`ChatTransfer.StreamMeansItsEvents`); of two ways of cutting, the results are the same if this holds
  of both and differ if it holds of one (`ChatTransfer.CutsAreInvisible`); and with any answers the host sees a
  beginning of the same calls (`ChatTransfer.HostSeesABeginning`).
* Resuming after PART ends in another state than a fresh parse exactly when a literal at the end of the buffer
  is continued by a non-delimiter; both are then INVAL (`JstokResume.ResumeEqualsRestart`,
  `JstokResume.LiteralIsSplit`).
* Surrogates in `\u` escapes are encoded one by one, so the unescaped text is UTF-8 exactly without them
  (`Unescape.UnitIsUtf8`, `Unescape.UnescapedIsUtf8`).
* The tool loop posts the id of a call as it stood in the reply, still escaped, and the request escapes it once
  more, while the raw `tool_calls` text goes back as it is: the two agree exactly for ids without a backslash
  (`PostedIds.IdsAgreeExactly`).
* Deltas for an index that was not active when the calls were finalized are still accepted afterwards, but
  never completed: `LateDelta.LateDeltaIsNeverCompleted` is such a stream, and
  `StreamComplete.CallsCompleteExactly` says for which streams every reported call is completed.

The main results, in the order of the list above:

* `SseRefinement.RefinesReading`, `Utf8Standard.DecodersAgreeExactly`, `SseStandard.RefinesStandard`: the byte
  machine is the reading of the stream; when its decoder is the standard's, and what follows for the reading.
* `SseInvariants.EveryRunKeeps`, `SseChunks.ChunksAreOneRun`, `SseChunks.CutsMatterExactly`,
  `SseBudget.RunsOutExactly`, `SseHost.RunFollows`: limits and memory over every run, when memory runs out,
  independence of cuts and of the host.
* `SseRoundTrip.WriteThenRead`, `SseRoundTrip.LimitsAgree`, `SseWriter.WriteEvent`: writer and parser.
* `JstokComplete.ParseInvertsPrint`, `JstokSound.AcceptsExactlyDocuments`: the tokenizer accepts exactly JSON
  nested at most 64 deep, and its tokens are the preorder flattening of the tree.
* `JstokPart.CodeSaysWhatCanFollow`, `JstokErrors.ErrorIsFirst`, `JstokErrors.DepthExactly`,
  `JstokResume.ResumeEqualsRestart`, `JstokCount.CountAgreesWithFill`: what code and position say about
  continuations, resuming and counting.
* `Navigation.SkipIsSubtree`, `Navigation.ArrayAtIsElement`, `Navigation.ObjectGetIsMember`,
  `ChunkTree.ReaderFindsMeaning`: the flat array is navigated as the tree.
* `Unescape.UnescapeInto`, `Unescape.FragmentsUnescape`: unescaping in place and piecewise.
* `ToolCallsRoundTrip.ToolCallsRoundTrip`, `ChatRequest.MessagesReadBack`: what the writers emit is recovered, byte
  for byte.
* `StreamSafety.WholeStreamIsOrderly`, `StreamSafety.EverythingIsReported`, `StreamBreaks.BreaksExactly`,
  `JsonTexts.IsJsonExactly`, `StreamSafety.SuccessExactly`, `StreamComplete.CallsCompleteExactly`,
  `ChatTransfer.HostSeesABeginning`, `ChatTransfer.StreamMeansItsEvents`, `ChatTransfer.ResultExactly`: what the host is told, over whole streams.
* `ChatResponse.ReaderFindsReply`, `ChatResponse.RawCallsAgree`, `ToolIds.EveryCallIsAnsweredByItsId`,
  `PostedIds.EveryPostedIdAgreesExactly`: replies, and the ids under which their calls are answered.
* `RepeatGuard.AnyNineDistinct`, `TurnHash.EncodingIsInjective`, `HashSpread.EveryByteMatters`: repetitions.
* `ToolLoopLog.RunExactly`, `ToolLoop.EveryRun`, `PostedOutputs.EveryOutputIsPosted`: the tool loop, as the only log
  in which every action is the one that has to come, and what it posts.

## Model

| member | source | states |
|---|---|---|
| Utf8.AcceptedExactlyUtf8Char | src/sse.c:146-223 | The lead-byte ranges together with the code-point test accept exactly the multi-byte characters of section 4 of RFC 3629, both ways. |
| Utf8.DecodeIsValid | src/sse.c:170-229 | For any input bytes the decoded text is valid UTF-8: malformed pieces become U+FFFD. |
| Utf8.DecodeKeepsValid | src/sse.c:179-223 | Valid UTF-8 passes through the decoder unchanged. |
| Utf8.DecodeFeed | src/sse.c:179-223 | Feeding one byte at a time, with an unfinished sequence held back, yields what decoding the whole stream yields. |
| Utf8Standard.DecodersAgreeExactly | src/sse.c:146-223 | On any byte stream the parser's decoder and the one of the Encoding Standard (section 8.1.1) give the same text exactly when no lead byte in it is followed by a tail byte that may not follow this lead; otherwise the standard's gives more. |
| Utf8Standard.OverlongDiffers | src/sse.c:146-223 | A concrete input, `E0 80 80`: the parser's decoder gives one U+FFFD, the standard's three. |
| SseInvariants.ReserveKeeps | src/sse.c:72-94 | Growing one buffer keeps the memory account exact and within the budget, and leaves room for what was asked. |
| SseInvariants.FeedAdds | src/sse.c:179-223 | A byte that is accepted adds to the line exactly what the decoder emits for it. |
| SseInvariants.InitHolds | src/sse.c:410-421 | A fresh parser satisfies the whole invariant. |
| SseInvariants.RawByteKeeps | src/sse.c:350-379 | One byte behind the byte order mark keeps buffers, limits, memory account, data flag and line contents consistent. |
| SseInvariants.ByteKeeps | src/sse.c:381-408 | The same for every byte, also while a byte order mark is still possible. |
| SseInvariants.ChunkKeeps | src/sse.c:444-465 | One `sse_feed` call keeps the invariant, whether it succeeds or not. |
| SseInvariants.EveryRunKeeps | src/sse.c:72-133 | After any sequence of calls: `mem_used` is the sum of the four capacities and within the budget, lengths are within capacities and caps; and without an error the data flag holds exactly when the data buffer is non-empty and then ends in LF, and the line is valid UTF-8. |
| SseRefinement.RetryIsDecimal | src/sse.c:231-243 | The overflow-checked digit loop accepts exactly the non-empty digit strings whose value fits a size_t, and returns that value. |
| SseRefinement.LineRefines | src/sse.c:267-348 | What one completed line does to the machine is what sections 9.2.5 and 9.2.6 of the HTML Living Standard do with it. |
| SseRefinement.RefinesReading | src/sse.c:179-465 | Without a memory budget, for every byte stream and every answering host: calls, last event id, retry time and final error of the byte-driven machine are those of stripping one byte order mark, decoding as the parser does, splitting into lines and interpreting the fields as the standard does, under the same line and frame limits. |
| SseStandard.RefinesStandard | src/sse.c:179-465 | The same with the standard's own decoder, for every stream in which no lead byte is followed by a tail byte that may not follow it. |
| SseStandard.PayloadReadsExactly | src/sse.c:179-465 | Without limits an event with any one-line payload is read as the standard reads it exactly when its payload has no such pair of bytes. |
| SseChunks.ChunksAreOneRun | src/sse.c:444-465 | Any sequence of calls processes the bytes of the chunks the total limit admits as one run, wherever they are cut, and refuses the first chunk that does not fit as a whole. |
| SseChunks.ChunkingIrrelevant | src/sse.c:350-465 | Two ways of cutting the same bytes, within the total limit, leave the same parser, the same calls and the same sticky error (the byte counter is compared only without an error). |
| SseChunks.CutsMatterExactly | src/sse.c:444-465 | For every text: all ways of cutting it leave the same parser, calls and error exactly when there is no total limit or the text is within it. |
| SseChunks.OverTheTotalCutsMatter | src/sse.c:449-454 | Above the total limit even the callbacks can differ: a concrete stream reaches one in two calls that it does not reach in one. |
| SseBudget.GrowsExactly | src/sse.c:72-94 | Growing one buffer fails exactly when what it is to hold, beside the capacities of the other three, exceeds the budget; otherwise its capacity at least doubles, from 64, as far as the budget goes, and nothing else changes. |
| SseBudget.ByteRunsOutExactly | src/sse.c:350-379 | A byte runs out of memory exactly if what it makes the line or a field buffer hold does not fit beside the other capacities. |
| SseBudget.RunsOutExactly | src/sse.c:72-465 | For every stream: a run reports exhaustion exactly if some byte, the first to fail, makes a buffer hold what does not fit beside the other capacities at that point. |
| SseChunks.BudgetOnlyStopsEarly | src/sse.c:72-94 | With any memory budget the parser shows the reading it shows without one, or reports exhaustion after the calls that reading makes for some prefix of the stream; when it does is `SseBudget.RunsOutExactly`. |
| SseHost.RunFollows | src/sse.c:267-465 | A run with any host beside the run with one that never refuses: the same in every respect, polls aside, unless the host refused a call; then nothing follows the refusal and all calls up to it are a beginning of the other run's. |
| SseHost.ChunkFollows | src/sse.c:444-465 | The same for one `sse_feed` call, with its total limit. |
| SseParser.Parser.constructor | src/sse.c:410-421 | A new parser is in the initial state and satisfies the invariant. |
| SseParser.Parser.ReserveBuf | src/sse.c:72-94 | Computes the growth function, of which `SseBudget.GrowsExactly` says when it fails and what the new capacity is. |
| SseParser.Parser.AppendBuf | src/sse.c:96-104 | Appends everything or nothing. |
| SseParser.Parser.SetBuf | src/sse.c:111-119 | Replaces the contents, or leaves the buffer empty when it cannot grow. |
| SseParser.Parser.AppendLine | src/sse.c:121-126 | Appends to the line within the line limit. |
| SseParser.Parser.FeedByte | src/sse.c:179-223 | One byte of the UTF-8 machine, with its replay after a broken sequence. |
| SseParser.Parser.FlushCharacter | src/sse.c:225-229 | An unfinished character becomes U+FFFD at the end of a line. |
| SseParser.Parser.ReadRetry | src/sse.c:231-243 | The digit loop computes the function that `RetryIsDecimal` characterises. |
| SseParser.Parser.DispatchField | src/sse.c:267-348 | A field changes the buffers as the transition function says, including a failure half-way. |
| SseParser.Parser.DispatchBlank | src/sse.c:267-348 | A blank line makes the frame call and then the event call, stops on refusal, and otherwise clears the buffers. |
| SseParser.Parser.RawByte | src/sse.c:350-379 | CR, LF and CRLF pairing, line ends and text bytes. |
| SseParser.Parser.EarlyByte | src/sse.c:381-408 | The first bytes of a stream: a byte order mark is dropped, anything else is replayed. |
| SseParser.Parser.Feed | src/sse.c:444-465 | A call has exactly the effect of the transition function on the chunk (a null or empty chunk has none) and returns the sticky error. |
| SseParser.Parser.Ask | src/llm.c:1754-1757 | A poll changes nothing but the log and returns the host's answer to it. |
| Spelling.FieldsSpelled | src/sse.c:306-326 | A line without a colon is a name with an empty value; otherwise the value begins behind the first colon and at most one space. |
| SseWriter.SizeAdd | src/sse.c:52-56 | Addition that fails exactly when the sum exceeds a size_t. |
| SseWriter.Measure | src/sse.c:497-513 | The first pass finds the first offending line and otherwise the exact number of lines and of payload bytes. |
| SseWriter.TextSize | src/sse.c:515-526 | The computed size is the size of the text, and fails exactly when a size_t cannot hold it. |
| SseWriter.PutLines | src/sse.c:539-552 | The second pass writes the data lines, nothing in front of or behind them, and ends where the size says. |
| SseWriter.WriteEvent | src/sse.c:473-557 | Succeeds exactly for usable input within the limits whose text fits; then the length is the text's and the bytes are the text; otherwise nothing is written and the first reason is reported. |
| SseWriter.WriteKeepalive | src/sse.c:559-576 | One comment line and a blank line, with its exact failure conditions. |
| SseRoundTrip.WriteThenRead | src/sse.c:473-576 | Any sequence of written events over valid UTF-8, interleaved with keepalives, is accepted by a fresh parser under the same limits and yields exactly those events in order, and none for keepalives. |
| SseRoundTrip.LimitsAgree | src/sse.c:480-557 | The writer's line and frame checks are precisely those the parser applies to the text. |
| Spelling.WritesExactly | src/sse.c:480-536 | An event is written exactly if its frame and all its lines with their prefixes are within the limits, its type has no line end and its payload no CR, and its text fits. |
| JsonLexer.ScanStringSound | include/jstok.h:322-393 | What the string scanner accepts is plain bytes and complete escapes. |
| JsonLexer.ScanStringComplete | include/jstok.h:322-393 | Every well-formed string body is scanned to its closing quote. |
| JsonLexer.ScanNumberSound | include/jstok.h:416-495 | What the number scanner accepts is a number of section 6 of RFC 8259 followed by a delimiter. |
| JsonLexer.ScanNumberComplete | include/jstok.h:416-495 | Every such number in front of a delimiter is scanned to its end. |
| JsonLexer.ScanPrimitiveSound | include/jstok.h:395-530 | Accepted primitives are literals or numbers, properly delimited. |
| JsonLexer.ScanPrimitiveComplete | include/jstok.h:395-530 | Every delimited literal or number is accepted; a literal may also end the input, a number may not. |
| JsonLexer.ScanStringStable | include/jstok.h:322-393 | More input never changes a verdict on a string that was not PART. |
| JsonLexer.ScanPrimitiveStable | include/jstok.h:395-495 | More input changes a verdict on a primitive only for a literal that ended the buffer and is continued by a non-delimiter. |
| Jstok.StepKeeps | include/jstok.h:231-320 | One step keeps the frame stack and the token array consistent: depth, indexes, states. |
| Jstok.ParseKeeps | include/jstok.h:626-803 | Every call keeps them, whatever it returns. |
| JstokComplete.CompleteValue | include/jstok.h:532-803 | From any state that expects a value, parsing its text amounts to appending its flattening and moving behind it. |
| JstokComplete.ParseInvertsPrint | include/jstok.h:626-803 | Parsing the text of any document nested at most 64 deep, with any white space and room for its tokens, returns its node count and exactly its preorder flattening: kinds, spans, element and pair counts. |
| JstokSound.ParseIsFlattening | include/jstok.h:626-803 | Every success is such a flattening of a document that prints to the input. |
| JstokSound.AcceptsExactlyDocuments | include/jstok.h:322-803 | The parser accepts exactly the texts of documents nested at most 64 deep that fit the token array, both ways. |
| JstokPart.ErrorStays | include/jstok.h:626-803 | An error of a count pass is final: whatever is appended, the code stays the same. |
| JstokPart.CodeSaysWhatCanFollow | include/jstok.h:626-803 | On any bytes a count pass succeeds exactly if they are the text of documents nested at most 64 deep, returns PART exactly if they are not but some continuation of them is, and an error exactly if none is: errors are reported as early as possible. |
| JstokErrors.ErrorIsFirst | include/jstok.h:626-803 | On any bytes a count pass sets no error position if they are the text of documents, their end if they are the beginning of one, and otherwise the position of the first byte with which they are no longer: for every shorter prefix some continuation is a text, for no longer one. |
| JstokErrors.DepthExactly | include/jstok.h:206-215 | An error is the depth limit exactly if it is at an opening bracket in the place of which both a number and a string could stand; every other error of a count pass is INVAL. |
| JstokResume.PartRestores | include/jstok.h:353-392 | A PART exit leaves position, frames, container sizes and the root flag as they were before the unfinished token. |
| JstokResume.ResumeEqualsRestart | include/jstok.h:712-780 | After PART, continuing with more bytes returns the code of a fresh parse of the longer buffer, and the same state and tokens exactly unless the parsed part ends with a literal at the end of its buffer and the new bytes start with a non-delimiter; then both are INVAL. |
| JstokResume.LiteralIsSplit | include/jstok.h:395-414 | A concrete input of that kind, `[true` and then `x`: both refuse, in different states. |
| JstokResume.RetryEqualsRestart | include/jstok.h:712-780 | The same for any number of resumptions. |
| JstokCount.CountAgreesWithFill | include/jstok.h:231-268 | A count pass and a fill pass agree in code, error position and state when the count fits the array, and otherwise the fill pass returns NOMEM. |
| JstokCount.SecondPassSucceeds | src/protocol_chat.c:12-30 | A count of n is matched by a fill pass with n slots: the second pass of `tokenize` cannot fail. |
| JstokParser.ReadLiteral | include/jstok.h:395-414 | The literal loop computes the literal scanner. |
| JstokParser.ReadNumber | include/jstok.h:416-495 | The number loops compute the number scanner. |
| JstokParser.ReadString | include/jstok.h:322-393 | The string loop computes the string scanner. |
| JstokParser.Parser.AcceptValue | include/jstok.h:262-306 | Accepting a value marks the frame and counts the element, or refuses. |
| JstokParser.Parser.UndoAccept | include/jstok.h:353-392 | The roll-back restores frame state, container size and root flag. |
| JstokParser.Parser.OpenByte | include/jstok.h:532-564 | Opening a container: token, frame, NOMEM and depth errors in the order of the code. |
| JstokParser.Parser.CloseByte | include/jstok.h:566-624 | Closing a container sets its end and pops its frame, or refuses. |
| JstokParser.Parser.OneByte | include/jstok.h:640-790 | One round of the main loop is one step of the transition function. |
| JstokParser.Parser.Parse | include/jstok.h:626-803 | A call returns the code, the error position and the state the transition function gives, in the caller's token array. |
| Navigation.Skip | include/jstok.h:844-897 | On any token array whatever: terminates, stays in range and computes the walk. |
| Navigation.ArrayAt | include/jstok.h:899-913 | Computes the element index, or -1. |
| Navigation.TokEq | include/jstok.h:826-841 | Compares a token's span with a key, byte by byte. |
| Navigation.ObjectGet | include/jstok.h:915-939 | Computes the member index, or -1. |
| Navigation.SkipIsSubtree | include/jstok.h:844-897 | On a flattened tree `jstok_skip` returns the index just behind the subtree, and its walk never takes the exit for a full stack. |
| Navigation.ArrayAtIsElement | include/jstok.h:899-913 | `jstok_array_at` returns the element with that index, and -1 exactly outside the array. |
| Navigation.ObjectGetIsMember | include/jstok.h:915-939 | `jstok_object_get` returns the value of the first pair whose raw key matches, and -1 exactly when none does. |
| Places.PlacedMember | include/jstok.h:915-939 | Where a node stands in tokens and text, member access leads to where the value of the first pair with the key stands. |
| Places.PlacedElement | include/jstok.h:899-913 | Likewise element access leads to where the element stands. |
| Places.PlacedSpan | src/protocol_chat.c:163-168 | The span of a container's token is the container's whole text. |
| Navigation.EveryTokenIsANode | include/jstok.h:844-939 | On every successful parse each token index starts a node of the tree, in the tokens and in the text. |
| Navigation.StringTokensAreBodies | include/jstok.h:351-384 | Every string token of a successful parse spans only plain bytes and complete escapes. |
| Unescape.ReadPiece | include/jstok.h:1000-1080 | One escape or plain byte is recognised as the grammar says. |
| Unescape.UnescapeInto | include/jstok.h:994-1091 | Succeeds exactly when the token is a string whose text unescapes into the room; the output is the unescaped text, also when it overwrites the input. What each escape stands for is in `LettersUnescape` and `UnitUnescapes`. |
| Unescape.UnescapeSpan | include/jstok.h:1000-1091 | The loop: the write position never passes the read position, and nothing behind the output changes. |
| Unescape.UnescapedShrinks | include/jstok.h:1000-1091 | The output is never longer than the input. |
| Unescape.UnescapedConcat | include/jstok.h:1000-1091 | A text whose escapes are complete can be unescaped on its own, whatever follows. |
| Unescape.BodyUnescapes | include/jstok.h:351-384 | The contents of a string token always unescape. |
| Unescape.FragmentsUnescape | src/llm.c:1606-1659 | Unescaping joined fragments is joining the unescaped fragments. |
| Unescape.UnitUnescapes | include/jstok.h:1049-1080 | A `\u` escape of any four hex digits, in any case, stands for the code unit they spell. |
| Unescape.HexExactly | include/jstok.h:987-992 | The hex digits are `0` to `9` and the letters a to f in both cases, with the values of their place in a table; the writer uses lower case. |
| Unescape.LettersUnescape | include/jstok.h:1016-1047 | The eight escapes of one letter, from a table of letters and of the bytes they stand for. |
| Unescape.OtherEscapesFail | include/jstok.h:1008-1090 | Whatever unescapes has, behind a backslash, one of these letters, or `u` and four hex digits. |
| Unescape.UnitIsUtf8 | include/jstok.h:1066-1079 | A code unit becomes the UTF-8 of its code point, exactly unless it is a surrogate; that becomes the three bytes of the same pattern. |
| Unescape.UnescapedIsUtf8 | include/jstok.h:994-1091 | For every well-formed string over valid UTF-8: what it unescapes to is valid UTF-8 exactly when no `\u` escape in it spells a surrogate. |
| Unescape.UnescapedSameExactly | include/jstok.h:994-1091 | A well-formed string is its own value exactly when it has no backslash. |
| Unescape.EscapeRoundTrip | src/json_build.c:118-156 | Escaping yields the inside of a string token, and unescaping gives back the bytes, for all byte strings. |
| JsonWriter.FixedBuf.Append | src/json_build.c:102-112 | All or nothing; a failure is for good; nothing behind the capacity is touched. |
| JsonWriter.FixedBuf.AppendJsonString | src/json_build.c:118-156 | Writes the quoted, escaped string, or fails exactly when it does not fit. |
| JsonWriter.FixedBuf.AppendStringArray | src/json_build.c:184-192 | Writes the array of the strings, or fails exactly when it does not fit. |
| JsonWriter.FixedBuf.AppendCall | src/json_build.c:212-227 | Writes one call object, with or without its id, or fails exactly when it does not fit. |
| JsonWriter.ToolCallsWrite | src/json_build.c:194-233 | Succeeds exactly when there is a buffer, every call is writable and the whole text fits; then the output is that text; never writes behind the room. |
| JsonWriter.CheckStops | src/json_build.c:247-266 | The stop-list checks accept exactly the lists within the count and total-byte limits, without wrap-around in the byte budget. |
| Spelling.LettersWritten | src/json_build.c:118-145 | Quote, backslash, BS, FF, LF, CR and TAB are written as a backslash and the letter of the table. |
| Spelling.OthersWritten | src/json_build.c:146-153 | Other control characters are written as `\u00` and two lower-case hex digits, every other byte as it is. |
| Spelling.CallSpelled | src/json_build.c:212-227 | The text of a call, spelled out. |
| ToolCallsRoundTrip.CallPrints | src/json_build.c:212-227 | The text of a call is the text of its syntax tree. |
| ToolCallsRoundTrip.StringsRoundTrip | src/json_build.c:184-192 | A written list of strings is parsed as an array of that size whose elements unescape to exactly those strings. |
| ToolCallsRoundTrip.ToolCallsRoundTrip | src/json_build.c:194-233 | What is written for any list of calls is parsed, by both passes, as an array of that many objects, and array access, member access and unescaping recover every id, name and arguments string; no id when there was none. |
| ChatRequest.CheckContent | src/json_build.c:64-86 | True exactly for non-empty text within the limits that parses and starts with an array of at most the allowed size. |
| JsonTexts.ContentExactly | src/json_build.c:64-86 | Content is accepted exactly if it is the text, within the limits, of JSON values nested at most 64 deep of which the first is an array of at most the allowed size. |
| ChatRequest.WriteMessage | src/json_build.c:347-407 | One message is appended, with escaped strings and spliced JSON, or refused exactly when its content is contradictory or no content array. |
| ChatRequest.WriteMessages | src/json_build.c:345-409 | The messages array is the array of the messages' texts; nothing exactly when one of them is refused. |
| ChatRequest.MessagesReadBack | src/json_build.c:345-409 | When the texts spliced in are JSON objects or arrays of bounded depth, the messages array parses as an array of as many objects, each with exactly the members of its message: all strings unescape to the original bytes, and each spliced text is one value between the same white space. |
| ChatRequest.RolesSpelled | src/json_build.c:348-364 | The role of a message is written as `system`, `user`, `assistant` or `tool`. |
| ChatChunk.Tokenize | src/protocol_chat.c:12-30 | Count, allocate, fill: yields the tokens exactly when the text parses. |
| ChatChunk.ReadIndex | src/protocol_chat.c:233-245 | Digits only; wrapping at every digit gives the decimal value modulo the width of a size_t. |
| ChatChunk.ReadCount | src/protocol_chat.c:51-60 | A token count is a non-empty run of digits, with its decimal value; a minus sign only before zero. |
| Spelling.CountExactly | src/protocol_chat.c:51-60 | The texts that are a token count: digits, with their decimal value, or a minus sign and zeros. |
| ChatChunk.ReadUsage | src/protocol_chat.c:62-82 | The three counts of the usage object, each absent unless it is such a number; none without the object. |
| Spelling.ReasonsSpelled | src/json_core.c:40-46 | The finish reason is `stop`, `length`, `tool_calls` or `content_filter`, and anything else is unknown. |
| ChatChunk.FirstFit | src/protocol_chat.c:247-264 | The first element that is an object and, if one is wanted, has the index; none exactly when no element fits. |
| ChatChunk.FindChoice | src/protocol_chat.c:247-264 | The one-pass search with a fallback returns the first object with the index; for index 0 otherwise the first object; else -1. |
| ChatChunk.ReadTools | src/protocol_chat.c:310-352 | All tool-call deltas in order, or none at all when an element is no object. |
| ChatChunk.ReadChunk | src/protocol_chat.c:266-361 | What a chunk says: usage with its counts, and the wanted choice's content, reasoning, deltas and finish reason; or that it is no chunk. |
| ChatChunk.TokensInside | src/protocol_chat.c:12-30 | All spans of the tokens lie in the text. |
| ChunkTree.ChoiceMeans | src/protocol_chat.c:247-264 | The choice found in the flat token array is the choice of the syntax tree. |
| ChunkTree.ToolsMean | src/protocol_chat.c:310-352 | The tool-call deltas read from the flat token array are those of the syntax tree, in order. |
| ChunkTree.UsageMeans | src/protocol_chat.c:62-82 | The usage counts read from the flat token array are those of the syntax tree. |
| ChunkTree.ReaderFindsMeaning | src/protocol_chat.c:266-361 | For every text that parses, the flat reader returns what its first top-level value means as a tree: first pairs with the right keys, the wanted choice, all tool-call deltas in order; nothing when a delta is no object. |
| ChatChunk.ChunkYieldsBodies | src/protocol_chat.c:266-361 | Every string a chunk yields is the inside of a string token, so it can be unescaped piece by piece. |
| StreamContext.GrowBuf.NextCap | include/llm/internal.h:50-56 | Doubling reaches what is needed without exceeding the limit and without growing more than twofold beyond need. |
| StreamContext.GrowBuf.Append | include/llm/internal.h:46-67 | All or nothing: refused exactly when non-empty data would exceed the limit; the capacity never exceeds a limit it was within. |
| StreamContext.GrowBuf.UnescapeInPlace | src/llm.c:1606-1620 | In place, the buffer becomes its unescaped contents, or the call fails exactly when these are malformed or too long. |
| StreamContext.Validate | src/llm.c:1622-1629 | Computes the test of the arguments; which texts pass is `JsonTexts.IsJsonExactly`. |
| JsonTexts.IsJsonExactly | src/llm.c:1622-1629 | Arguments are accepted exactly if they are a text of 1 to INT_MAX bytes of at least one JSON value, none nested more than 64 deep. |
| JsonTexts.EmptyObjectIsJson | src/llm.c:1622-1629 | The arguments `{}` are accepted. |
| StreamContext.Accumulator.FeedDelta | src/tools_accum.c:31-48 | First id and first name win, fragments are appended within the limit, a frozen accumulator refuses. |
| StreamContext.Accumulator.Complete | src/llm.c:1635-1655 | Yields the complete arguments of a call and freezes it, or nothing when they are missing or invalid. |
| StreamContext.Context.OnTool | src/llm.c:1686-1717 | One delta: the array grows, the host is told, the accumulator takes it or the stream breaks. |
| StreamContext.Context.FinalizeCalls | src/llm.c:1631-1659 | The loop completes the active accumulators in index order and stops at the first without valid arguments. |
| StreamContext.Context.OnSseEvent | src/llm.c:1661-1735 | An event has exactly the effect, in state, error code and calls, of the handler function. |
| StreamContext.Context.Finish | src/llm.c:1842-1905 | Only a stream that was transferred, ended with `[DONE]` and was not finalized is finalized now; the code returned is the first error set, a failure for anything else that went wrong, or success. |
| StreamSafety.EveryRunKeeps | src/llm.c:1631-1735 | After any events: accumulators hold exactly the fragments reported for them, completed calls are frozen, `[DONE]` and error never hold together. |
| StreamSafety.WholeStreamIsOrderly | src/llm.c:1631-1735 | Over all event sequences, including the end of the stream: each completion is valid JSON and equals the unescaped, joined fragments reported for its index before; completions have strictly increasing indexes, so at most one per index. |
| StreamSafety.EverythingIsReported | src/llm.c:1661-1735 | Completions aside, the host is told everything the chunks before the first `[DONE]` say, in order and nothing else, or a beginning of it when the stream broke. |
| StreamSafety.Silent | src/llm.c:1661-1669 | After `[DONE]` or an error no event changes anything or reaches the host. |
| StreamSafety.QuietAfterError | src/llm.c:1842-1852 | After an error nothing reaches the host, not even at the end of the stream. |
| StreamSafety.CompletesOnlyOnce | src/llm.c:1631-1634 | Once finalized, nothing is ever completed again. |
| StreamSafety.CompletedRefuses | src/tools_accum.c:31-32 | A delta for a completed call breaks the stream. |
| StreamSafety.FinalizeIsExact | src/llm.c:1631-1659 | Finalizing fails exactly when some started call has no valid arguments, and otherwise completes every started call in index order, and no other. Which arguments are valid is `StreamBreaks.FinalizeExactly`. |
| StreamSafety.ArgumentsAre | src/llm.c:1635-1655 | Unescaping never fails at that point: only missing, oversized or invalid arguments do. |
| StreamBreaks.StepExactly | src/llm.c:1686-1717 | A delta breaks the stream exactly if its index is beyond the memory and above all indexes reported, or belongs to a completed call, or its fragment with those reported for it exceeds the limit; and what the host is told of it. |
| StreamBreaks.FinalizeExactly | src/llm.c:1631-1659 | Finalizing succeeds exactly if for every reported index the fragments, joined and unescaped, are the text of JSON values. |
| StreamBreaks.RunExactly | src/llm.c:1661-1735 | For every stream: it is broken exactly if some event says what does not go with what the host heard before; otherwise each accumulator holds exactly what was reported for its index, the first id and the first name included. |
| StreamBreaks.BreaksExactly | src/llm.c:1631-1852 | The same with the end of the stream: it also breaks exactly if it was transferred up to `[DONE]`, the calls were not ended before and the arguments reported for some index are no JSON. |
| StreamSafety.SuccessExactly | src/llm.c:1842-1905 | Without a refusing host the call succeeds exactly when the transfer and the event parser did, the status is below 400 and the stream is unbroken; it is never reported as cancelled. |
| StreamComplete.CallsCompleteExactly | src/llm.c:1631-1735 | For every unbroken stream: every reported call is completed exactly when no chunk brings deltas or the tool calls are ended (by a chunk, or by `[DONE]` and a completed transfer), and no chunk brings deltas behind one that ends them. |
| StreamComplete.CallsCompleteInOrder | src/llm.c:1842-1849 | The same in terms of what the host heard: exactly when the calls were finalized or there are none, and no delta follows a finish for tool calls. |
| LateDelta.LateDeltaIsNeverCompleted | src/llm.c:1686-1717 | A concrete stream: tool calls are ended, then a delta arrives, then `[DONE]`. The delta is reported, nothing is completed, and the stream is done without any error. |
| ChatTransfer.HostSeesABeginning | src/llm.c:1737-1781 | For all chunks, limits and answers of the host to its polls before and after each chunk and at each frame: the handler ends where handling a beginning of the uncut, unrefused calls would leave it, its error code aside; nothing follows a refusal, and the stream is cancelled exactly when there is one and no event broke the stream before. |
| ChatTransfer.HostSeesABeginningOfTheReading | src/llm.c:1661-1781 | Without a memory budget and within the total limit that is a beginning of the reading of the whole stream. |
| ChatTransfer.StoppingIsHarmless | src/llm.c:1752-1781 | The transfer leaves the handler where all the bytes would have left it, with the error code set, exactly when the host refused nothing before an event broke the stream; and then it fails exactly when the parser or the handler does. |
| ChatTransfer.CutsAreInvisible | src/llm.c:1752-1781 | Two ways of cutting the same bytes, within the total limit: if neither is cancelled, they make the same calls to the host, set the same error and fail alike; if exactly one is, they differ; if both are, one host has heard a beginning of what the other has. |
| ChatPolls.PollsMakeCutsVisible | src/llm.c:1752-1781 | A host that refuses its third question hears of an event that comes in one chunk, and not of the same bytes in two. |
| ChatPolls.AskedAround | src/llm.c:1752-1781 | The host is asked before a chunk, and behind it unless the parser failed, and nothing it hears in between is a poll; the transfer stops exactly on a refusal, an error of the parser or a broken stream. |
| ChatPolls.EveryChunkIsAskedTwice | src/llm.c:1752-1781 | While nothing stopped it, the transfer has asked the host twice for each chunk. |
| ChatTransfer.StreamMeansItsEvents | src/llm.c:1661-1781 | However the bytes arrive, without a memory budget and within the total limit: the handler ends where handling the events of the reading of the whole stream leaves it, with the error code of its failure, exactly when the host refused nothing before an event broke the stream; and then the transfer fails exactly if that reading or that handling does. |
| ChatTransfer.StreamMeansItsStandardEvents | src/llm.c:1661-1781 | For a stream without a clash of lead and tail bytes, the same about the standard's reading. |
| ChatTransfer.ReceivedIsOrderly | src/llm.c:1752-1852 | For every sequence of chunks, all limits, all answers of the host and also when the transport fails afterwards: completions are justified, ordered and never repeated. |
| ChatTransfer.ResultExactly | src/llm.c:1842-1905 | For all chunks and all answers of the host, the transport failing when told to stop: the code returned is success exactly when everything was transferred, the status is below 400 and no event broke the stream; it is a cancellation exactly when the host refused something and no event had broken the stream before. |
| ChatDownload.Download.OnChunk | src/llm.c:1752-1781 | The transport's callback in its own form, over the parser object and the stream context, has exactly the effect of the transfer function and answers whether to go on. |
| ChatResponse.ReadCalls | src/protocol_chat.c:169-213 | The calls of an array in order, or none when an element is no object. |
| ChatResponse.ReadResponse | src/protocol_chat.c:97-231 | The reply of a completion: its first choice, provided every choice and every call in it is well formed. |
| ChatResponse.ReaderFindsReply | src/protocol_chat.c:97-231 | For every text that parses, the flat reader returns what its first top-level value means as a tree. |
| ChatResponse.RawCallsAgree | src/protocol_chat.c:163-213 | The raw `tool_calls` text of a reply and its calls agree: parsing that text again and reading its elements gives exactly those calls, ids, names and arguments in order; without the text there are none. |
| RepeatGuard.Guard.Seen | src/llm.c:1514-1524 | The ring holds exactly the last min(n, 8) admitted hashes; the answer is whether the new one is among them, and only a new one is inserted. |
| RepeatGuard.AnyNineDistinct | src/llm.c:1514-1524 | After any run of questions any nine consecutive admitted hashes are pairwise distinct. |
| TurnHash.HashBytes | src/llm.c:1526-1533 | The loop is FNV-1a over the bytes, modulo 2 to the 64th; that each byte counts is `HashSpread.EveryByteMatters`. |
| TurnHash.HashWidth | src/llm.c:1535-1542 | The shift loop is FNV-1a over the eight little-endian bytes. |
| TurnHash.HashTurn | src/llm.c:1544-1573 | The hash of a turn is FNV-1a over its encoding; none exactly when a null string has a length. Turns one byte apart differ in it (`HashSpread.OneByteSuffices`). |
| TurnHash.EncodingIsInjective | src/llm.c:1544-1573 | Two turns feed the same bytes to the hash exactly when they agree on the ordered names and arguments, the content and the reasoning; ids play no part. |
| TurnHash.RepeatHasSameHash | src/llm.c:1544-1573 | A repeated turn has the hash of the turn it repeats. |
| HashSpread.EveryByteMatters | src/llm.c:1526-1533 | Whatever stands before and behind it, a byte changes the hash exactly if it changes. |
| HashSpread.KnownHash | src/llm.c:1526-1545 | The constants: the hash of the letter a. |
| HashSpread.OneByteSuffices | src/llm.c:1526-1573 | Turns whose encodings are one byte apart have different hashes. |
| HashSpread.ArgumentBytesMatter | src/llm.c:1544-1573 | Changing one byte of the arguments of one call changes the hash of the turn. |
| ToolLoopRun.CopyMessages | src/llm.c:2036-2109 | The initial messages are copied, or refused exactly when some content is contradictory. |
| ToolLoopRun.CheckArgs | src/llm.c:2152-2172 | True exactly when all strings are usable and the argument bytes of the turn stay within the limit, without wrap-around. |
| ToolLoopRun.DispatchCalls | src/llm.c:2247-2309 | Calls are run in order, each followed by its tool message, until one fails or exceeds the output budget; what the messages are is `ToolLoopLog.OutputsArePosted`. |
| ToolLoopRun.Admits | src/llm.c:2141-2190 | A reply with calls is run exactly when it is acceptable; only then its hash is remembered. |
| ToolLoopRun.RunToolLoop | src/llm.c:2021-2319 | The loop returns the result and does the actions of the run function. |
| ToolLoop.DispatchesInOrder | src/llm.c:2247-2309 | Either every call is answered within the budget, or the run ends with the first that is not. |
| ToolLoop.OneTurn | src/llm.c:2125-2309 | A turn either becomes one closed exchange or ends the run for exactly the stated reason. |
| ToolLoop.EveryRun | src/llm.c:2021-2319 | A run is refused before anything happens, or consists of finished turns and one last turn: each finished turn polls, posts the closed conversation so far and runs every call once in order; the last says why the run ended; all limits hold throughout. |
| ToolLoop.EveryPostIsClosed | src/llm.c:2192-2309 | Every request is the initial messages followed, per earlier turn, by one assistant message and one tool message per call in order under its id; there are at most `max_turns` requests. What these messages say is in `ToolLoopLog.RunExactly`. |
| ToolLoop.CopiesAreTheMessages | src/llm.c:2036-2109 | Well-formed initial messages are posted as they were given. |
| ToolLoop.LastRequestIsLast | src/llm.c:2146-2150 | Nothing is done after the last allowed request; its calls are never run. |
| ToolLoop.SuccessIsAnAnswer | src/llm.c:2136-2139 | A run succeeds exactly when the last thing that happened is a reply asking for no tools. |
| ToolLoop.NoTurnRepeats | src/llm.c:2180-2190 | Of any nine finished turns in a row no two are the same. |
| ToolLoop.RunIsFaithful | src/llm.c:2125-2309 | The actions of a run carry the host's and the model's own answers, asked at that point, and nothing else is asked. |
| ToolLoopLog.RunExactly | src/llm.c:2021-2319 | For every environment the run is the only log in which every action is the one that has to come, up to the first that ends it, in terms of the log alone: the next call, a poll, or a request with the initial messages, one assistant message per reply with calls (content then reasoning, and the raw calls) and one tool message per output under the id of its call; the run ends at a refusal, a missing reply, a reply without tools, an unfit or repeated reply, a failed call or too much output, with the result that belongs to it. |
| ToolLoopLog.AcceptableExactly | src/llm.c:2141-2190 | The calls of a reply are run exactly if there are calls and their raw text, another turn may follow, no string is null with a length, the arguments are within the limit, and none of the last eight replies has the same hash. |
| ToolLoopLog.RepeatsWhen | src/llm.c:2180-2190 | A turn like one of the last eight is a repetition; a turn that is one byte apart from each of them is not. |
| ToolLoopLog.CopiesSayTheSame | src/llm.c:2036-2109 | A copied message has the role and the texts of the original; absent texts have length 0. |
| ToolLoopLog.OutputsArePosted | src/llm.c:2192-2309 | Every request behind an answered call carries a tool message with its output and its id, and every request behind a reply with calls an assistant message with what was said, each in its place. |
| PostedOutputs.EveryOutputIsPosted | src/llm.c:2281-2309 | When replies are read from completions and the initial messages splice JSON: every posted body behind an answered call parses, and the object in the place of this call has the role `tool` and a content whose JSON value is the output. |
| ToolIds.EveryCallIsAnsweredByItsId | src/llm.c:2192-2309 | When replies are read from completions, every request of a run is the initial conversation followed by assistant messages, each answered by exactly one tool message per call in the text sent back, in order and under the ids that stand in that text. |
| PostedIds.IdsAgreeExactly | src/json_build.c:391-400 | In any posted messages: a tool message under the raw id of a call has this raw id as the JSON value of its `tool_call_id`, and that is the value of the id in the posted `tool_calls` exactly when the raw id has no backslash. |
| PostedIds.EveryPostedIdAgreesExactly | src/llm.c:2192-2309 | The same for every call with an id in every request of a run, when replies are read from completions and the initial messages splice JSON. |

## Left out

- SseParser.Parser.Feed: `total_bytes_seen` does not wrap around when there is no total limit.
- SseParser.Parser.AppendBuf: the storage behind the four growable buffers is a byte sequence with a capacity; copying on growth is not modelled.
- SseWriter.WriteEvent: payload and type are shorter than SIZE_MAX bytes, as every object is; a null `out_len` is not modelled.
- JstokParser.Parser.Parse: positions and counts are unbounded integers, not `int`; inputs beyond INT_MAX bytes are not modelled.
- Navigation.ObjectGet: the spans of the tokens must lie in the buffer, as they do on parser output.
- Unescape.UnescapeInto: null pointers are not modelled.
- JsonWriter.ToolCallsWrite: `*out_len` is 0 on every failure, while the code leaves it alone when an argument is null.
- ChatChunk.ReadCount: a count beyond the range of a `long long`, which is an overflow in C, is taken at its value.
- StreamContext.Context.OnTool: an accumulator array whose byte size would wrap around counts as a failed allocation.
- StreamContext.GrowBuf.NextCap: capacities do not wrap around.
- StreamContext.Context.OnSseEvent: all callbacks are installed.
- ChatDownload.Download.OnChunk: the handler sees the events of a chunk after the chunk, which is the same since it never stops the parser; the capture of the response body for error details is left out.
- ChatResponse.ReadResponse: the reasons for which there is no reply are not told apart.
- ToolLoop.Run: `strdup` copies are whole strings, that is, contents and ids have no NUL bytes before their length.
- Allocation failures and `free` discipline elsewhere: buffers are owned arrays.
- Transport, TLS, proxy, sockets and the HTTP server: foreign calls and input/output.
- Client construction, headers, error details and the wrapper overloads of `src/llm.c`.
- Number formatting and the other request options of `llm_request_opts_json_write`: library text and one-line members.
- ChatRequest.WriteMessages: the text is a byte sequence; the growing buffer behind it is not modelled.
- ChatRequest.MessagesReadBack: content that is a JSON array followed by more values, which the code lets through, and `tool_calls` texts of the caller that are no single value are spliced as they are; nothing is claimed of such a body.
- The other members of `build_chat_request`: the model name, flags, and unchecked JSON of the caller.
- `jstok_path`, `jstok_sse_next`, `jstok_atob` and `JSTOK_PARENT_LINKS`.
- `src/protocol_completions.c`, `src/protocol_embeddings.c`: the same lookups as the chunk and response parsers.
