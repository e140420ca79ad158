# A verified model of the Ginger telephony and GPS code

This project states and proves what four stateful parts of the repository are for, in Dafny 4.11.
Run `dafny verify dfyconfig.toml`.

**The AT channel** (`fwril-100/atchannel.c`). A reader thread cuts the bytes of a serial port into
lines and routes each line; a command thread writes a command, sleeps, and takes a list of lines.
`AtLines` is the reference for the cutting: split at CR and LF, drop what is empty. `AtFetch` says
on values what one call of `readline` returns for given chunks, and `LineBuffer` is `readline` on the
8193-byte array with its cursor, proved to return exactly that. `AtDelivery` and `AtBytewise` prove
when the calls together return the lines of the stream, `AtPrompt` what a prompt does, and `AtReader`
is `readerLoop` on top. `AtChannel` is the pending command twice: as a value, and as the program's own
linked list, pushed at the head, turned round by the pointer loop, freed node by node. `AtProtocol`
interleaves reader, issuer and closers, one critical section at a time, and proves what holds in every
reachable state. `AtOutcome` proves with which error each command ends, how a handshake tries again and
which PDUs are written. `AtPartition` accounts for the lines of each command, and `AtStream` joins both
halves: what the callers get, read off the bytes.

**The AT tokenizer** (`fwril-100/at_tok.c`). `AtTok` is the cursor that writes NULs into a shared
string. Its invariant is the frame argument callers rely on; beside it are a measure and the
print/parse round trips, of fields behind white space and of numerals.

**The GPS reader** (`gps/freerunner/gps_freerunner.c`). `Calendar` proves the closed form of
`mkgmtime` against a calendar counted day by day. `NmeaTokenizer` proves that the tokenizer splits at
commas. `NmeaReader` is the object fed one character at a time, `NmeaLines` the line specification
it refines over any stream, `NmeaGsv` the satellite list that several sentences fill, `NmeaPrinted`
what the parser makes of printed satellite sentences, `RateMessage`
the checksummed message and its way back through the tokenizer.

**The data connection tracker** (`java/ginger/GsmDataConnectionTracker.java`). `DataTracker` and
`NetStatPoll` say what each handler does and prove the scan and the poll invariants over every order
of events. `TrackerLaws` proves what the events are for: a scan tries all access points, a lost
connection comes back, recovery goes in steps; `TrafficWatch` what a list of readings of the traffic
counters leads to. `GsmDataConnectionTracker` is the object whose methods update the fields that way. The
radio-state latch of `fwril-100/fw100-ril.c` is `RadioLatch`, with any number of threads.

Where a module has both a value (`Channel`, `Tracker`, `Assembler`, `Context`) and a class, each
method of the class equates the new value with a function of the old one, and the theorems are about
runs of those functions.

## What the code does that its comments do not say

- A "> " prompt is returned as soon as it stands alone in the buffer, whatever is still to come
  (`AtPrompt.PromptIffAlone`), and the cursor then stands one byte past the terminator.
  `AtBuffer.AfterPrompt` gives the exact condition under which the array still holds what the stream
  goes on with; `AtPrompt.StaleAfterPrompt` is a case in which it holds earlier text.
- A line that fills the buffer is thrown away, and what is thrown away depends on the chunks.
  `AtFetch` says what for any chunks; `AtBytewise.AllChunksIffLinesFit` says for which streams no
  chunks lose a line.
- Until the command thread wakes, later final lines replace the first and more lines may be added to
  the response. What a caller gets is therefore stated over all lines processed while the response
  was installed.
- A NMEA line of exactly 83 characters makes its own newline the overflow character, so the line
  behind it is lost. `NmeaLines.FittingLinesParsed` says exactly when no line is lost that way.
- An empty fix field of a GSA sentence counts as a fix (`NmeaPrinted.GsaParsed`), since the byte looked at
  is then the comma behind it.
- A scan that fails for a passing reason is not always retried: `DataTracker.NothingScheduled` is
  such a case and `DataTracker.ScanEnds` the exact condition.
- A connect that fails after the reset that should have ended it can find the access point queue
  empty (`DataTracker.LateAnswerThrows`); over runs where answers do not come late, nothing throws.
- `mainLoop` may clear `s_closed` before a close callback returns. `RadioLatch.LatchHoldsIffStillClosed`
  says exactly when the latch holds.

## Model

| member | source | states |
|---|---|---|
| CText.StrStartsWith | fwril-100/misc.c:19-28 | the pointer walk answers whether the prefix is one, the empty prefix included |
| AtLines.LinesAreNonEmptyPieces | fwril-100/atchannel.c:352-370 | the lines scanned from any offset are the non-empty pieces of the text split at CR and LF, without the last, unended one |
| LineBuffer.Port.Read | fwril-100/atchannel.c:381-384 | a read delivers the next bytes of the stream into the room given and nothing else in the array changes |
| LineBuffer.AtBuffer.SkipNewlines | fwril-100/atchannel.c:352-354 | the cursor stops at the first byte that is no newline, which may be the terminating NUL; the unread bytes are the stream from there |
| LineBuffer.AtBuffer.FindNextEol | fwril-100/atchannel.c:308-319 | exactly: the terminator when a prompt is all that is unread, else the first CR or LF, else -1 |
| LineBuffer.AtBuffer.MoveUp | fwril-100/atchannel.c:358-367 | the unread bytes and their NUL move to the front unchanged |
| LineBuffer.AtBuffer.Prepare | fwril-100/atchannel.c:344-370 | the newlines are passed over, and the line end, the prompt or the partial line at the front of the array is what the unread bytes hold |
| LineBuffer.AtBuffer.Ditch | fwril-100/atchannel.c:373-379 | exactly one full buffer without a line end is discarded |
| LineBuffer.AtBuffer.Append | fwril-100/atchannel.c:386-397 | what is read follows the unread bytes, the NUL is behind it, inside the array |
| LineBuffer.AtBuffer.ReadMore | fwril-100/atchannel.c:372-407 | one pass empties a full buffer, reads once behind what is there and leaves array, cursor and port where AtFetch.AfterRead says |
| LineBuffer.AtBuffer.Take | fwril-100/atchannel.c:409-417 | the line handed out is the stream text as a C string, array and cursor go on behind its terminator, and only that byte is written |
| LineBuffer.AtBuffer.AwaitEol | fwril-100/atchannel.c:372-407 | the read loop ends with what FetchLine returns, in the array |
| AtFetch.AwaitStep | fwril-100/atchannel.c:372-407 | one pass of the loop on values: when it ends, and with which line, prompt or end of stream |
| LineBuffer.AtBuffer.ReadLine | fwril-100/atchannel.c:332-418 | for any chunks, empty ones included, the call returns exactly what FetchLine says, the array then holds the unread rest (after a prompt, under the condition of AfterPrompt), and every byte of the array is accounted for when nothing was thrown away |
| AtPrompt.PromptIffAlone | fwril-100/atchannel.c:308-313 | a prompt that stands alone in the buffer is returned at once, a prompt returned stood alone, and an exhausted call has left neither prompt nor line unread |
| AtPrompt.StaleAfterPrompt | fwril-100/atchannel.c:409-417 | after a line of four characters or more and then a prompt the cursor stands on the fourth character of the line, with nothing of the stream unread |
| AtDelivery.FetchDiscards | fwril-100/atchannel.c:372-418 | for any chunks: a call returns the next line of the stream behind what it threw away, which is newlines and whole buffers in which no line ended |
| AtDelivery.FetchFits | fwril-100/atchannel.c:332-418 | a line that fits the buffer with the newlines before it is returned whole, for any chunks |
| AtDelivery.ReceivesLines | fwril-100/atchannel.c:332-418 | over any number of calls and any chunks: the lines received are the lines of the stream, all of them, or those before a read fails; and no call returns a prompt |
| AtBytewise.ByteLoses | fwril-100/atchannel.c:372-379 | read byte by byte, a line that does not fit with the newlines before it is not returned whole |
| AtBytewise.AllChunksIffLinesFit | fwril-100/atchannel.c:372-379 | all chunks deliver all lines of the stream if and only if each line fits the buffer with the newlines before it |
| AtBytewise.AlwaysLost | fwril-100/atchannel.c:372-379 | a line as long as the buffer is lost for every chunking |
| AtReader.Next | fwril-100/atchannel.c:332-418 | each call returns the next line the reader is to receive, and nothing only when there is none |
| AtResults.Listed | fwril-100/atchannel.c:157-223 | the table walk answers whether some entry of the table is a prefix of the line |
| AtResults.TablesDisjoint | fwril-100/atchannel.c:149-223 | no line is both success and error, or final and SMS header, or any of these and a prompt |
| AtReader.GroupPartitions | fwril-100/atchannel.c:438-483 | what is handed on is the input line for line in order, headers paired with the next line, but for one header cut off by the end |
| AtReader.ReaderLoop | fwril-100/atchannel.c:438-483 | for any chunks: the loop hands on the lines received, headers with their second lines |
| AtReader.ReadStream | fwril-100/atchannel.c:438-483 | a reader on a new channel hands on the lines of the whole stream, each once; after a failed read, those before |
| AtChannel.ATResponse.AddIntermediate | fwril-100/atchannel.c:128-141 | the line becomes the head of the linked list, the others stay |
| AtChannel.ATResponse.ReverseIntermediates | fwril-100/atchannel.c:699-712 | the list is relinked in place: the same nodes in opposite order, so the lines in opposite order |
| AtChannel.ReverseTexts | fwril-100/atchannel.c:695-712 | the lines of the reversed nodes are the reversed lines |
| AtChannel.AtResponseFree | fwril-100/atchannel.c:673-693 | a live response and all its nodes are freed, none of them twice, and nothing for NULL |
| AtChannel.AtChannel.ProcessLine | fwril-100/atchannel.c:241-299 | the branch taken and its whole effect on response, PDU, PDUs written and unsolicited lines; the response object stays the same |
| AtChannel.AtChannel.RouteByKind | fwril-100/atchannel.c:259-296 | NUMERIC and SINGLELINE take a first match only, MULTILINE every match, all else is unsolicited |
| AtChannel.AtChannel.Install | fwril-100/atchannel.c:741-744 | type, prefix and PDU are stored with a new empty response |
| AtChannel.AtChannel.HandOut | fwril-100/atchannel.c:769-777 | the caller gets the response object with its lines in the opposite order, and the channel lets go of it |
| AtChannel.AtChannel.ClearPendingCommand | fwril-100/atchannel.c:571-580 | response, prefix and PDU are gone, and a response that was there is freed |
| AtProtocol.PendingAfterLine | fwril-100/atchannel.c:241-299 | the head-first list, reversed, stays the lines due in arrival order; flag and final response stay in agreement |
| AtProtocol.Reachable | fwril-100/atchannel.c:721-789 | the invariant holds in every state of every interleaving, and the issuer never looks at a response that is gone |
| AtProtocol.NoLostWakeup | fwril-100/atchannel.c:227-232 | an issuer asleep unsignalled has no final response and no closed channel, and a final line, the reader's end or at_close makes it runnable and, when it runs, ends the send |
| AtProtocol.RunnableStays | fwril-100/atchannel.c:752-767 | once made runnable, it stays so through any further events until it runs, and then its send ends |
| AtProtocol.NeverPending | fwril-100/atchannel.c:730-733 | every exit leaves response, prefix and PDU empty, so AT_ERROR_COMMAND_PENDING is never returned |
| AtProtocol.EachResponseOnce | fwril-100/atchannel.c:673-789 | each response ever allocated is pending, or freed once, or handed out once, and never two of these |
| AtProtocol.Delivered | fwril-100/atchannel.c:769-784 | a caller receives exactly the lines due, in arrival order, the last final response, and a flag that agrees with it |
| AtProtocol.SelectCounts | fwril-100/atchannel.c:259-291 | the lines due are the matching ones, each as often as it came |
| AtProtocol.DueByKind | fwril-100/atchannel.c:259-291 | MULTILINE: every match; SINGLELINE and NUMERIC: one at most and one if any matched; NO_RESULT: none |
| AtOutcome.SendOutcome | fwril-100/atchannel.c:721-752 | a send from idle, in every reachable state: CHANNEL_CLOSED on a closed channel, GENERIC when the write fails, and else the issuer sleeps with an empty response of its type, prefix and PDU |
| AtOutcome.ResumeOutcome | fwril-100/atchannel.c:752-789 | a woken issuer, in every reachable state: back to sleep without final response or closure; else CHANNEL_CLOSED exactly when the channel is closed, INVALID_RESPONSE exactly when a typed success has no line, success otherwise; with the response exactly when wanted and valid |
| AtOutcome.TimeoutOutcome | fwril-100/atchannel.c:763-766 | a wait that runs out ends with TIMEOUT and without response |
| AtOutcome.TimeoutsAreTimed | fwril-100/atchannel.c:753-766 | over every interleaving, only timed commands end with TIMEOUT |
| AtOutcome.TypedSends | fwril-100/atchannel.c:843-909 | a typed command that a success ends on an open channel returns its one line exactly when one was due, and fails with INVALID_RESPONSE exactly when none was |
| AtOutcome.ShutUntilOpened | fwril-100/atchannel.c:650-666 | after at_close or the end of the reader, whatever happens short of at_open, each send fails with CHANNEL_CLOSED |
| AtOutcome.OpenedAgain | fwril-100/atchannel.c:587-599 | at_open makes the channel usable again |
| AtOutcome.Tries | fwril-100/atchannel.c:949-981 | over every interleaving, a failed try of a handshake is followed by the next one with one try fewer left, until one succeeds or none is left |
| AtOutcome.EachPduOnce | fwril-100/atchannel.c:254-258 | over every interleaving, the PDUs written are those of the commands that have one and saw a prompt: once each, in order, and nothing else |
| AtPartition.AsideIff | fwril-100/atchannel.c:241-299 | a line goes to the unsolicited handler exactly when it is no final response, no awaited prompt and not due |
| AtPartition.EveryLineUsedOnce | fwril-100/atchannel.c:234-299 | over every interleaving, the lines of a completed command are its due lines, finals, prompt and unsolicited lines, counted once each |
| AtStream.EveryLineAccounted | fwril-100/atchannel.c:241-299 | over every interleaving, the lines processed are those used by completed commands, by the pending one, and the unsolicited ones, each counted once |
| AtStream.EachSawItsBlock | fwril-100/atchannel.c:721-789 | each send saw one unbroken stretch of the lines processed, and later sends saw later stretches |
| AtStream.StreamDelivered | fwril-100/atchannel.c:438-483 | end to end: the lines given to send number i are those due to it in one stretch of the single lines of the stream |
| AtStream.BytesAccounted | fwril-100/atchannel.c:438-483 | end to end: every line of the bytes, in any chunks, ends in a two-line message, cut off, with a command, or with the unsolicited handler, and in one of them only |
| Numerals.DigitsDenote | gps/freerunner/gps_freerunner.c:1450-1454 | the digits %d and %x print denote the number, in base 10 and 16 |
| Numerals.DigitsLength | gps/freerunner/gps_freerunner.c:1444-1454 | a number prints in at most k digits exactly when it is below the k-th power of the base |
| AtTok.Cursor.AtTokStart | fwril-100/at_tok.c:28-46 | the cursor goes past the first colon, or becomes NULL and the call fails; tokens stay |
| AtTok.Cursor.SkipWhiteSpace | fwril-100/at_tok.c:48-55 | the cursor stops at the first byte that is no space |
| AtTok.Cursor.SkipNextComma | fwril-100/at_tok.c:57-68 | the cursor goes past the next comma, or to the end |
| AtTok.Cursor.Strsep | fwril-100/at_tok.c:78-84 | the token runs to the first delimiter; only that byte is overwritten; without one the cursor becomes NULL |
| AtTok.Cursor.NextTok | fwril-100/at_tok.c:70-87 | quoted or plain token, and where the cursor goes; all earlier tokens, and the text from the cursor on, read as before |
| AtTok.Cursor.TokenReads | fwril-100/at_tok.c:70-87 | a token handed out by any earlier call is still the same NUL-terminated string |
| AtTok.Cursor.NextIntBase | fwril-100/at_tok.c:97-126 | the token's number as a 32-bit int, success exactly when it begins with a number, 0 stored when it does not |
| AtTok.Cursor.NextInt | fwril-100/at_tok.c:134-137 | the same for signed decimal |
| AtTok.Cursor.NextHexInt | fwril-100/at_tok.c:145-148 | the same for unsigned hexadecimal |
| AtTok.Cursor.NextBool | fwril-100/at_tok.c:150-171 | success exactly for 0 and 1; a token is taken either way |
| AtTok.Cursor.NextStr | fwril-100/at_tok.c:173-182 | success exactly on a cursor that is not NULL, and then always with a token |
| AtTok.Cursor.HasMore | fwril-100/at_tok.c:185-188 | whether unread text is left |
| AtTok.TakeShrinks | fwril-100/at_tok.c:70-87 | every call on a cursor that is not NULL makes the measure smaller |
| AtTok.TokenLoop | fwril-100/at_tok.c:70-87 | a loop takes at most remaining length + 1 tokens; they and their NULs are disjoint, inside the string and in order |
| AtTok.FieldRoundTrip | fwril-100/at_tok.c:70-87 | one printed field, behind any white space, quoted (with anything up to the comma behind the quote) or plain, is read back, and the cursor is behind its comma |
| AtTok.UnclosedQuote | fwril-100/at_tok.c:78-81 | behind a quote that is never closed, all the rest is the token and the cursor is NULL |
| AtTok.LineRoundTrip | fwril-100/at_tok.c:28-188 | any line printed from a colon-free prefix and fields, each behind any white space, reads back as those fields, and then at_tok_hasmore is 0 |
| AtTok.NoColon | fwril-100/at_tok.c:37-41 | without a colon at_tok_start leaves a NULL cursor |
| AtTok.NumeralReads | fwril-100/at_tok.c:113-118 | a numeral behind white space, a sign and 0x is read, whatever follows it |
| AtTok.NoNumeralReads | fwril-100/at_tok.c:120-122 | without a digit behind white space and sign the call fails |
| AtTok.SignedSaturates | fwril-100/at_tok.c:116-118 | what does not fit a signed long becomes its least or greatest value |
| AtTok.UnsignedWraps | fwril-100/at_tok.c:113-118 | an unsigned number is taken modulo 2^32, and is -1 when it is too large |
| AtTok.DecimalRoundTrip | fwril-100/at_tok.c:134-137 | every number printed with %d is a plain field and is read back, but for saturation beyond 32 bits |
| AtTok.HexRoundTrip | fwril-100/at_tok.c:145-148 | every number printed with %x or %X is a plain field; 32 bits are read back as the int with the same bits, more as -1 |
| Calendar.DayByDay | gps/freerunner/gps_freerunner.c:250-260 | the day n steps after the Epoch has number n, counting years and months |
| Calendar.EveryDateCounted | gps/freerunner/gps_freerunner.c:250-260 | every date from 1970 on is reached by stepping day by day as often as its number says |
| Calendar.DaysBeforeYearIs | gps/freerunner/gps_freerunner.c:280-285 | the quotients by 4, 100 and 400 count the leap days of all years before |
| Calendar.ClosedForm | gps/freerunner/gps_freerunner.c:280-285 | table and quotients give the days before any month of any year from 1970 on |
| Calendar.MonthCarry | gps/freerunner/gps_freerunner.c:274-279 | truncating division and the correction for a negative rest carry months into years as floor division does |
| Calendar.Mkgmtime | gps/freerunner/gps_freerunner.c:266-295 | the table is indexed inside 0..11 for any input; the result is the seconds since the Epoch for any month, also negative; and what result holds after each assignment |
| Calendar.StrictlyMonotone | gps/freerunner/gps_freerunner.c:266-295 | later valid times have larger results |
| Calendar.IntermediatesFit | gps/freerunner/gps_freerunner.c:280-294 | for a valid time, whatever result holds on the way is not negative and not above what is returned, but for the 1 it can be on the first day of all |
| Calendar.FitsInt31 | gps/freerunner/gps_freerunner.c:266-295 | a 32-bit time_t holds exactly the times up to 2038-01-19 03:14:07 |
| NmeaTokenizer.SplitJoin | gps/freerunner/gps_freerunner.c:164-181 | splitting at commas undoes joining with commas |
| NmeaTokenizer.SplitIsSplitChars | gps/freerunner/gps_freerunner.c:164-181 | cutting by offsets is the character-wise split |
| NmeaTokenizer.FieldsOfBody | gps/freerunner/gps_freerunner.c:148-162 | optional dollar, checksum and line ending are stripped and the body is split |
| NmeaTokenizer.TokensReadFields | gps/freerunner/gps_freerunner.c:164-181 | each token reads as the field of its number and lies inside the input; what has no token is an empty field |
| NmeaTokenizer.Tokenizer.Cut | gps/freerunner/gps_freerunner.c:164-184 | the loop stores the first 32 tokens and the count |
| NmeaTokenizer.Tokenizer.Init | gps/freerunner/gps_freerunner.c:142-185 | the tokens stored are those of the stripped sentence |
| NmeaTokenizer.Tokenizer.GetReads | gps/freerunner/gps_freerunner.c:187-199 | below 32, what is got reads as that field of the sentence, or is empty when there is none; the range lies inside the input |
| NmeaReader.Str2Int | gps/freerunner/gps_freerunner.c:202-229 | the number a non-empty digit string denotes, and -1 for anything else |
| NmeaReader.DecodeDigits | gps/freerunner/gps_freerunner.c:202-229 | printed numbers are read back |
| NmeaReader.DecodeFails | gps/freerunner/gps_freerunner.c:208-228 | nothing, and anything with a character that is no digit, gives -1 |
| NmeaReader.Reader.ParseGsv | gps/freerunner/gps_freerunner.c:661-710 | the whole effect of a GSV sentence on satellites and flag |
| NmeaReader.Reader.FillBlock | gps/freerunner/gps_freerunner.c:681-702 | up to four satellites, and no more than announced, are appended in order |
| NmeaReader.Reader.ParseGsa | gps/freerunner/gps_freerunner.c:633-660 | the satellites used are the positive numbers of fields 3 to 14; nothing changes without a fix |
| NmeaReader.Reader.Parse | gps/freerunner/gps_freerunner.c:548-711 | the sentence in the buffer is parsed once, dispatched by its three letters, ignored when too short |
| NmeaReader.Reader.Addc | gps/freerunner/gps_freerunner.c:825-848 | one character's effect on buffer, overflow, sentences parsed and satellite status; every write is inside the array |
| NmeaLines.Skipping | gps/freerunner/gps_freerunner.c:828-831 | in overflow everything up to and with the next newline is passed over |
| NmeaLines.StreamRefines | gps/freerunner/gps_freerunner.c:825-848 | over any bytes, what is parsed is what the line specification gives |
| NmeaLines.Bounds | gps/freerunner/gps_freerunner.c:825-848 | at most 83 characters are held, none in overflow, never a newline |
| NmeaLines.LinesKept | gps/freerunner/gps_freerunner.c:825-848 | line by line: which are parsed, from the start of a line or from inside a swallowed one |
| NmeaLines.FittingLinesParsed | gps/freerunner/gps_freerunner.c:828-847 | all lines of at most 82 characters are parsed once and in order exactly when none comes right behind a read line of exactly 83 |
| NmeaLines.SwallowedLine | gps/freerunner/gps_freerunner.c:833-837 | after any line of 83 characters an empty line is lost |
| NmeaGsv.MessageAssembled | gps/freerunner/gps_freerunner.c:661-710 | after sentences 1 to ceil(T/4) in order, others in between, exactly the T satellites are listed, block after block, and the flag is set |
| NmeaPrinted.GsvParsed | gps/freerunner/gps_freerunner.c:661-710 | a sentence printed from satellites appends them, number, elevation, azimuth and signal each in its place, four at most and no more than announced; and sets or clears the flag |
| NmeaPrinted.GsvOfNone | gps/freerunner/gps_freerunner.c:663-666 | a sentence that announces no satellite changes nothing |
| NmeaPrinted.PrintedMessage | gps/freerunner/gps_freerunner.c:661-710 | a whole message printed for any satellites, other sentences in between, leaves exactly those satellites and sets the flag |
| NmeaPrinted.GsaParsed | gps/freerunner/gps_freerunner.c:633-660 | a sentence printed with twelve channels leaves exactly the positive numbers printed, and sets the flag if there are any, unless its fix field begins with 1; an empty fix field counts as a fix |
| NmeaGsv.Capacity | gps/freerunner/gps_freerunner.c:685-702 | a list as long as the largest total announced is never overrun |
| NmeaGsv.FeedBuffer | gps/freerunner/gps_freerunner.c:1068-1079 | feeding a buffer takes assembler and satellite status through all of its sentences in order |
| RateMessage.HexByteDenotes | gps/freerunner/gps_freerunner.c:1454-1454 | the two hexadecimal digits denote the byte |
| RateMessage.CalcNmeaCsum | gps/freerunner/gps_freerunner.c:1432-1442 | the exclusive or of all bytes between the first one and the '*' |
| RateMessage.SetNmeaMessageRate | gps/freerunner/gps_freerunner.c:1444-1462 | the message sent, which with its terminator fits the 50 bytes |
| RateMessage.MessageFits | gps/freerunner/gps_freerunner.c:1444-1454 | the message and its terminator fit the 50 bytes exactly for rates above -10^8 and below 10^9 |
| RateMessage.MessageReadsBack | gps/freerunner/gps_freerunner.c:1444-1462 | the hex digits are the checksum of what stands between '$' and '*', and the tokenizer gives back PUBX,40,id,rate,rate,rate,0 |
| NetStatPoll.RanKeeps | java/ginger/GsmDataConnectionTracker.java:999-1104 | one run of the poll reposts itself or starts the only ping test, and keeps the count within the limit |
| NetStatPoll.StartedKeeps | java/ginger/GsmDataConnectionTracker.java:968-975 | starting never queues a second post, and does nothing during a ping test |
| TrafficWatch.SentIsUnanswered | java/ginger/GsmDataConnectionTracker.java:1004-1044 | over any list of readings: the packets counted are those sent since the last reading that received something or sent during a call, or since the first |
| TrafficWatch.SentIsDifference | java/ginger/GsmDataConnectionTracker.java:1014-1016 | once the counters are positive, what was sent since a reading is the difference of the transmit counters |
| TrafficWatch.ResetCountKept | java/ginger/GsmDataConnectionTracker.java:1019-1034 | over any list of readings: the recovery count is cleared exactly when something was received |
| TrafficWatch.PingWhenHung | java/ginger/GsmDataConnectionTracker.java:1052-1088 | a ping test starts at a reading exactly when it is the one after limit readings in a row that had reached the trigger, and reaches it too |
| TrafficWatch.PollingGoesOn | java/ginger/GsmDataConnectionTracker.java:1052-1104 | the poll stays on over a list of readings exactly when the trigger was never reached more than limit times in a row |
| TrafficWatch.StartIsFirstReading | java/ginger/GsmDataConnectionTracker.java:968-975 | starting the poll is a first reading with fresh statistics |
| DataTracker.PermanentBound | java/ginger/GsmDataConnectionTracker.java:1323-1340 | the countdown reaches zero exactly when all failures were permanent |
| DataTracker.ScanReachable | java/ginger/GsmDataConnectionTracker.java:1287-1348 | over every order of events nothing throws; countdown >= waiting; a scan or unanswered connect has something waiting; INITING means the first of the queue is active |
| DataTracker.OneFailure | java/ginger/GsmDataConnectionTracker.java:1310-1348 | from any state with the scan invariant: a failed connect takes one access point off and ends in SCANNING or FAILED; alarm, registration and giving up the APN type each happen exactly under their condition |
| DataTracker.ScanEnds | java/ginger/GsmDataConnectionTracker.java:1323-1348 | over every order of events: an alarm is set or a registration requested exactly when the failure emptied the queue, some failure of the scan was not permanent, and a retry is needed or the APN type is the default one |
| DataTracker.NothingScheduled | java/ginger/GsmDataConnectionTracker.java:1163-1170 | a scan that failed for a passing reason and schedules nothing: another APN type whose retries are used up |
| DataTracker.PollReachable | java/ginger/GsmDataConnectionTracker.java:941-1135 | over every order of events: one queued post exactly while polling is enabled, none during a ping test, one ping test or unhandled result at most, the count within the limit |
| DataTracker.AnswerHandled | java/ginger/GsmDataConnectionTracker.java:1323-1325 | an answer is handled without an exception exactly when it is a success or something waits |
| DataTracker.LateAnswerThrows | java/ginger/GsmDataConnectionTracker.java:1323-1325 | a run after which a late failure would find the queue empty |
| TrackerLaws.ScanGoesOn | java/ginger/GsmDataConnectionTracker.java:437-498 | from SCANNING an attempt connects the first of the unchanged queue when data is allowed and the connection free, and else changes nothing |
| TrackerLaws.ScanBegins | java/ginger/GsmDataConnectionTracker.java:437-498 | from IDLE an allowed attempt builds the queue anew and connects its first access point, or fails if there is none |
| TrackerLaws.ScanTriesAll | java/ginger/GsmDataConnectionTracker.java:1287-1348 | over runs: a scan whose connects all fail tries each access point of the list once, in order, and has then failed |
| TrackerLaws.ConnectSucceeds | java/ginger/GsmDataConnectionTracker.java:913-920 | a connect that succeeds ends in CONNECTED, polling with fresh statistics, and allows another registration |
| TrackerLaws.TakenDown | java/ginger/GsmDataConnectionTracker.java:509-540 | which events disconnect, which reset to IDLE, with poll and reconnect alarm stopped, and which change nothing |
| TrackerLaws.ComesBack | java/ginger/GsmDataConnectionTracker.java:1353-1365 | the end of the last disconnect starts a new scan, unless the radio was turned off |
| TrackerLaws.AttachedComesBack | java/ginger/GsmDataConnectionTracker.java:424-435 | service that comes back ends the failed state with a new scan |
| TrackerLaws.UnrestrictedComesBack | java/ginger/GsmDataConnectionTracker.java:1713-1731 | the end of restrictions does too, and allows another registration |
| TrackerLaws.FailedStays | java/ginger/GsmDataConnectionTracker.java:1395-1411 | a mere attempt, or the end of a call, leaves the failed state as it is |
| TrackerLaws.OtherAttempts | java/ginger/GsmDataConnectionTracker.java:424-435 | from IDLE and SCANNING the same events are attempts like any other |
| TrackerLaws.PollStops | java/ginger/GsmDataConnectionTracker.java:977-981 | what stops the poll, and that the screen does not start it without a connection |
| TrackerLaws.PollStarts | java/ginger/GsmDataConnectionTracker.java:968-975 | what starts the poll while connected: its first reading with fresh statistics, unless a ping test is under way |
| TrackerLaws.PollRuns | java/ginger/GsmDataConnectionTracker.java:1395-1411 | a running poll is left alone by the same events, but for the screen and a concurrent call |
| TrackerLaws.HangIsFound | java/ginger/GsmDataConnectionTracker.java:999-1104 | from the moment of connecting, over any readings posted: the ping test starts exactly when the trigger has been reached more than limit times in a row |
| TrackerLaws.PingHandled | java/ginger/GsmDataConnectionTracker.java:1106-1135 | the result of a ping test clears the recovery count if the peer answered, and polls again if still connected |
| TrackerLaws.NothingToRecover | java/ginger/GsmDataConnectionTracker.java:949-966 | without a connection there is nothing to recover |
| TrackerLaws.Ladder | java/ginger/GsmDataConnectionTracker.java:949-966 | of n failed ping tests each (max + 1)-th registers anew and stays connected, each other one disconnects |
| GsmDataConnectionTracker.GsmDataConnectionTracker.SetState | java/ginger/GsmDataConnectionTracker.java:314-325 | the state is set, and FAILED empties the queue |
| GsmDataConnectionTracker.GsmDataConnectionTracker.CleanUpConnection | java/ginger/GsmDataConnectionTracker.java:509-540 | disconnect or reset, polling stopped, reconnect forgotten, IDLE unless a disconnect is under way |
| GsmDataConnectionTracker.GsmDataConnectionTracker.SetupData | java/ginger/GsmDataConnectionTracker.java:744-766 | the first of the queue becomes active and its connect goes out, when a connection is free |
| GsmDataConnectionTracker.GsmDataConnectionTracker.TrySetupData | java/ginger/GsmDataConnectionTracker.java:437-498 | from IDLE a new queue is built, from SCANNING the old one is used; an empty one fails |
| GsmDataConnectionTracker.GsmDataConnectionTracker.ReconnectAfterFail | java/ginger/GsmDataConnectionTracker.java:1162-1207 | an alarm and the reconnect intent, or one registration for the default type, or giving up another type |
| GsmDataConnectionTracker.GsmDataConnectionTracker.OnDataSetupComplete | java/ginger/GsmDataConnectionTracker.java:1287-1348 | the whole effect of an answer, and when it throws |
| GsmDataConnectionTracker.GsmDataConnectionTracker.RemoveFailed | java/ginger/GsmDataConnectionTracker.java:1323-1325 | the failed access point leaves the queue and is counted; it throws exactly when nothing waits |
| GsmDataConnectionTracker.GsmDataConnectionTracker.OnDisconnectDone | java/ginger/GsmDataConnectionTracker.java:1353-1365 | IDLE without active access point, and a new attempt unless the radio was turned off |
| GsmDataConnectionTracker.GsmDataConnectionTracker.OnResetDone | java/ginger/GsmDataConnectionTracker.java:1371-1378 | IDLE without active access point |
| GsmDataConnectionTracker.GsmDataConnectionTracker.RunPollNetStat | java/ginger/GsmDataConnectionTracker.java:999-1104 | one run of the poll: counters, ping test or not, repost |
| GsmDataConnectionTracker.GsmDataConnectionTracker.StartNetStatPoll | java/ginger/GsmDataConnectionTracker.java:968-975 | starts only when connected, not yet enabled and without ping test |
| GsmDataConnectionTracker.GsmDataConnectionTracker.StopNetStatPoll | java/ginger/GsmDataConnectionTracker.java:977-981 | disabled and no post left in the queue |
| GsmDataConnectionTracker.GsmDataConnectionTracker.DoRecovery | java/ginger/GsmDataConnectionTracker.java:949-966 | the ladder: a reset below the maximum, else reregistration and count zero |
| GsmDataConnectionTracker.GsmDataConnectionTracker.OnGprsAttached | java/ginger/GsmDataConnectionTracker.java:424-435 | poll when connected, else clean up a failure and try |
| GsmDataConnectionTracker.GsmDataConnectionTracker.OnPsRestrictDisabled | java/ginger/GsmDataConnectionTracker.java:1713-1731 | the same, with the reregistration flag cleared after a failure |
| GsmDataConnectionTracker.GsmDataConnectionTracker.OnVoiceCallEnded | java/ginger/GsmDataConnectionTracker.java:1395-1411 | poll or fresh statistics when connected, else a new attempt |
| GsmDataConnectionTracker.GsmDataConnectionTracker.OnScreenChanged | java/ginger/GsmDataConnectionTracker.java:171-178 | the poll is stopped and started again, never doubled |
| GsmDataConnectionTracker.GsmDataConnectionTracker.PingTestEnds | java/ginger/GsmDataConnectionTracker.java:1106-1135 | the ping thread becomes one result message, and clears the reset count if the peer answered |
| GsmDataConnectionTracker.GsmDataConnectionTracker.HandleMessage | java/ginger/GsmDataConnectionTracker.java:1645-1741 | every event, run on the object, does what the event machine says, and throws exactly when it does |
| GsmDataConnectionTracker.GsmDataConnectionTracker.Serve | java/ginger/GsmDataConnectionTracker.java:1645-1741 | after any run, one more event that can happen leaves the object where the longer run leads, without an exception |
| GsmDataConnectionTracker.ServeAll | java/ginger/GsmDataConnectionTracker.java:1645-1741 | a new tracker that serves any events in any order: nothing throws, and the scan and the poll invariants hold of the object |
| RadioLatch.Reachable | fwril-100/fw100-ril.c:1063-1087 | in every interleaving of any number of threads the mutex has one holder, and a close callback leaves UNAVAILABLE |
| RadioLatch.ClosedLatch | fwril-100/fw100-ril.c:1488-1508 | from the return of a close callback until s_closed is cleared, sState is UNAVAILABLE and nobody sleeps in waitForClose unsignalled, although s_closed is set outside the mutex |
| RadioLatch.LatchHoldsIffStillClosed | fwril-100/fw100-ril.c:1072-1085 | the state stays UNAVAILABLE for every continuation exactly when s_closed is still set as the callback returns |
| RadioLatch.ClearedTooEarly | fwril-100/fw100-ril.c:1716-1716 | a run in which s_closed is cleared before the callback returns |
| RadioLatch.WaiterReturns | fwril-100/fw100-ril.c:1391-1400 | a signalled thread leaves waitForClose exactly when s_closed is set, and else sleeps again |
| RadioLatch.SectionAlone | fwril-100/fw100-ril.c:1063-1087 | an uninterrupted call sets the state asked for, or UNAVAILABLE when closed, and broadcasts on a change and always when closed |
| RadioLatch.Fw100Ctx.SetRadioState | fwril-100/fw100-ril.c:1063-1087 | the call performs the steps of the thread machine in their order |
| RadioLatch.Fw100Ctx.OnATReaderClosed | fwril-100/fw100-ril.c:1488-1508 | after an uninterrupted callback the channel is closed and the state UNAVAILABLE |

## Left out

- NUL bytes in the AT stream: a NUL ends the buffer for the program, so what it loses depends on the chunks; all statements are about streams without NUL.
- The calls after a bare prompt: `ReadLine` says what the array is right after one; whole-stream statements are about streams in which no line begins with "> ".
- AtBytewise.AllChunksIffLinesFit: assumes that runs of newlines are shorter than the buffer, because which lines survive behind 8 KB of newlines depends on where the buffer stood; `AtDelivery.ReceivesLines` and `AtBytewise.AlwaysLost` do not assume it.
- EINTR, the power-saving acknowledgement and partial writes of `writeline` and `writeCtrlZ`: a write succeeds or fails as a whole.
- More than one thread issuing AT commands, and `at_open` while a command is outstanding: the protocol assumes one issuer.
- A reader without an `at_set_on_reader_closed` callback: it then closes nothing and wakes nobody.
- A NULL response prefix for a SINGLELINE or MULTILINE command, which the program would dereference, reads as one that matches nothing.
- The texts of replaced final responses, which the program leaks; `at_get_cme_error`; time itself: a timed wait may run out whenever it sleeps.
- `strtol` and `strtoul` are modelled as the C standard (section 7.20.1.4 of C99) describes them, in bases 10 and 16, with 32-bit long.
- Calendar.Mkgmtime: says nothing of the result when month or year do not fit the program's shorts or the date lies before 1970.
- NmeaReader.Str2Int: does not model the overflow of int for numbers above 32 bits.
- NmeaReader.Reader.ParseGsa: keeps the satellites used in a fix as a set of numbers, not as the bit mask, whose shift is undefined for numbers above 32.
- NmeaReader.Reader.Parse: models GSV and GSA sentences; the others, which leave the satellite status alone, and the fix itself are left out.
- The satellite list is as long as needed: its length, GPS_MAX_SVS, is declared in a header that is not part of this repository. `NmeaGsv.Capacity` bounds what is used.
- Position, speed, bearing, accuracy, altitude and dates of a fix: the floats of a satellite are kept as the text they are read from.
- The baud-rate message and the other device commands, the GPS threads, their timers and callbacks.
- GsmDataConnectionTracker.GsmDataConnectionTracker.ReconnectAfterFail: counts the request to disable a secondary APN type, whose effect is in the superclass, and takes the retry manager's answer as a parameter; its timers and counters are left out.
- The tracker's superclass, RetryManager, alarms, intents and the simulator branches: what they answer is a parameter of the event. A connect request fails at once while a connect or disconnect of the one connection is outstanding; the end of a disconnect or reset also ends a connect before it.
- `onEnableNewApn`, several APN types, the data activity display and the poll period.
- The state of the tracker after a handler has thrown.
- What `setRadioState` does after it has released the mutex (notifications, and reading sState again there), and `at_close` in the close callbacks.
- The RIL request handlers, which wrap AT commands, and all device and system calls.
