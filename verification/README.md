# iperf 3.19: JSON, timers, control protocol and accounting

A Dafny model of the parts of iperf 3.19 that carry its promises, with proofs. It covers

* the vendored cJSON library on a heap of linked nodes: parser, printer, list surgery, duplication,
  comparison and in-place minification (`Json*.dfy`, `Utf.dfy`, `Bytes.dfy`);
* the timer list and its clock arithmetic (`Timers.dfy`, `IperfTime.dfy`);
* the control connection between client and server (`Protocol*.dfy`), the frames on it
  (`JsonWire.dfy`), and what crosses it: streams, results and parameters (`Streams.dfy`,
  `Results.dfy`, `Parameters.dfy`);
* measurement: UDP sequence numbers, interval reports, the rate limit and pacing (`Udp.dfy`,
  `Intervals.dfy`, `Pacing.dfy`).

`dafny verify dfyconfig.toml` checks everything.

## How it is put together

`JsonText.Text` is the printer as a pure function and `JsonRead.Parse` the parser as one. The heap
code is proved against them: `JsonPrinter.Print` writes exactly `Text`, `JsonParser.Parse` builds
exactly what `JsonRead.Parse` describes, on trees that `JsonTree.Reps` ties to abstract values. That
reading undoes printing is then a theorem about the two functions (`JsonRoundTrip`). Both are held
against the grammar of RFC 8259, which `JsonGrammar` states on its own: the parser reads every text of
it as what it means, and what the printer writes is such a text (`JsonOutput`); cJSON_Minify is held
against a description by tokens (`JsonTokens`). Numbers go through the C library as two tables, `Libc`;
that integers up to 2^53 survive is derived from what the C standard promises of strtod on decimal texts.

The timers are a doubly linked list and a free list changed in place. `Timers.TimerList.Run` is
tmr_run with its saved next pointer; what a sweep does is stated by `Timers.Swept` and proved step by
step in `SweepStep`, and its termination by the time owed to due timers. A callback that restarts other
timers splits a sweep in two, each followed by the same account (`Timers.Sweep`); what the first half
comes to is foretold from the list at its start (`Timers.Ahead`).

The control protocol is one transition system: server, client, two byte channels, the queue at the
listener, the UDP handshake, what the kernels grant for socket buffers, and an environment that may
connect to the server at any time and, where the traffic exceeds its limit, make it notice. Reads are
of single bytes, lengths and bodies, dispatched on the bytes actually read; that they always find the
right ones is the invariant.

## Where the code does not keep its promise

* A foreign connection that arrives while TCP streams are being created is closed for its wrong
  cookie, and its descriptor is then passed on to have the type of service set. With a type of service
  that fails and ends the test (`ProtocolLiveness.StrangerEndsTest`).
* Results of 2^31 bytes or more are written and then taken for an error, by the writer and by the
  reader (`ProtocolLiveness.LongResultsFail`). These two, parameters over 8 KiB, buffers smaller than
  asked for, a processor to be bound to and a rate limit that is exceeded are all that ends a test in
  the runs `ProtocolLiveness.SoundExactly` is about; what is outside them is under "Left out".
* cJSON_Minify takes the escaped backslash in front of a closing quote for an escaped quote. Minifying
  formatted text gives the unformatted text exactly when only closing brackets follow such a string
  (`JsonMinify.MinifyUndoesFormatting`).
* An object with a repeated key compares equal to its own copy only if the members of that name are
  equal (`JsonEquality.ComparesToItself`, `JsonEquality.RepeatedKeyDiffersFromItself`).
* The sweep goes on from the timer that was next before the omit timer's callback restarted it. A due
  timer behind that one waits for the next sweep (`Timers.OmitDecides`, `Timers.TestTimerBehindStats`).
* The first intervals after the omit period count packets of the omit period that it did not report
  (`Intervals.StreamStats.PacketsSinceOmit`, `Intervals.LateInOmit`).
* The pacing timer, the flow label, the wish for server output and the repeating payload of an
  earlier test stay on the server when the next client says nothing of them (`Parameters.NextTest`).
* Duplicated UDP packets hide losses (`Udp.DuplicateHidesLoss`); when exactly is
  `Udp.LossesExactlyWhen`, and between which bounds `Udp.LossesBounded`.

## Model

| member | source | states |
|---|---|---|
| `JsonNode.AddItem` | Code/Iperf3NetworkTester/app/src/main/cpp/iperf/iperf-3.19/cjson.c:1716-1741 | appends the item to the child sequence, by way of the first child's `prev`; fails exactly for a missing or self-containing parent |
| `JsonNode.GetArrayItem` | Code/Iperf3NetworkTester/app/src/main/cpp/iperf/iperf-3.19/cjson.c:1625-1647 | the child at an index, null outside the list |
| `JsonNode.DetachItem` | Code/Iperf3NetworkTester/app/src/main/cpp/iperf/iperf-3.19/cjson.c:1917-1944 | removes the child at its position; the links of the rest mirror again and the item is alone |
| `JsonNode.DetachItemFromArray` | Code/Iperf3NetworkTester/app/src/main/cpp/iperf/iperf-3.19/cjson.c:1946-1952 | the same by index, null and no change outside the list |
| `JsonNode.InsertItem` | Code/Iperf3NetworkTester/app/src/main/cpp/iperf/iperf-3.19/cjson.c:1979-2000 | inserts in front of the child at an index, or at the end; all links mirror again; fails exactly for a negative index or where appending would |
| `JsonNode.ReplaceItem` | Code/Iperf3NetworkTester/app/src/main/cpp/iperf/iperf-3.19/cjson.c:2003-2040 | puts the replacement in the item's place, for first, middle, last and only children |
| `Utf.ParseHex4` | Code/Iperf3NetworkTester/app/src/main/cpp/iperf/iperf-3.19/cjson.c:545-569 | four hex digits as a number, 0 when one of them is none |
| `Utf.LiteralToUtf8` | Code/Iperf3NetworkTester/app/src/main/cpp/iperf/iperf-3.19/cjson.c:573-671 | writes in place the UTF-8 bytes of the code point read by `ReadLiteral`, and how many input bytes were used |
| `Utf.Utf8RoundTrip` | Code/Iperf3NetworkTester/app/src/main/cpp/iperf/iperf-3.19/cjson.c:629-665 | the bytes written decode, by RFC 3629 section 3, to the scalar value they stand for |
| `Utf.Utf8Injective` | Code/Iperf3NetworkTester/app/src/main/cpp/iperf/iperf-3.19/cjson.c:629-665 | distinct scalar values give distinct bytes |
| `Utf.LiteralDecodesScalar` | Code/Iperf3NetworkTester/app/src/main/cpp/iperf/iperf-3.19/cjson.c:573-627 | every scalar value, spelled as one literal or as a surrogate pair (RFC 2781 section 2.2), is read back |
| `Utf.SurrogatesMustPair` | Code/Iperf3NetworkTester/app/src/main/cpp/iperf/iperf-3.19/cjson.c:592-619 | a high surrogate without a low one behind it, and a low one alone, are rejected |
| `JsonString.ScanString` | Code/Iperf3NetworkTester/app/src/main/cpp/iperf/iperf-3.19/cjson.c:685-705 | the sizing pass finds the closing quote `ScanEnd` defines and counts the skipped bytes |
| `JsonString.StepFits` | Code/Iperf3NetworkTester/app/src/main/cpp/iperf/iperf-3.19/cjson.c:715-765 | a step of the decoder, in or out of step with the sizing pass, writes no more than it gives up in room |
| `JsonString.LiteralFits` | Code/Iperf3NetworkTester/app/src/main/cpp/iperf/iperf-3.19/cjson.c:751-758 | the same for `\u` literals, with good or bad digits |
| `JsonString.DecodeString` | Code/Iperf3NetworkTester/app/src/main/cpp/iperf/iperf-3.19/cjson.c:706-768 | for every input all stores are in bounds, and the decoded text with its NUL fits the allocation; the result is `Decode`'s |
| `JsonString.QuotedReadsBack` | Code/Iperf3NetworkTester/app/src/main/cpp/iperf/iperf-3.19/cjson.c:674-788 | parsing the printer's quoted form of a NUL-free string gives that string, ending behind the quote |
| `JsonParser.ParseBuffer.SkipWhitespace` | Code/Iperf3NetworkTester/app/src/main/cpp/iperf/iperf-3.19/cjson.c:918-936 | the cursor goes to the next visible byte, one step back at the end of the buffer |
| `JsonParser.ParseString` | Code/Iperf3NetworkTester/app/src/main/cpp/iperf/iperf-3.19/cjson.c:674-788 | the node gets the string `ReadString` defines and the cursor goes behind it, or the parse fails as it does |
| `JsonParser.ParseNumber` | Code/Iperf3NetworkTester/app/src/main/cpp/iperf/iperf-3.19/cjson.c:287-351 | the number strtod reads of the copied bytes, with its integer; which bytes are copied is `JsonGrammar.NumberCopied` |
| `JsonParser.ParseValue` | Code/Iperf3NetworkTester/app/src/main/cpp/iperf/iperf-3.19/cjson.c:1159-1207 | builds on the heap exactly the tree that `ReadValue` describes, new and without sharing, and fails exactly when it does |
| `JsonParser.ParseArray` | Code/Iperf3NetworkTester/app/src/main/cpp/iperf/iperf-3.19/cjson.c:1275-1356 | the same for arrays, with the nesting limit and the list links closed at the end |
| `JsonParser.ParseObject` | Code/Iperf3NetworkTester/app/src/main/cpp/iperf/iperf-3.19/cjson.c:1412-1506 | the same for objects, with keys and values attached in order |
| `JsonParser.Parse` | Code/Iperf3NetworkTester/app/src/main/cpp/iperf/iperf-3.19/cjson.c:952-1040 | cJSON_Parse of any C string gives a new, unshared, well-linked tree of the value `JsonRead.Parse` defines, or null exactly when there is none |
| `JsonGrammar.NumberBytesExactly` | Code/Iperf3NetworkTester/app/src/main/cpp/iperf/iperf-3.19/cjson.c:305-323 | the bytes copied for strtod are exactly those that occur in numbers of RFC 8259 section 6 |
| `JsonGrammar.NumberCopied` | Code/Iperf3NetworkTester/app/src/main/cpp/iperf/iperf-3.19/cjson.c:301-326 | of every number of that grammar with a delimiter behind it, all bytes are copied, or its first 63 |
| `JsonGrammar.NumberIsRead` | Code/Iperf3NetworkTester/app/src/main/cpp/iperf/iperf-3.19/cjson.c:287-351 | a number of at most 63 bytes is read as what strtod makes of it, and the cursor ends behind it |
| `JsonGrammar.StringIsRead` | Code/Iperf3NetworkTester/app/src/main/cpp/iperf/iperf-3.19/cjson.c:674-788 | a string of RFC 8259 section 7, with escapes of two bytes, hexadecimal digits in either case and surrogate pairs, is read as the UTF-8 bytes its characters mean |
| `JsonGrammar.SyntaxIsRead` | Code/Iperf3NetworkTester/app/src/main/cpp/iperf/iperf-3.19/cjson.c:1159-1506 | every text of the RFC 8259 grammar, with any white space between its tokens, is read anywhere in a buffer as what it means, exactly when it is not nested over the limit |
| `JsonGrammar.TextIsParsed` | Code/Iperf3NetworkTester/app/src/main/cpp/iperf/iperf-3.19/cjson.c:952-1040 | cJSON_Parse of such a text, with white space around it, gives the value it means and the offset behind it, or nothing exactly when it is nested over the limit |
| `JsonPrinter.PrintBuffer.Ensure` | Code/Iperf3NetworkTester/app/src/main/cpp/iperf/iperf-3.19/cjson.c:399-466 | room is granted exactly when the buffer may grow or is large enough; what is written stays |
| `JsonPrinter.PrintBuffer.UpdateOffset` | Code/Iperf3NetworkTester/app/src/main/cpp/iperf/iperf-3.19/cjson.c:469-477 | moves the offset to the end of the text shown |
| `JsonPrinter.PrintNumber` | Code/Iperf3NetworkTester/app/src/main/cpp/iperf/iperf-3.19/cjson.c:486-542 | shows the number's text, given room for it and two bytes more |
| `JsonPrinter.PrintStringPtr` | Code/Iperf3NetworkTester/app/src/main/cpp/iperf/iperf-3.19/cjson.c:791-897 | shows the quoted and escaped string; the room asked for is exactly that of the text |
| `JsonPrinter.PrintArray` | Code/Iperf3NetworkTester/app/src/main/cpp/iperf/iperf-3.19/cjson.c:1359-1409 | shows the array's text behind what was there; succeeds exactly when text and two bytes fit |
| `JsonPrinter.PrintObject` | Code/Iperf3NetworkTester/app/src/main/cpp/iperf/iperf-3.19/cjson.c:1509-1602 | the same for objects, formatted and unformatted |
| `JsonPrinter.PrintValue` | Code/Iperf3NetworkTester/app/src/main/cpp/iperf/iperf-3.19/cjson.c:1210-1272 | the same for every kind of value: the heap printer refines the pure printer `Text` |
| `JsonPrinter.Print` | Code/Iperf3NetworkTester/app/src/main/cpp/iperf/iperf-3.19/cjson.c:1048-1112 | a new array that holds exactly the text and a NUL |
| `JsonPrinter.PrintBuffered` | Code/Iperf3NetworkTester/app/src/main/cpp/iperf/iperf-3.19/cjson.c:1114-1138 | the same text for every starting size that is not negative |
| `JsonPrinter.PrintPreallocated` | Code/Iperf3NetworkTester/app/src/main/cpp/iperf/iperf-3.19/cjson.c:1140-1156 | succeeds if and only if the length is at least two more than the text; the buffer then starts with the text and a NUL |
| `JsonPrinter.TextNoNul` | Code/Iperf3NetworkTester/app/src/main/cpp/iperf/iperf-3.19/cjson.c:791-897 | no printed text contains a NUL |
| `JsonOutput.StringEscaped` | Code/Iperf3NetworkTester/app/src/main/cpp/iperf/iperf-3.19/cjson.c:791-897 | a printed string is one of the grammar that means it: quotes, backslashes and control bytes are escaped, the latter without a short form in lower-case digits |
| `JsonOutput.TextIsGrammatical` | Code/Iperf3NetworkTester/app/src/main/cpp/iperf/iperf-3.19/cjson.c:1210-1602 | what is printed of any value, formatted or not, is a text of the RFC 8259 grammar that means that value, when its numbers print as numbers of the grammar that strtod reads as the same |
| `JsonOutput.IntegralSpellable` | Code/Iperf3NetworkTester/app/src/main/cpp/iperf/iperf-3.19/cjson.c:486-542 | integers up to 2^53 do, whatever the C library does with other numbers |
| `JsonText.IntegersReadBack` | Code/Iperf3NetworkTester/app/src/main/cpp/iperf/iperf-3.19/cjson.c:486-542 | integers of magnitude up to 2^53 print as the decimal text that means them, without a leading zero, and are read back by any strtod that keeps the C standard's promise on decimal texts |
| `JsonText.IntegerTextMeans` | Code/Iperf3NetworkTester/app/src/main/cpp/iperf/iperf-3.19/cjson.c:504-505 | the text of an integer is decimal digits, behind a minus if it is negative, whose value is the integer, with no zero in front |
| `JsonText.PromiseKept` | Code/Iperf3NetworkTester/app/src/main/cpp/iperf/iperf-3.19/cjson.c:324-327 | there is a C library that keeps what is asked of strtod, so the theorems that ask it speak of something |
| `JsonText.WhichAreIntegers` | Code/Iperf3NetworkTester/app/src/main/cpp/iperf/iperf-3.19/cjson.c:504-508 | which numbers print as integers: exactly the integers from -2^63 to 2^63, the last as 2^63 - 1; all others as the C library formats them |
| `JsonText.Truncates` | Code/Iperf3NetworkTester/app/src/main/cpp/iperf/iperf-3.19/cjson.c:335-347 | the integer kept with a number is the next one toward zero, or the nearest that 64 bits hold |
| `JsonText.IntegralPrintable` | Code/Iperf3NetworkTester/app/src/main/cpp/iperf/iperf-3.19/cjson.c:486-542 | values of NUL-free strings and integers up to 2^53 survive printing and reading, whatever the C library does with other numbers |
| `JsonRoundTrip.ValueReadsBack` | Code/Iperf3NetworkTester/app/src/main/cpp/iperf/iperf-3.19/cjson.c:1159-1602 | reading the printed text of a value anywhere in a buffer gives the value and the offset behind its text, exactly when it is not nested over the limit; RFC 8259 sections 2 to 7 |
| `JsonRoundTrip.ParseUndoesPrint` | Code/Iperf3NetworkTester/app/src/main/cpp/iperf/iperf-3.19/cjson.c:1038-1112 | cJSON_Parse of the formatted or unformatted text is the value printed, if and only if its nesting is within CJSON_NESTING_LIMIT |
| `JsonReparse.PrintAndParse` | Code/Iperf3NetworkTester/app/src/main/cpp/iperf/iperf-3.19/cjson.c:1038-1112 | on the heap: parsing the printed array of a tree gives a new, unshared, well-linked tree of the same value, or null exactly when it is nested over the limit |
| `JsonReparse.ReparseIntegral` | Code/Iperf3NetworkTester/app/src/main/cpp/iperf/iperf-3.19/cjson.c:1159-1602 | the same for strings and integers, with only the standard's promise on decimal integers assumed of strtod |
| `JsonDuplicate.Duplicate` | Code/Iperf3NetworkTester/app/src/main/cpp/iperf/iperf-3.19/cjson.c:2347-2416 | a new tree, disjoint from the old, of the same value, or of the root alone when not recursive |
| `JsonCompare.GetObjectItem` | Code/Iperf3NetworkTester/app/src/main/cpp/iperf/iperf-3.19/cjson.c:1649-1676 | the first child of that name, with or without case, on any node; with case the search ends at a child without a name |
| `JsonCompare.FindsMember` | Code/Iperf3NetworkTester/app/src/main/cpp/iperf/iperf-3.19/cjson.c:1649-1676 | in an object it is the member that `JsonEquality.Find` defines |
| `JsonCompare.Compare` | Code/Iperf3NetworkTester/app/src/main/cpp/iperf/iperf-3.19/cjson.c:2584-2690 | the answer is `CompareValues` of the two values, for trees that share no node and, with case, for any trees of which one has distinct keys |
| `JsonCompare.DuplicateAndCompare` | Code/Iperf3NetworkTester/app/src/main/cpp/iperf/iperf-3.19/cjson.c:2347-2416 | a recursive duplicate compares equal to its original when keys are distinct, and with integers below 2^52 if and only if members of one name are equal in it |
| `JsonEquality.CompareDecides` | Code/Iperf3NetworkTester/app/src/main/cpp/iperf/iperf-3.19/cjson.c:2584-2690 | with integers below 2^52, comparison holds if and only if the values are equal up to the order of members at every level and, in each, members of one name are equal; keys may repeat |
| `JsonEquality.CloseMeans` | Code/Iperf3NetworkTester/app/src/main/cpp/iperf/iperf-3.19/cjson.c:480-483 | two numbers compare equal if and only if one is the other made smaller by at most one part in 2^52 |
| `JsonEquality.SameButForCase` | Code/Iperf3NetworkTester/app/src/main/cpp/iperf/iperf-3.19/cjson.c:138-154 | ignoring case, names are the same exactly when they are letter by letter, up to the two cases of a letter of the alphabet |
| `JsonEquality.ComparesToItself` | Code/Iperf3NetworkTester/app/src/main/cpp/iperf/iperf-3.19/cjson.c:2656-2685 | a value compares equal to itself if and only if members of one name are equal in it |
| `JsonEquality.CompareDecidesEquality` | Code/Iperf3NetworkTester/app/src/main/cpp/iperf/iperf-3.19/cjson.c:2584-2690 | so with distinct keys comparison is equality up to the order of members |
| `JsonEquality.ReorderingKeepsNormal` | Code/Iperf3NetworkTester/app/src/main/cpp/iperf/iperf-3.19/cjson.c:2656-2685 | reordering an object's members does not change what it is compared as |
| `JsonEquality.CompareReflexive` | Code/Iperf3NetworkTester/app/src/main/cpp/iperf/iperf-3.19/cjson.c:2584-2690 | any value with distinct keys compares equal to itself, whatever its numbers |
| `JsonEquality.RepeatedKeyDiffersFromItself` | Code/Iperf3NetworkTester/app/src/main/cpp/iperf/iperf-3.19/cjson.c:2656-2685 | an object with true and false under one key does not compare equal to itself |
| `JsonMinify.MinifyInPlace` | Code/Iperf3NetworkTester/app/src/main/cpp/iperf/iperf-3.19/cjson.c:2462-2501 | in place, the array ends up holding `Minify` of its text and a NUL; the write cursor never passes the read cursor, and the result is never longer |
| `JsonMinify.MinifyString` | Code/Iperf3NetworkTester/app/src/main/cpp/iperf/iperf-3.19/cjson.c:2440-2459 | a string is copied as `Inside` says, where a backslash hides only a quote, and the write cursor stays behind the read cursor |
| `JsonMinify.MinifyUndoesFormatting` | Code/Iperf3NetworkTester/app/src/main/cpp/iperf/iperf-3.19/cjson.c:2418-2501 | minifying the formatted text gives the unformatted text if and only if only closing brackets follow a string that ends in a backslash |
| `JsonMinify.MinifyUndoesFormattingOfClosed` | Code/Iperf3NetworkTester/app/src/main/cpp/iperf/iperf-3.19/cjson.c:2418-2501 | in particular when no string and no key ends in a backslash |
| `JsonMinify.BlankSurvives` | Code/Iperf3NetworkTester/app/src/main/cpp/iperf/iperf-3.19/cjson.c:2440-2459 | the array of the string backslash and null is minified to something else |
| `JsonTokens.MinifyKeepsTokens` | Code/Iperf3NetworkTester/app/src/main/cpp/iperf/iperf-3.19/cjson.c:2418-2501 | of any sequence of tokens with white space, comments up to the end of the line and comments in stars between them, the tokens stay and the rest goes; in its strings a quote is hidden by the backslash in front of it |
| `JsonMinify.PrintAndMinify` | Code/Iperf3NetworkTester/app/src/main/cpp/iperf/iperf-3.19/cjson.c:2462-2501 | printing a tree and minifying the array, with the same condition |
| `JsonWire.WriteJson` | Code/Iperf3NetworkTester/app/src/main/cpp/iperf/iperf-3.19/iperf_api.c:2827-2849 | appends the text's 32-bit length in network order and that many bytes of the unformatted text; fails when that many do not fit an int (net.c:509-540), although they are written |
| `JsonWire.ReadJson` | Code/Iperf3NetworkTester/app/src/main/cpp/iperf/iperf-3.19/iperf_api.c:2853-2912 | takes off the stream what `ReadFrame` says and builds the tree of it, or gives null for each kind of bad frame, those among them whose length does not fit an int (net.c:379-465) |
| `JsonWire.FrameReadsBack` | Code/Iperf3NetworkTester/app/src/main/cpp/iperf/iperf-3.19/iperf_api.c:2827-2912 | the frame of any text with anything behind it is read back exactly, unless what is sent is empty, over the maximum, or of 2^31 bytes or more; and how much of it is taken off the stream then |
| `JsonWire.ValueCrosses` | Code/Iperf3NetworkTester/app/src/main/cpp/iperf/iperf-3.19/iperf_api.c:2827-2912 | a text sent is the text received if and only if it is shorter than 2^31 bytes and within the maximum, and its value the value if and only if that is within the nesting limit |
| `IperfTime.AddUsecsIsAddition` | Code/Iperf3NetworkTester/app/src/main/cpp/iperf/iperf-3.19/iperf_time.c:71-83 | adding microseconds is addition modulo the range of a time, and plain addition exactly when the sum is in range |
| `IperfTime.TakingAway` | Code/Iperf3NetworkTester/app/src/main/cpp/iperf/iperf-3.19/iperf_time.c:71-83 | a negative number of microseconds, as 64 unsigned bits, moves the time back exactly when no second has to be borrowed; otherwise 2^64 microseconds are added |
| `IperfTime.Compare` | Code/Iperf3NetworkTester/app/src/main/cpp/iperf/iperf-3.19/iperf_time.c:97-108 | the order of normal times is that of their microseconds |
| `IperfTime.Diff` | Code/Iperf3NetworkTester/app/src/main/cpp/iperf/iperf-3.19/iperf_time.c:118-148 | the distance of any two times in 32-bit arithmetic, which for normal times is the exact one, and whether the first is no later |
| `Timers.TimerList.ListAdd` | Code/Iperf3NetworkTester/app/src/main/cpp/iperf/iperf-3.19/timer.c:59-94 | inserts behind every timer due no later and keeps the list linked |
| `Timers.TimerList.ListRemove` | Code/Iperf3NetworkTester/app/src/main/cpp/iperf/iperf-3.19/timer.c:97-105 | bypasses the timer and keeps the list linked |
| `Timers.TimerList.ListResort` | Code/Iperf3NetworkTester/app/src/main/cpp/iperf/iperf-3.19/timer.c:108-114 | removes and inserts again |
| `Timers.InsertedSorted` | Code/Iperf3NetworkTester/app/src/main/cpp/iperf/iperf-3.19/timer.c:59-94 | the list stays sorted, timers due at the same time in order of insertion |
| `Timers.TimerList.Create` | Code/Iperf3NetworkTester/app/src/main/cpp/iperf/iperf-3.19/timer.c:117-145 | a timer due after its period, taken from the free list when there is one; no timer is lost |
| `Timers.TimerList.Timeout` | Code/Iperf3NetworkTester/app/src/main/cpp/iperf/iperf-3.19/timer.c:148-167 | the least time until a timer is due, or zero, in normal form; none without timers |
| `Timers.TimerList.Reset` | Code/Iperf3NetworkTester/app/src/main/cpp/iperf/iperf-3.19/timer.c:195-203 | the timer is due its period from now, and both lists stay well formed |
| `Timers.TimerList.Cancel` | Code/Iperf3NetworkTester/app/src/main/cpp/iperf/iperf-3.19/timer.c:206-214 | the timer moves to the front of the free list, and both lists stay well formed |
| `Timers.TimerList.RunProc` | Code/Iperf3NetworkTester/app/src/main/cpp/iperf/iperf-3.19/iperf_client_api.c:251-266 | the test timer's callback ends the test and forgets its timer (179-185); ending the omit period clears the flag, forgets the timer, restarts exactly the two periodic timers and leaves all others in order; the other callbacks change neither tests nor list |
| `Timers.TimerList.Fire` | Code/Iperf3NetworkTester/app/src/main/cpp/iperf/iperf-3.19/timer.c:184-190 | one firing: the callback, then rescheduling or freeing, with the exact new list and free list |
| `Timers.TimerList.FireDue` | Code/Iperf3NetworkTester/app/src/main/cpp/iperf/iperf-3.19/timer.c:182-190 | each firing leaves less time owed to due timers, also when the callback resets others |
| `Timers.TimerList.Run` | Code/Iperf3NetworkTester/app/src/main/cpp/iperf/iperf-3.19/timer.c:170-192 | terminates; fires only due timers; loses none; each test has become what the callbacks called for it say, and no other test has changed; without a due omit timer it does what `Swept` says, and with one what `OmitSwept` says; leaves what the next sweep requires |
| `Timers.TimerList.FireTold` | Code/Iperf3NetworkTester/app/src/main/cpp/iperf/iperf-3.19/timer.c:182-190 | one firing in a sweep keeps the account of what has become of all tests |
| `Timers.FiredTestEnds` | Code/Iperf3NetworkTester/app/src/main/cpp/iperf/iperf-3.19/iperf_client_api.c:179-185 | a test whose test timer has fired is done and has no test timer |
| `Timers.FiredTestsEnd` | Code/Iperf3NetworkTester/app/src/main/cpp/iperf/iperf-3.19/iperf_client_api.c:179-185 | so at the end of a sweep without a due omit timer every test whose timer was due when it began is done and has none |
| `Timers.SweepStep` | Code/Iperf3NetworkTester/app/src/main/cpp/iperf/iperf-3.19/timer.c:177-191 | one step keeps the sweep's account: fired timers in front, order of time, one period per firing |
| `Timers.SweepEnds` | Code/Iperf3NetworkTester/app/src/main/cpp/iperf/iperf-3.19/timer.c:170-192 | every timer due at entry has fired, one-shot ones once and freed, in non-decreasing due time; what is still due is periodic and has fired |
| `Timers.TrackedEnd` | Code/Iperf3NetworkTester/app/src/main/cpp/iperf/iperf-3.19/timer.c:170-192 | when the only omit timer is due: every due timer that it does not restart fires if and only if none is held up behind a restarted timer that was right behind it |
| `Timers.OmitDecides` | Code/Iperf3NetworkTester/app/src/main/cpp/iperf/iperf-3.19/timer.c:170-192 | the list before the sweep tells, whatever is in front of the omit timer: a due timer that is not restarted is left unfired if and only if one waits behind a restarted timer where `Ahead` foretells the sweep to come to the omit timer |
| `Timers.OneShotsInFront` | Code/Iperf3NetworkTester/app/src/main/cpp/iperf/iperf-3.19/timer.c:170-192 | with nothing periodic in front, one waits if and only if the timer right behind the omit timer on the list is one that it restarts, and another that is due lies behind |
| `Timers.PeriodicInFront` | Code/Iperf3NetworkTester/app/src/main/cpp/iperf/iperf-3.19/timer.c:170-192 | with one periodic timer in front, one waits also if the next time of that timer lies between those of the omit timer and of the one behind |
| `Timers.TestTimerWaits` | Code/Iperf3NetworkTester/app/src/main/cpp/iperf/iperf-3.19/iperf_client_api.c:251-266 | a late sweep of the omit, statistics and test timers does not fire the test timer |
| `Timers.TestTimerBehindStats` | Code/Iperf3NetworkTester/app/src/main/cpp/iperf/iperf-3.19/iperf_client_api.c:344-352 | with the statistics timer in front, as a test is started, the test timer that is due is not fired if and only if the next time of the statistics timer lies between those of the omit and the test timer |
| `Timers.TimerList.CreateTimers` | Code/Iperf3NetworkTester/app/src/main/cpp/iperf/iperf-3.19/iperf_client_api.c:208-248 | the test's timer and its two periodic ones, each only when wanted, due their times from now; a test with a duration is not done |
| `Timers.TimerList.CreateOmitTimer` | Code/Iperf3NetworkTester/app/src/main/cpp/iperf/iperf-3.19/iperf_client_api.c:269-295 | the omit timer, bound to the periodic timers it will restart |
| `Timers.TimerList.StartTimers` | Code/Iperf3NetworkTester/app/src/main/cpp/iperf/iperf-3.19/iperf_client_api.c:344-352 | starting a test leaves the list as a sweep requires it, with at most one omit timer, the test and omit timers due their times from now, and the flags of the test set accordingly |
| `Protocol.LengthRoundTrip` | Code/Iperf3NetworkTester/app/src/main/cpp/iperf/iperf-3.19/iperf_api.c:2838-2870 | a 32-bit length is read as it was written |
| `ProtocolSafety.QuietWhileCreating` | Code/Iperf3NetworkTester/app/src/main/cpp/iperf/iperf-3.19/iperf_server_api.c:720-746 | nothing is on the control channel while the server accepts streams, so it takes no byte for a state |
| `ProtocolSafety.QuietWhileRunning` | Code/Iperf3NetworkTester/app/src/main/cpp/iperf/iperf-3.19/iperf_client_api.c:684-787 | nothing is on the control channel while the client runs the test |
| `ProtocolSafety.ServerMoves` | Code/Iperf3NetworkTester/app/src/main/cpp/iperf/iperf-3.19/iperf_server_api.c:239-317 | a step of the server reads exactly its next chunk, or writes exactly its next |
| `ProtocolSafety.ClientReadsNext` | Code/Iperf3NetworkTester/app/src/main/cpp/iperf/iperf-3.19/iperf_client_api.c:296-402 | a reading step of the client gets exactly the server's next chunk |
| `ProtocolSafety.StepInv` | Code/Iperf3NetworkTester/app/src/main/cpp/iperf/iperf-3.19/iperf_server_api.c:593-950 | every step of server, client or environment keeps the invariant: framing, knowledge, pairing of streams, queue |
| `ProtocolSafety.RunsAreSafe` | Code/Iperf3NetworkTester/app/src/main/cpp/iperf/iperf-3.19/iperf_server_api.c:239-317 | in every run no side fails, TEST_END is sent at most once, no client worker starts before all streams are accepted, no connection of the test is turned away, and streams have opposite roles |
| `ProtocolSafety.RequestedIsTotal` | Code/Iperf3NetworkTester/app/src/main/cpp/iperf/iperf-3.19/iperf_server_api.c:872-884 | the rate requested is what all streams together ask for, as far as 64 bits can tell |
| `ProtocolSafety.RefusedExactly` | Code/Iperf3NetworkTester/app/src/main/cpp/iperf/iperf-3.19/iperf_udp.c:295-348 | buffers end a test exactly when a window is asked for and the smaller one granted is below it, or, in UDP tests without a window, when a buffer was smaller than a block and one granted is smaller than a block and 1024 bytes |
| `ProtocolLiveness.RankDecreases` | Code/Iperf3NetworkTester/app/src/main/cpp/iperf/iperf-3.19/iperf_client_api.c:617-787 | every step of the two sides leaves less to do |
| `ProtocolLiveness.SomebodyMoves` | Code/Iperf3NetworkTester/app/src/main/cpp/iperf/iperf-3.19/iperf_server_api.c:593-950 | no state before the end is stuck once the end condition holds |
| `ProtocolLiveness.RunsAreShort` | Code/Iperf3NetworkTester/app/src/main/cpp/iperf/iperf-3.19/iperf_server_api.c:593-950 | in every run the two sides take at most as many steps of their own as the rank at its start and the number of foreign connections together |
| `ProtocolLiveness.TestsComplete` | Code/Iperf3NetworkTester/app/src/main/cpp/iperf/iperf-3.19/iperf_client_api.c:556-787 | so a run that goes on while a side can move has both sides at IPERF_DONE, each with the other's results, whatever else connects meanwhile |
| `ProtocolLiveness.StrangerEndsTest` | Code/Iperf3NetworkTester/app/src/main/cpp/iperf/iperf-3.19/iperf_tcp.c:152-167 | a foreign connection while TCP streams are created ends a test that sets a type of service: the option is set on the socket just closed (iperf_server_api.c:737-740) |
| `ProtocolLiveness.EarlyStranger` | Code/Iperf3NetworkTester/app/src/main/cpp/iperf/iperf-3.19/iperf_tcp.c:184-199 | a foreign connection that waits while the parameters are read is dropped with the listener exactly when that is replaced, which no delay, a segment size or a window make the server do in TCP tests; otherwise it stays to be served |
| `ProtocolLiveness.LateStranger` | Code/Iperf3NetworkTester/app/src/main/cpp/iperf/iperf-3.19/iperf_server_api.c:846-869 | the same when all streams are there |
| `ProtocolLiveness.StrangerFirst` | Code/Iperf3NetworkTester/app/src/main/cpp/iperf/iperf-3.19/iperf_server_api.c:193-201 | a server without a control connection takes the first connection for it, and gives up when that sends no cookie |
| `ProtocolLiveness.StrangeMessageEndsServer` | Code/Iperf3NetworkTester/app/src/main/cpp/iperf/iperf-3.19/iperf_server_api.c:239-317 | a byte that is none of its messages ends the test on the server with IEMESSAGE, and no message of its own does |
| `ProtocolLiveness.StrangeMessageEndsClient` | Code/Iperf3NetworkTester/app/src/main/cpp/iperf/iperf-3.19/iperf_client_api.c:296-402 | the same on the client |
| `ProtocolLiveness.InterruptedClient` | Code/Iperf3NetworkTester/app/src/main/cpp/iperf/iperf-3.19/iperf_server_api.c:291-309 | a client interrupted while the test runs makes the server be done |
| `ProtocolLiveness.InterruptedServer` | Code/Iperf3NetworkTester/app/src/main/cpp/iperf/iperf-3.19/iperf_client_api.c:368-380 | a server interrupted while the test runs makes the client give up with IESERVERTERM |
| `ProtocolLiveness.DeniedClient` | Code/Iperf3NetworkTester/app/src/main/cpp/iperf/iperf-3.19/iperf_client_api.c:381-383 | a client that a busy server denies access gives up with IEACCESSDENIED |
| `ProtocolLiveness.LongParametersFail` | Code/Iperf3NetworkTester/app/src/main/cpp/iperf/iperf-3.19/iperf_api.c:2423-2433 | parameters of more than 8 KiB end the test |
| `ProtocolLiveness.ParametersSent` | Code/Iperf3NetworkTester/app/src/main/cpp/iperf/iperf-3.19/iperf_api.c:2827-2849 | a client whose parameters take 2^31 bytes or more takes the count written for an error, and any other goes on |
| `ProtocolLiveness.TcpWindowFails` | Code/Iperf3NetworkTester/app/src/main/cpp/iperf/iperf-3.19/iperf_tcp.c:335-368 | a window larger than the server's listener is granted ends a TCP test on both sides: the server answers SERVER_ERROR and the client reads its error (iperf_api.c:2264-2277, iperf_client_api.c:384-394) |
| `ProtocolLiveness.ClientWindowFails` | Code/Iperf3NetworkTester/app/src/main/cpp/iperf/iperf-3.19/iperf_tcp.c:463-500 | a window, or in UDP tests without one a block, too large for the client's stream sockets ends the test on the client (iperf_udp.c:295-348, 531-549) |
| `ProtocolLiveness.UdpWindowFails` | Code/Iperf3NetworkTester/app/src/main/cpp/iperf/iperf-3.19/iperf_udp.c:413-431 | and in UDP tests one too large for the server's ends it there, with the client left waiting for a reply |
| `ProtocolLiveness.ServerAffinityFails` | Code/Iperf3NetworkTester/app/src/main/cpp/iperf/iperf-3.19/iperf_server_api.c:209-212 | a test that binds the server to a processor ends when the server, built without the means, has asked for streams (iperf_api.c:5210-5213, iperf_config.h:31) |
| `ProtocolLiveness.ClientAffinityFails` | Code/Iperf3NetworkTester/app/src/main/cpp/iperf/iperf-3.19/iperf_client_api.c:582-584 | and such a client does not even connect |
| `ProtocolLiveness.HighRateFails` | Code/Iperf3NetworkTester/app/src/main/cpp/iperf/iperf-3.19/iperf_server_api.c:872-884 | a test whose streams all together ask for more than the server's limit, as far as 64 bits can tell, ends when all its streams are there |
| `ProtocolLiveness.StartedWithinLimit` | Code/Iperf3NetworkTester/app/src/main/cpp/iperf/iperf-3.19/iperf_server_api.c:872-892 | in every run of any test, a server with a limit has sent TEST_START only if its streams all together ask for no more than that |
| `ProtocolLiveness.ExcessNeedsWorkers` | Code/Iperf3NetworkTester/app/src/main/cpp/iperf/iperf-3.19/iperf_server_api.c:890-939 | in every run of any test, the limit is found to be exceeded only when the server's workers were started |
| `ProtocolLiveness.ExcessFails` | Code/Iperf3NetworkTester/app/src/main/cpp/iperf/iperf-3.19/iperf_server_api.c:595-600 | a test that moves more than the limit ends in the next round of the loop |
| `ProtocolLiveness.NobodyServed` | Code/Iperf3NetworkTester/app/src/main/cpp/iperf/iperf-3.19/iperf_server_api.c:593-600 | whoever waits, nobody is served any more once the limit was exceeded or the test is over, and not before the test is started or given up when all streams are there (844-884) |
| `ProtocolLiveness.LongResultsFail` | Code/Iperf3NetworkTester/app/src/main/cpp/iperf/iperf-3.19/net.c:379-540 | results of 2^31 bytes or more from the client end the test on both sides: the client takes the count it has written for an error, and the server the count it has read, or has no room for 2^32-1 (iperf_api.c:2841-2897) |
| `ProtocolLiveness.LongServerResultsFail` | Code/Iperf3NetworkTester/app/src/main/cpp/iperf/iperf-3.19/net.c:379-540 | and such results of the server's do |
| `ProtocolLiveness.SoundExactly` | Code/Iperf3NetworkTester/app/src/main/cpp/iperf/iperf-3.19/iperf_server_api.c:593-950 | neither side ever fails if and only if parameters are within 8 KiB and results below 2^31 bytes, no type of service is set on TCP streams, both sides get the buffers and processors they ask for, and the server's rate limit is neither requested nor measured to be exceeded |
| `Streams.StreamList.AddStream` | Code/Iperf3NetworkTester/app/src/main/cpp/iperf/iperf-3.19/iperf_api.c:4816-4842 | appends the stream with the next id of 1, 3, 4, 5, ... |
| `Streams.StreamList.CreateStreams` | Code/Iperf3NetworkTester/app/src/main/cpp/iperf/iperf-3.19/iperf_client_api.c:98-177 | appends that many new streams of one role |
| `Streams.CreateClientStreams` | Code/Iperf3NetworkTester/app/src/main/cpp/iperf/iperf-3.19/iperf_client_api.c:335-343 | the client's streams by position: roles and ids, senders first in bidirectional tests |
| `Streams.AcceptServerStreams` | Code/Iperf3NetworkTester/app/src/main/cpp/iperf/iperf-3.19/iperf_server_api.c:820-838 | the server's streams by position have the opposite roles, receivers first |
| `Streams.StreamsPairUp` | Code/Iperf3NetworkTester/app/src/main/cpp/iperf/iperf-3.19/iperf_api.c:4816-4842 | streams at the same position have equal ids and opposite roles, and ids are distinct |
| `Results.ReportReadsBack` | Code/Iperf3NetworkTester/app/src/main/cpp/iperf/iperf-3.19/iperf_api.c:2597-2614 | what is said of a stream is what get_results reads, for counts up to 2^53 |
| `Results.WhatMayBeMissing` | Code/Iperf3NetworkTester/app/src/main/cpp/iperf/iperf-3.19/iperf_api.c:2710-2731 | a report is read exactly when all its counts are there and the omitted ones both or neither; its times only when both are |
| `Results.WhatMustBeThere` | Code/Iperf3NetworkTester/app/src/main/cpp/iperf/iperf-3.19/iperf_api.c:2655-2700 | results are read exactly when their four numbers are there, and streams of them exactly when there is an array |
| `Results.ElapsedLasts` | Code/Iperf3NetworkTester/app/src/main/cpp/iperf/iperf-3.19/iperf_api.c:2611-2614 | the time sent for a stream is the seconds between its start and its end |
| `Results.SendResults` | Code/Iperf3NetworkTester/app/src/main/cpp/iperf/iperf-3.19/iperf_api.c:2527-2631 | the object sent: one report per stream in order, with each role's own counts |
| `Results.StoreAtSender` | Code/Iperf3NetworkTester/app/src/main/cpp/iperf/iperf-3.19/iperf_api.c:2742-2773 | where a report goes under a sending stream, with the compatible handling of missing omitted counts |
| `Results.StoreAtReceiver` | Code/Iperf3NetworkTester/app/src/main/cpp/iperf/iperf-3.19/iperf_api.c:2774-2789 | where a report goes under a receiving stream |
| `Results.GetResults` | Code/Iperf3NetworkTester/app/src/main/cpp/iperf/iperf-3.19/iperf_api.c:2636-2823 | files every report under the stream with its id and goes on after an error, as `ApplyAll` says |
| `Results.ResultsLand` | Code/Iperf3NetworkTester/app/src/main/cpp/iperf/iperf-3.19/iperf_api.c:2293-2311 | filing all reports on both sides leaves each side, under the matching stream, with the counts the other held before, although the server overwrites fields first |
| `Results.Pass` | Code/Iperf3NetworkTester/app/src/main/cpp/iperf/iperf-3.19/iperf_api.c:2526-2823 | what one side sends the other files, and the sender's streams stay as they are |
| `Results.ExchangeResults` | Code/Iperf3NetworkTester/app/src/main/cpp/iperf/iperf-3.19/iperf_api.c:2293-2311 | client and server exchange results and each has learned what the other held before |
| `Parameters.NamesDistinct` | Code/Iperf3NetworkTester/app/src/main/cpp/iperf/iperf-3.19/iperf_api.c:2326-2380 | no two parameter keys are the same but for case, which lookups ignore |
| `Parameters.SetKeepsMode` | Code/Iperf3NetworkTester/app/src/main/cpp/iperf/iperf-3.19/iperf_api.c:639-686 | a call leaves the mode as role and flags require, except setting reverse off or bidirectional on where the other flag is set |
| `Parameters.AnyOrder` | Code/Iperf3NetworkTester/app/src/main/cpp/iperf/iperf-3.19/iperf_api.c:804-812 | role and flags may be set in any order |
| `Parameters.WhoSends` | Code/Iperf3NetworkTester/app/src/main/cpp/iperf/iperf-3.19/iperf_api.c:639-660 | a client sends and a server receives, unless the test is reversed |
| `Parameters.FalseSetsFlag` | Code/Iperf3NetworkTester/app/src/main/cpp/iperf/iperf-3.19/iperf_util.c:423-433 | a member that is false sets a flag just as one that is true |
| `Parameters.ModesOppose` | Code/Iperf3NetworkTester/app/src/main/cpp/iperf/iperf-3.19/iperf_api.c:639-686 | a client and a server with the same flags, in whatever order these were set, are in complementary modes |
| `Parameters.Test.Reset` | Code/Iperf3NetworkTester/app/src/main/cpp/iperf/iperf-3.19/iperf_api.c:3360-3488 | which parameters a reset restores, and which six it leaves |
| `Parameters.Test.GetParameters` | Code/Iperf3NetworkTester/app/src/main/cpp/iperf/iperf-3.19/iperf_api.c:2423-2522 | every field after reading an object in which any member may be missing |
| `Parameters.NextTest` | Code/Iperf3NetworkTester/app/src/main/cpp/iperf/iperf-3.19/iperf_api.c:2316-2522 | a server in any state that resets and reads a client's parameters agrees with it on all of them, in the complementary mode; four fields are shown to leak where the client is silent |
| `Udp.UdpStream.Send` | Code/Iperf3NetworkTester/app/src/main/cpp/iperf/iperf-3.19/iperf_udp.c:214-270 | sent packets are numbered 1, 2, 3, ...; an unsent one does not use up its number |
| `Udp.UdpStream.CountPacket` | Code/Iperf3NetworkTester/app/src/main/cpp/iperf/iperf-3.19/iperf_udp.c:137-173 | the counters are those of `Account` on all numbers seen |
| `Udp.UdpStream.Recv` | Code/Iperf3NetworkTester/app/src/main/cpp/iperf/iperf-3.19/iperf_udp.c:55-206 | one packet: bytes and counters are those of all packets so far, and jitter that of all since the omit period, for any header; or nothing after the end of the test |
| `Udp.UdpStream.Reset` | Code/Iperf3NetworkTester/app/src/main/cpp/iperf/iperf-3.19/iperf_api.c:3504-3511 | after the omit period the jitter starts anew, with the next packet as a first one, and the numbers seen stay |
| `Udp.HeaderRoundTrip` | Code/Iperf3NetworkTester/app/src/main/cpp/iperf/iperf-3.19/iperf_udp.c:98-118 | the receiver reads the time and number the sender wrote, cut to 32 bits with 32-bit counters |
| `Udp.LossesExact` | Code/Iperf3NetworkTester/app/src/main/cpp/iperf/iperf-3.19/iperf_udp.c:137-173 | without duplicates the error count is the number of missing packets up to the highest received |
| `Udp.LossesBounded` | Code/Iperf3NetworkTester/app/src/main/cpp/iperf/iperf-3.19/iperf_udp.c:137-173 | with duplicates it lies between what the number received leaves open and the missing count |
| `Udp.SentAccountedFor` | Code/Iperf3NetworkTester/app/src/main/cpp/iperf/iperf-3.19/iperf_udp.c:137-173 | packets sent are received, counted as lost, or above the highest received |
| `Udp.LossesExactlyWhen` | Code/Iperf3NetworkTester/app/src/main/cpp/iperf/iperf-3.19/iperf_udp.c:124-173 | with duplicates the error count is the number of missing packets if and only if at some moment nothing was missing and every duplicate had come |
| `Udp.DuplicateHidesLoss` | Code/Iperf3NetworkTester/app/src/main/cpp/iperf/iperf-3.19/iperf_udp.c:124-130 | a duplicate can hide a loss: 1, 3, 3 |
| `Udp.JitterBounded` | Code/Iperf3NetworkTester/app/src/main/cpp/iperf/iperf-3.19/iperf_udp.c:195-199 | over any run of packets, the jitter estimate stays within what the transit time ever changed by |
| `Udp.JitterConverges` | Code/Iperf3NetworkTester/app/src/main/cpp/iperf/iperf-3.19/iperf_udp.c:195-199 | when the transit time changes by d from every packet to the next, the estimate after n packets is d times 1 - (15/16)^(n - 1) |
| `Udp.Transit` | Code/Iperf3NetworkTester/app/src/main/cpp/iperf/iperf-3.19/iperf_udp.c:187-188 | the seconds between two normal times |
| `Udp.OutOfOrderCounts` | Code/Iperf3NetworkTester/app/src/main/cpp/iperf/iperf-3.19/iperf_udp.c:137-173 | the packets counted as out of order are exactly those not above all before them |
| `Intervals.StreamStats.Record` | Code/Iperf3NetworkTester/app/src/main/cpp/iperf/iperf-3.19/iperf_api.c:3546-3644 | an interval takes the bytes since the last one and starts where it ended; the conservation invariant holds |
| `Intervals.StreamStats.AddToIntervalList` | Code/Iperf3NetworkTester/app/src/main/cpp/iperf/iperf-3.19/iperf_api.c:2953-2968 | the list never has more than the last interval |
| `Intervals.StreamStats.Reset` | Code/Iperf3NetworkTester/app/src/main/cpp/iperf/iperf-3.19/iperf_api.c:3504-3520 | after the omit period the account starts anew from the bytes sent so far |
| `Intervals.StatsTest.StatsCallback` | Code/Iperf3NetworkTester/app/src/main/cpp/iperf/iperf-3.19/iperf_api.c:3531-3651 | one more interval for every stream, with what it has moved since the one before, all invariants kept, and the server's rate check of all bytes moved |
| `Intervals.StatsTest.EndOmit` | Code/Iperf3NetworkTester/app/src/main/cpp/iperf/iperf-3.19/iperf_api.c:3495-3521 | all streams count anew from now on, their packets so far are omitted, and their invariants are kept |
| `Intervals.PacketsTelescope` | Code/Iperf3NetworkTester/app/src/main/cpp/iperf/iperf-3.19/iperf_api.c:3599-3611 | the packet, error and reorder counts of the intervals from any point on add up to what the running totals have grown by |
| `Intervals.StreamStats.PacketsSinceOmit` | Code/Iperf3NetworkTester/app/src/main/cpp/iperf/iperf-3.19/iperf_api.c:3504-3611 | the intervals since the omit period exceed the packets counted since then by exactly those counted between its last report and its end |
| `Intervals.LateInOmit` | Code/Iperf3NetworkTester/app/src/main/cpp/iperf/iperf-3.19/iperf_api.c:3504-3611 | a run with two packets between the last report of the omit period and its end: the first interval behind it reports four where two have come |
| `Intervals.RateLimit.Check` | Code/Iperf3NetworkTester/app/src/main/cpp/iperf/iperf-3.19/iperf_api.c:2017-2054 | the test is over the limit exactly if it was before, or there are W intervals and eight times the bytes of the last W are at least one bit a second more than the limit over their length |
| `Intervals.RateOver` | Code/Iperf3NetworkTester/app/src/main/cpp/iperf/iperf-3.19/iperf_api.c:2042-2044 | the rate cut off to an integer is over the limit exactly then |
| `Intervals.RateLimit.Store` | Code/Iperf3NetworkTester/app/src/main/cpp/iperf/iperf-3.19/iperf_api.c:2028-2031 | the new interval takes the place of the oldest, so the ring is a sliding window |
| `Intervals.WindowSlides` | Code/Iperf3NetworkTester/app/src/main/cpp/iperf/iperf-3.19/iperf_api.c:2028-2041 | the window after one more interval is the window without its oldest, and the new one |
| `Pacing.Pacer.CheckThrottle` | Code/Iperf3NetworkTester/app/src/main/cpp/iperf/iperf-3.19/iperf_api.c:1942-2014 | sends when behind, waits when level, and when ahead sleeps until the target rate is met from both sides |
| `Pacing.AbsoluteEnd` | Code/Iperf3NetworkTester/app/src/main/cpp/iperf/iperf-3.19/iperf_api.c:1981-1990 | the absolute end of the sleep, in normal form |
| `Pacing.Slices` | Code/Iperf3NetworkTester/app/src/main/cpp/iperf/iperf-3.19/iperf_api.c:1999-2006 | the slices are shorter than a second and add up to the computed wait |

## Left out

- JsonParser.Parse: does not model the position reported for a failed parse (global_error, return_parse_end), nor cJSON_ParseWithLength on text without a NUL.
- JsonGrammar.TextIsParsed: numbers of more than 63 bytes are cut by the parser (`JsonGrammar.NumberCopied`) and are not part of it, nor are strings with U+0000, which end there for C; what a number means is up to strtod.
- JsonTokens.MinifyKeepsTokens: takes strings, comments and quotes that are closed; `JsonMinify.MinifyInPlace` covers every text.
- JsonPrinter.Print: does not model size_t overflow in ensure, allocation failure, or the null result when the text of a number does not fit its 26-byte buffer; printable values exclude the last.
- JsonPrinter.PrintNumber: leaves the texts of %1.15g and %1.17g and the locale's decimal point to the `Libc` tables; NaN and infinities are not values of the model.
- JsonCompare.Compare: says nothing of two trees that share some nodes, or of one node compared with itself, when both have repeated keys or case is ignored; a shared node is equal to itself at once.
- JsonDuplicate.Duplicate: does not model references, constant keys or allocation failure.
- Timers.TimerList.Run: with more than one omit timer claims only termination, order of the lists and that no timer is lost; a process runs one test at a time, and a test has one.
- Timers.TimerList.RunProc: the stats and report callbacks do nothing to the timers, and what else they do is in `Intervals.dfy`; the server's callbacks are of the same two kinds.
- ProtocolSafety.RunsAreSafe: the two event loops are modelled on values, one step between two blocking operations at a time, so that steps of client and server interleave; not as methods that update objects.
- ProtocolLiveness.SoundExactly: is about runs in which no system call fails or times out, nobody is interrupted by a signal, and no byte or packet comes from elsewhere on the test's own sockets. Outside them are a foreign connection that is reset while its cookie is read (iperf_tcp.c:152-156) and a stray datagram, which takes the slot of a UDP stream (iperf_udp.c:402-410); either can end a test.
- ProtocolLiveness.SoundExactly: authentication, keepalive, flow labels, SCTP and MPTCP, which the repository's iperf_config.h leaves out, are not part of it; the frames are texts that parse, with the members that are read, of less than 2^32 bytes; whether the traffic ever exceeds the limit is given, and measured in `Intervals.RateLimit.Check`; errno, which SERVER_ERROR also brings, is sent as 0.
- Streams.AcceptServerStreams: takes connections in the order they were made, as the queue of `Protocol.dfy` delivers them.
- Results.ResultsLand: is stated for counts up to 2^53, which JSON numbers carry exactly; congestion control names and server output are not exchanged in the model.
- Parameters.NextTest: covers the members listed in `Parameters.Key`; title, extra data, congestion, affinity, zero copy, fragmentation, skip_rx_copy and authentication are not among them.
- Intervals.StatsTest.StatsCallback: is one atomic step, although workers may count bytes between its reading of a counter and its clearing it; TCP_INFO statistics are not part of it.
- Intervals.RateLimit.Check: the array is the fixed 60 entries of the source, and the window is unchanged since the reset.
- Pacing.Pacer.CheckThrottle: computes over real numbers, without overflow of 64-bit counts.
- Raw items, reference items and allocator hooks of cJSON; freeing memory is left to the collector.
- Sockets, select, threads, signals, file transfer, daemon mode, argument parsing, report printing and error strings.
- The Android application and its JNI bridge.
