# Verified model of the payload codecs and promise protocols

This project models, in Dafny, the parts of the repository whose correctness rests on state, byte
positions or the interleaving of threads, and proves what they promise:

* **HTTP payloads** (cpp-httplib and the HTTP plugin): the multipart writer and the streaming
  multipart parser, chunked transfer coding over a buffered socket, header and query fields, percent
  coding, base64, range admission and route matching.
* **D-Bus plugin**: marshalling of script values by signature and printing of messages as JSON; the
  protocol of calls, replies, timeouts, reconnects and shutdown; the connect waiters; the table of
  incoming method calls.
* **HTTP plugin**: the worker thread with its semaphore, and the promises of requests.
* **Addresses**: `inet_ntop` and `inet_pton` as written out for mingw.

Code that updates fields, buffers or arrays is a class or a method with loops, proved against
functions; the theorems are lemmas about those functions. A protocol between threads is a state
machine whose steps are the code between two lock operations (`State`, `Step`, `Enabled`, `Apply`),
with theorems over every feasible sequence of steps; the loops of the code are methods shown to take
such steps. Fields under the heading of history record what happened and are read by no code.

## Conventions

* A `char` stands for a byte; where it matters, `IsBytes` bounds it. A `std::multimap` is a map from
  keys to the values in insertion order.
* libdbus enters through a `Lib` value: which signatures parse to which types, and which object paths
  are valid. `Sane` says what is required of it. A script value is a finite tree.
* A socket delivers any non-empty part of what is to come, or fails; a `steady` one fails only at the
  end. Transport, clock and serial numbers are parameters or chosen freely by the steps.
* Loops over unordered containers may visit in any order; `Enumerates` says what an order is.

## Where the code surprises

* The multipart parser erases a first fragment that does not hold the whole first delimiter line
  (http/cpp-httplib/httplib.h:4442), so the round trip fails exactly for the fragmentations that cut
  this line: `MultipartExact.RoundTripExactly`.
* `is_valid` stays true after a closing delimiter, while fragments that follow can still add parts:
  exactly those that go on with a header block, see `MultipartReopened.OneMoreFragment` and
  `MultipartReopened.MoreFragments`.
* The HTTP worker releases a binary semaphore whose counter may be 1 already
  (http/src/Http.hpp:84). A release is in contract exactly if every earlier one has been acquired
  (`HttpWorker.ReleaseInContract`), and waiting for a job to be done does not ensure it
  (`HttpWorker.DoneIsNotAcquired`). The theorems about order and wake-up cover a library that then
  leaves the counter anywhere between 1 and one more than it was; a crash or a lost count is not
  covered. The flag `running` is a plain `bool` read by another thread; the model takes a store to be
  seen.
* A chunked transfer that ends with an empty write reports success without having written an end:
  `ChunkedTransfer.EmptyWriteLeavesNoEnd` says for which providers.
* A suffix range longer than the content is refused, where section 14.1.2 of RFC 9110 serves the whole
  content: `Ranges.SuffixServed`.
* The base64 encoder of macaron computes a length minus two in an unsigned type, and its decoder
  indexes a table with a signed character: `Macaron.LoopStaysInside` and `Macaron.DecodeStaysInside`
  say for which inputs every read is inside.
* `js_to_string` cuts texts at a NUL, so the check for a NUL inside texts (dbus/src/marshal.hpp) never
  fires; the model cuts them in the same way (`CStr`).
* Among runs of equal length the address printer prefers one in the middle to one at the start, since
  a colon more is counted; section 4.2.3 of RFC 5952 asks for the first. `InetTies.FirstIsLeftOut` says
  for which addresses it is the first, `InetTies.LaterIsLeftOut` shows one for which it is not.

## Model

| member | source | states |
|---|---|---|
| `MultipartExact.RoundTripExactly` | http/cpp-httplib/httplib.h:4434-4569 | For every list of parts whose header lines are shorter than the limit and every fragmentation of their body: every call of `parse` returns true, the parser ends valid and has reported exactly the parts, if and only if there is a part, the first fragment that is not empty holds the whole first delimiter line, every name and filename is free of `;`, `=`, CR and LF, every content type is trimmed and on one line, and no content holds the delimiter |
| `MultipartExact.LateStart` | http/cpp-httplib/httplib.h:4441-4448 | A parser that missed the first delimiter line and starts behind any later text that looks like one does not report the parts, whatever the fragments, and even when it meets a closing delimiter early and goes on behind it |
| `MultipartExact.FirstDelimiter` | http/cpp-httplib/httplib.h:4441-4448 | State 0 skips to the first delimiter line that stands inside one fragment and keeps nothing of the fragments before |
| `MultipartExact.FragmentsMiss` | http/cpp-httplib/httplib.h:4434-4569 | What one run over the whole input cannot report, no fragmentation of it can |
| `MultipartFilenames.FragmentsLoseFilename` | http/cpp-httplib/httplib.h:4434-4569 | From the first delimiter line on, accepted fragments of a body with a filename that has one of `;`, `=`, CR and LF do not report the parts |
| `MultipartFilenames.HeadersLeave` | http/cpp-httplib/httplib.h:4483-4516 | Whatever is read from a header block whose filename has one of these, a line break among them: not this filename, or not all of the block |
| `MultipartLateStart.StartInTail` | http/cpp-httplib/httplib.h:4436-4566 | A run from behind any line break in a body reports no more parts than are left, and not all of them if the line looks like a delimiter |
| `MultipartLateStart.Inside` | http/cpp-httplib/httplib.h:4454-4546 | A part that is read from inside a content has a shorter content, or swallows the delimiter and costs a part |
| `MultipartLateStart.Swallowed` | http/cpp-httplib/httplib.h:4525-4563 | A content that swallowed a delimiter ends at the next one, or where the next content looks like one |
| `MultipartLines.HeadersInside` | http/cpp-httplib/httplib.h:4454-4523 | Header lines read from inside a content are refused, or end at a blank line in it or at the line break of its delimiter |
| `MultipartLines.PeelHeaders` | http/cpp-httplib/httplib.h:4713-4730 | Where a line that ends like a delimiter line can stand among printed header lines |
| `MultipartClean.ReportedIsClean` | http/cpp-httplib/httplib.h:4434-4569 | Whatever bytes arrive, however they are cut, and whether they are accepted or not: every reported name is free of `;`, `=`, CR and LF, every content type is trimmed and on one line, and no reported content holds the delimiter |
| `MultipartClean.TurnKeepsClean` | http/cpp-httplib/httplib.h:4436-4566 | Every turn of the loop keeps this, with the bytes held back between calls |
| `MultipartRoundTrip.RoundTrip` | http/cpp-httplib/httplib.h:4434-4569 | Whatever the well-formed parts and however their body is cut, with a first fragment that holds the first delimiter line: every call of `parse` returns true, the parser ends valid, and it has reported exactly the parts, in order, with name, filename, content type and content |
| `MultipartRoundTrip.TailComesBack` | http/cpp-httplib/httplib.h:4434-4569 | From the first delimiter line on there is no condition on the fragments at all |
| `MultipartRoundTrip.RunAll` | http/cpp-httplib/httplib.h:4436-4566 | One call with the whole rest of the body goes through every state of every part and drops only the last line break |
| `MultipartRoundTrip.RunPart` | http/cpp-httplib/httplib.h:4449-4546 | From state 1, one part and its delimiter lead to state 4 with exactly that part added |
| `MultipartRoundTrip.BodyIsTail` | http/cpp-httplib/httplib.h:4744-4756 | The line break after a part and the delimiter line before the next are the one delimiter that the parser looks for |
| `MultipartRoundTrip.HeadersComeBack` | http/cpp-httplib/httplib.h:4454-4524 | The header lines of a well-formed part are read back to its name, filename and content type |
| `MultipartFragments.FragmentsAgree` | http/cpp-httplib/httplib.h:4434-4569 | Feeding fragments one by one has the outcome of feeding their concatenation, up to the fragment that holds the closing delimiter, if header lines are short or all fragments are accepted |
| `MultipartFragments.RunSplits` | http/cpp-httplib/httplib.h:4436-4566 | Stopping after any prefix of the input and going on later is the same as one run: in every state the bytes held back are enough; only the length check of header lines can refuse a prefix and accept the whole |
| `MultipartFragments.AfterClosing` | http/cpp-httplib/httplib.h:4548-4563 | After the closing delimiter the last line break changes nothing, however it arrives |
| `MultipartReopened.OneMoreFragment` | http/cpp-httplib/httplib.h:4548-4563 | Behind a closing delimiter one more fragment reports nothing new if and only if it does not start with a line break and a header block whose first line passes the length check |
| `MultipartReopened.MoreFragments` | http/cpp-httplib/httplib.h:4548-4563 | The same for any list of accepted fragments, however they are cut: nothing new if and only if no line break and header block follow, behind any fragments dropped with the dashes of a further closing delimiter |
| `MultipartReopened.HeadersReopen` | http/cpp-httplib/httplib.h:4548-4563 | The header block of any well-formed part, sent behind a closing delimiter, adds that part, and the parser stays valid |
| `MultipartBody.BodyStream` | http/cpp-httplib/httplib.h:4525-4546 | In the body state, for every stream and fragmentation, the content delivered is exactly the stream before the first delimiter; without one, every call succeeds and at most a delimiter's length is held back |
| `MultipartBody.BodyFragment` | http/cpp-httplib/httplib.h:4525-4546 | The same for one fragment: what is delivered, what is kept, and that a found delimiter leaves the state |
| `MultipartHeaders.DispositionRoundTrip` | http/cpp-httplib/httplib.h:4483-4516 | A name and a filename come back from their header line exactly if neither contains `;`, `=`, CR or LF |
| `MultipartHeaders.TypeRoundTrip` | http/cpp-httplib/httplib.h:4477-4481 | A content type comes back from its header line exactly if it has no blank at an end |
| `MultipartParser.MultipartFormDataParser.Parse` | http/cpp-httplib/httplib.h:4434-4569 | One call on the compacting buffer has the return value, the validity, the reported parts and the unread bytes that the function on abstract states gives |
| `MultipartParser.MultipartFormDataParser.BufFind` | http/cpp-httplib/httplib.h:4617-4638 | The first position at which the text occurs in the unread bytes, or their number |
| `MultipartParser.MultipartFormDataParser.BufAppend` | http/cpp-httplib/httplib.h:4640-4656 | Compaction and growth keep the unread bytes and put the new ones behind them; the offsets stay inside the buffer |
| `MultipartParser.MultipartFormDataParser.Compact` | http/cpp-httplib/httplib.h:4640-4648 | Moving the unread bytes to the front in place loses none of them |
| `MultipartParser.MultipartFormDataParser.ParseHeaders` | http/cpp-httplib/httplib.h:4455-4521 | The inner loop of the header state takes every complete line and stops at the blank one, at a malformed one, or where input ends |
| `MultipartParser.MultipartFormDataParser.BodyState` | http/cpp-httplib/httplib.h:4525-4546 | The scan of the body state delivers up to the delimiter, or all but a delimiter's length |
| `MultipartParser.TurnDecreases` | http/cpp-httplib/httplib.h:4436-4566 | Every turn of the loop consumes input or leaves state 1, so a call of `parse` ends |
| `MultipartFormat.SerializeMultipartFormdata` | http/cpp-httplib/httplib.h:4744-4756 | The body of a list of parts, written item by item |
| `MultipartFormat.BuildWorkerBody` | http/src/Http.cpp:161-180 | The loop of the worker writes the same bytes as `serialize_multipart_formdata` |
| `MultipartFormat.ReadHeaderLine` | http/cpp-httplib/httplib.h:4467-4518 | What one header line does to the file under construction, by prefix, pattern and parameters |
| `Fields.TrimCopy` | http/cpp-httplib/httplib.h:2559-2573 | Trimming removes exactly the blanks at both ends |
| `Fields.SplitText` | http/cpp-httplib/httplib.h:2587-2606 | The scan by positions yields the non-empty trimmed pieces between delimiters |
| `Fields.SplitScanIsSplit` | http/cpp-httplib/httplib.h:2587-2606 | Splitting by positions is splitting by pieces |
| `Fields.CollectPairs` | http/cpp-httplib/httplib.h:4347-4369 | Pieces to key and value, with repeated pieces dropped |
| `Fields.ParseHeader` | http/cpp-httplib/httplib.h:3791-3825 | The field of a header line, or none, with the value decoded unless it is a location |
| `Url.DecodeEncode` | http/cpp-httplib/httplib.h:2451-2470 | Decoding undoes encoding for every byte string, whether `+` means a space or not |
| `Url.EncodeAlphabet` | http/cpp-httplib/httplib.h:2451-2470 | Encoded text has unreserved bytes and percent triplets only |
| `Url.DecodeShrinks` | http/cpp-httplib/httplib.h:2504-2539 | Decoding never makes a text longer |
| `Url.EncodeQueryParam` | http/cpp-httplib/httplib.h:2451-2470 | The loop computes the encoding |
| `Url.DecodeUrl` | http/cpp-httplib/httplib.h:2504-2539 | The loop computes the decoding, with the forms `%XX`, `%uXXXX` and `+` |
| `Url.FromHexToInt` | http/cpp-httplib/httplib.h:2306-2321 | A number from a fixed count of hexadecimal digits, or none |
| `Query.MultimapComesBack` | http/cpp-httplib/httplib.h:4301-4334 | Every multimap of distinct pairs whose keys survive comes back from its query string, whatever the order of the keys |
| `QueryKeys.PairComesBack` | http/cpp-httplib/httplib.h:4301-4334 | A pair comes back from its query string if and only if its key is not empty, has no `&`, no `=` and no blank at an end, and decodes to itself |
| `QueryKeys.PiecesRead` | http/cpp-httplib/httplib.h:4313-4334 | Whatever the key of a written pair: each piece of its text is read with a shorter key, with the value as key, or as it was written |
| `Query.PairsComeBack` | http/cpp-httplib/httplib.h:4301-4334 | For any list of pairs: what is written is read back, except that a repeated pair is read once |
| `Query.UnreservedSurvives` | http/cpp-httplib/httplib.h:4301-4334 | Non-empty unreserved keys survive |
| `Query.QuerySplits` | http/cpp-httplib/httplib.h:4301-4334 | The query splits into the texts of its pairs and nothing else |
| `Query.PairTextInjective` | http/cpp-httplib/httplib.h:4313-4319 | Different pairs have different texts, so the cache drops repeats only |
| `Query.ParamsToQueryStr` | http/cpp-httplib/httplib.h:4301-4311 | The loop writes the pairs with separators between them |
| `Query.ParseQueryText` | http/cpp-httplib/httplib.h:4313-4334 | The nested splits gather the decoded pairs |
| `Stream.SocketStream.Read` | http/cpp-httplib/httplib.h:5503-5547 | For every sequence of sizes and socket results the bytes handed out, followed by those buffered and those to come, are the bytes of the stream; a socket that does not fail gives something while there is something |
| `Stream.SocketStream.ReadThrough` | http/cpp-httplib/httplib.h:5524-5546 | A small read fills the buffer first and leaves in it exactly what was not asked for |
| `Stream.StreamLineReader.GetLine` | http/cpp-httplib/httplib.h:2635-2659 | A line is exactly the bytes through the next line feed, in the fixed or the growing buffer, and nothing behind it is consumed |
| `Stream.StreamLineReader.Append` | http/cpp-httplib/httplib.h:2661-2672 | The switch from the fixed to the growing buffer keeps the line |
| `Stream.LineEnds` | http/cpp-httplib/httplib.h:2635-2659 | A stream that starts with a line has it as its first line |
| `Chunked.BodyComesBack` | http/cpp-httplib/httplib.h:4162-4263 | A reader accepts what the writer has put on the stream exactly if `done` was among the requests; it gets what was written before the first one, with its trailer fields, and stops behind it |
| `Chunked.ChunkIsRead` | http/cpp-httplib/httplib.h:4178-4196 | A chunk puts its data before the content that follows; an empty write puts nothing |
| `Chunked.UnfinishedIsRefused` | http/cpp-httplib/httplib.h:3915-3948 | Without a last chunk no content is accepted |
| `Chunked.TrailerComesBack` | http/cpp-httplib/httplib.h:3950-3967 | Trailer fields are read one by one up to the empty line |
| `Chunked.SizeComesBack` | http/cpp-httplib/httplib.h:2323-2331 | `strtoul` gives back the size that was printed |
| `Chunked.FromIToHex` | http/cpp-httplib/httplib.h:2323-2331 | The digits of a number, without leading zeros |
| `ChunkedTransfer.Transfer` | http/cpp-httplib/httplib.h:3915-3967 | Writer and reader together, under any pattern of short reads: success exactly if `done` was performed, and then exactly the content before it |
| `ChunkedTransfer.ReadContentChunked` | http/cpp-httplib/httplib.h:3915-3967 | What is accepted is a chunked body at the front of the byte stream; on a socket that does not fail every such body is accepted; nothing behind it is consumed |
| `ChunkedTransfer.ReadChunkLoop` | http/cpp-httplib/httplib.h:3927-3948 | The loop over chunks delivers their data in order |
| `ChunkedTransfer.ReadTrailerLoop` | http/cpp-httplib/httplib.h:3953-3964 | The loop over trailer fields adds each to the headers, whose keys ignore case |
| `ChunkedTransfer.ReadContentWithLength` | http/cpp-httplib/httplib.h:3866-3886 | Exactly `len` bytes are delivered and consumed, if the stream has them |
| `ChunkedTransfer.WriteContentChunked` | http/cpp-httplib/httplib.h:4162-4263 | The loop over the provider performs whole calls while data is available, and reports success exactly if one of them ends the transfer |
| `ChunkedTransfer.EmptyWriteLeavesNoEnd` | http/cpp-httplib/httplib.h:4171-4199 | For every provider: success is reported though the stream has no end, if and only if the first call that ends the transfer ends in an empty write and no request so far was `done` |
| `Ranges.RangeError` | http/cpp-httplib/httplib.h:4758-4811 | Ranges are refused exactly if, normalised, one of them is outside the content, the first positions do not increase, more than two overlap an earlier one, or there are more than 1024; admitted ranges are left normalised in place |
| `Ranges.AdmittedTotal` | http/cpp-httplib/httplib.h:4758-4811 | Admitted ranges are inside the content, in order, and for a content of `n` bytes, two or more, ask for at most `3n - 3` |
| `Ranges.BoundIsTight` | http/cpp-httplib/httplib.h:4786-4806 | Three almost equal ranges are admitted and reach that bound |
| `Ranges.SuffixServed` | http/cpp-httplib/httplib.h:4783-4788 | A suffix range is served exactly if it asks for at least one byte and no more than there are, where RFC 9110 serves the whole content |
| `Ranges.EmptyRangeRefused` | http/cpp-httplib/httplib.h:4778-4781 | The branch for a range with neither position, which no parsed header takes, would have it refused for every content |
| `Ranges.GetRangeOffsetAndLength` | http/cpp-httplib/httplib.h:4813-4821 | The asserts hold for every admitted range, and offset and length stay inside the content |
| `Base64.Base64Encode` | http/cpp-httplib/httplib.h:2367-2393 | For every byte string the accumulator with its 32-bit wrap-around computes the definition by groups of section 4 of RFC 4648 |
| `Base64.SpelledIsEncoded` | http/cpp-httplib/httplib.h:2367-2393 | The symbols byte by byte are those of the groups |
| `Base64.ByteSettles` | http/cpp-httplib/httplib.h:2377-2384 | Whatever the higher bits of the accumulator are, the inner loop appends the symbols that the byte settles |
| `Macaron.Encode` | ws/IXWebSocket/ixwebsocket/IXBase64.h:36-74 | The loop over groups computes the same definition, for two bytes or more |
| `Macaron.LoopStaysInside` | ws/IXWebSocket/ixwebsocket/IXBase64.h:53-58 | The loop reads inside the data exactly if there are two bytes or more |
| `Macaron.DecodeStaysInside` | ws/IXWebSocket/ixwebsocket/IXBase64.h:76-119 | Every read is inside the text and the table if and only if the text is refused for its length, or is not empty and ASCII |
| `Macaron.Decode` | ws/IXWebSocket/ixwebsocket/IXBase64.h:76-119 | For every text on which all reads are inside: the bytes of the groups of four characters, cut to the length that the padding says, or an error for a length that is not a multiple of four |
| `Macaron.DecodeUndoesEncode` | ws/IXWebSocket/ixwebsocket/IXBase64.h:76-119 | Decoding what either encoder makes of a non-empty byte string gives it back |
| `Routes.SubstitutedMatches` | http/cpp-httplib/httplib.h:5647-5688 | Every path got by substituting values without separators is accepted, and exactly those values are captured |
| `Routes.AcceptedIsSubstituted` | http/cpp-httplib/httplib.h:5647-5688 | Only such paths are accepted: substituting the captures gives the path up to one separator at the end |
| `Routes.Compile` | http/cpp-httplib/httplib.h:5602-5645 | The fragments and names of a pattern, or an error if a name occurs twice |
| `Routes.MatchPath` | http/cpp-httplib/httplib.h:5647-5688 | The loop over fragments computes the match |
| `Routes.RouteRequest` | http/cpp-httplib/httplib.h:5602-5688 | The parameters of an accepted path by name |
| `Routes.SamePrefixIs` | http/cpp-httplib/httplib.h:5662-5667 | `strncmp` decides equality as long as one side has no NUL |
| `DbusRoundTrip.ArgumentsComeBack` | dbus/src/module.cpp:354-379 | For every signature and all arguments that `append_values` accepts, the JSON text of the message parses (RFC 8259) to exactly the arguments, in order, with variant tags stripped |
| `DbusRoundTrip.MarshalStrips` | dbus/src/marshal.hpp:20-147 | What the marshaller appends is the script value with its tags stripped, for every type and every nesting |
| `DbusRoundTrip.PrintParses` | dbus/src/module.cpp:227-306 | The printed text of every value parses to that value, whatever may follow a value |
| `DbusRoundTrip.EscapeParses` | dbus/src/module.cpp:174-195 | Every escaped text is read back character by character |
| `DbusRoundTrip.EveryValueMarshals` | dbus/src/marshal.hpp:20-147 | Every well-typed value whose dictionary keys are texts is what the marshaller appends for some script value |
| `DbusValues.MarshalTyped` | dbus/src/marshal.hpp:20-147 | What is appended has the requested type, with every integer in the range of its type |
| `DbusMarshal.AppendValues` | dbus/src/marshal.hpp:4-18 | True exactly if the message gained the values of the signature with all arguments used up; every container opened is closed or abandoned either way |
| `DbusMarshal.AppendValue` | dbus/src/marshal.hpp:20-147 | One value is appended whole or the message is as it was; the recursion ends, also through variants |
| `DbusMarshal.AppendVariant` | dbus/src/marshal.hpp:23-55 | A variant gets the tagged or the inferred signature, and nothing if its payload does not fit |
| `DbusMarshal.AppendDictionary` | dbus/src/marshal.hpp:64-86 | A dictionary is appended entry by entry or not at all |
| `DbusMarshal.AppendArray` | dbus/src/marshal.hpp:87-104 | An array is appended item by item or not at all |
| `DbusMarshal.AppendStruct` | dbus/src/marshal.hpp:87-104 | A structure is appended if the items match its fields in number and type |
| `DbusJson.AppendEscaped` | dbus/src/module.cpp:174-195 | The loop appends the quoted and escaped text |
| `DbusJson.AppendValueJson` | dbus/src/module.cpp:282-306 | The text of a value is appended behind what is there |
| `DbusJson.AppendItems` | dbus/src/module.cpp:249-275 | Items are printed in brackets with commas between them |
| `DbusJson.AppendEntries` | dbus/src/module.cpp:233-248 | Entries are printed in braces with quoted keys |
| `DbusJson.ArgsJson` | dbus/src/module.cpp:361-379 | The argument list is printed as one array |
| `DbusCalls.SettledAtMostOnce` | dbus/src/module.cpp:779-863 | In every reachable state a promise has been settled at most once, only by the reply to its own serial on its own connection, by a timeout that was due, by the loss of a connection that was opened no earlier than the one of its creation and has been replaced since, or by its connect outcome, and its handles have been released exactly once if it is no longer pending and not before |
| `DbusCalls.ReplySettlesItsOwnCall` | dbus/src/module.cpp:391-409 | No two promises are settled by the same reply |
| `DbusCalls.NoReplyMissesItsEntry` | dbus/src/module.cpp:388-409 | When the reply to a pending call is popped, the call is found in the map, or its settlement is already on its way |
| `DbusCalls.UpdateSettles` | dbus/src/module.cpp:783-863 | Once an update is over, every promise that was expired or had an item queued when it began is no longer pending and is released, whatever the other threads did meanwhile |
| `DbusCalls.HistoryGrows` | dbus/src/module.cpp:910-960 | Settlements and releases are never undone, and nothing follows shutdown |
| `DbusCalls.StepKeepsInv` | dbus/src/module.cpp:382-422 | Every step of every thread keeps the invariant |
| `DbusCalls.CallKeepsWaiting` | dbus/src/module.cpp:674-682 | Every step keeps a pending call recognisable or its settlement under way |
| `DbusUpdate.Bus.Update` | dbus/src/module.cpp:783-863 | One update leaves pending exactly the promises that were neither expired nor had an item queued |
| `DbusUpdate.Bus.CollectTimeouts` | dbus/src/module.cpp:784-804 | The nested loops list every expired promise once and erase exactly the serials of those |
| `DbusUpdate.Bus.DropSerials` | dbus/src/module.cpp:793-798 | The inner loop erases exactly the serials of one promise |
| `DbusUpdate.Bus.SettleItems` | dbus/src/module.cpp:814-863 | The first item of a promise decides, later ones are skipped |
| `DbusUpdate.Bus.SendAndRegister` | dbus/src/module.cpp:673-682 | Under one lock the serial is sent and entered into the map |
| `DbusUpdate.Bus.PopReply` | dbus/src/module.cpp:388-401 | The entry of the serial is found and erased |
| `DbusUpdate.Bus.FailPending` | dbus/src/module.cpp:442-448 | A lost connection forgets all serials and queues one rejection for every pending promise |
| `DbusUpdate.Bus.ReleaseAll` | dbus/src/module.cpp:926-945 | Shutdown releases every pending promise once and settles none |
| `DbusConnect.NoLostWakeUp` | dbus/src/module.cpp:482-532 | While not shutting down, a waiter implies a connector that has yet to collect it, or one about to be started |
| `DbusConnect.EveryPromiseIsTold` | dbus/src/module.cpp:482-532 | When no step of a connect call or of the connector is left, every connect promise has been told its outcome exactly once |
| `DbusConnect.InternalStepsEnd` | dbus/src/module.cpp:482-532 | Such steps cannot go on for ever |
| `DbusConnect.ToldAtMostOnce` | dbus/src/module.cpp:482-532 | No connect promise is told twice, and a waiter is told the outcome of the attempt that it joined |
| `DbusConnect.ShutdownForgetsTheRest` | dbus/src/module.cpp:910-920 | At the end of shutdown each connect promise was told once or forgotten once, and no connector is left |
| `DbusConnect.StepKeepsPlaces` | dbus/src/module.cpp:482-532 | Every step moves connect promises between places without losing or doubling one |
| `DbusConnect.Connecting.Join` | dbus/src/module.cpp:484-494 | Under the lock a promise is told at once or becomes a waiter, and exactly the first waiter starts a connector |
| `DbusConnect.Connecting.TakeWaiters` | dbus/src/module.cpp:521-526 | All waiters are taken and the flag is cleared under one lock |
| `DbusConnect.Connecting.TellWaiters` | dbus/src/module.cpp:527-531 | Every waiter taken is told the same outcome |
| `DbusService.ReleasedOnce` | dbus/src/service.hpp:130-187 | In every reachable state a received call is owned in exactly one place, or its message was released exactly once; after shutdown it was released; a call that wants no answer got none |
| `DbusService.AnsweredAtMostOnce` | dbus/src/service.hpp:2-41 | No message is released, and so none answered, twice |
| `DbusService.ReleasesGrow` | dbus/src/module.cpp:910-960 | Releases are never undone, and nothing follows shutdown |
| `DbusService.UnexportEndsItsCalls` | dbus/src/service.hpp:58-76 | Removing an export answers every pending call of that object interface and touches no other |
| `DbusService.ServiceKeyInjective` | dbus/src/service.hpp:43-45 | A key stands for one path and one interface |
| `DbusService.KnownPathMeans` | dbus/src/service.hpp:142-144 | The scan over keys finds a path exactly if some interface of that object is exported |
| `DbusService.StepKeepsInv` | dbus/src/service.hpp:130-187 | Every step keeps the ownership of messages, also when handlers reply, unexport or reconnect while they are called |
| `DbusService.Service.FinishInvocation` | dbus/src/service.hpp:11-41 | A reply with arguments that do not fit leaves the call open; one that fits answers, releases and forgets it |
| `DbusService.Service.UnexportObject` | dbus/src/service.hpp:58-76 | The loop that erases while it iterates ends exactly the calls of the object interface |
| `DbusService.Service.LoseConnection` | dbus/src/module.cpp:449-452 | All retained messages are released without an answer |
| `HttpWorker.JobsInOrder` | http/src/Http.cpp:152-160 | In every reachable state the jobs submitted are those handed out, done, in hand and waiting, in this order; the queue is never popped empty; a worker that blocks with a job waiting has a release to wake it |
| `HttpWorker.WorkerComesCloser` | http/src/Http.cpp:152-160 | Every step of a running worker takes the next waiting job or comes closer to it |
| `HttpWorker.WorkerExits` | http/src/Http.cpp:144-160 | After the store and the release of the destructor the worker always has a step, each brings it closer to its end, and no other thread moves it back |
| `HttpWorker.SecondReleaseFindsCounterAtOne` | http/src/Http.hpp:83-84 | After two requests in a row, with every release before in contract, the next release finds the counter of the binary semaphore at 1, which the standard does not allow |
| `HttpWorker.ReleaseInContract` | http/src/Http.hpp:83-84 | After any run whose releases were in contract, or each added one: the counter is releases less acquires, and the next release is in contract if and only if every release before has been acquired |
| `HttpWorker.DoneIsNotAcquired` | http/src/Http.hpp:83-84 | To wait for a job to be handed out is not enough: a worker that finds the queue not empty takes the job without an acquire, and the next release is out of contract |
| `HttpWorker.StepKeepsInv` | http/src/Http.cpp:152-160 | Every step keeps order and wake-up |
| `HttpWorker.Http.Request` | http/src/Http.hpp:70-85 | The job is queued last and a release follows |
| `HttpWorker.Http.TakeJob` | http/src/Http.cpp:160 | The oldest job leaves the queue, which is never empty then |
| `HttpWorker.Http.Perform` | http/src/Http.cpp:161-180 | A job with parts is sent with the multipart body of those parts, any other with its own, and its result is queued last |
| `HttpWorker.Http.DrainAll` | http/src/Http.cpp:335-342 | Every finished job is handed out once, oldest first |
| `HttpPromises.SettledAtMostOnce` | http/src/module.cpp:103-215 | A request promise is settled at most once, its handles are released at most once, and exactly once by the end of cleanup |
| `HttpPromises.NothingAfterCleanup` | http/src/module.cpp:196-215 | From cleanup on nothing is settled, and from its end on nothing is released, whatever tasks the host still has |
| `HttpPromises.StepKeepsInv` | http/src/module.cpp:103-215 | Every step of the three threads keeps each promise pending, held or released, and only one of these |
| `HttpPromises.Context.SettleRequest` | http/src/module.cpp:113-172 | A task settles and releases its promise, or does nothing if that was done or the context is gone |
| `HttpPromises.Context.CleanupContext` | http/src/module.cpp:196-215 | Every promise still pending is released once and none is settled |
| `Inet.RoundTrip6` | ws/IXWebSocket/ixwebsocket/IXNetSystem.cpp:297-446 | Every 16-byte address comes back from its text, with a run left out or not, at the start, in the middle or at the end, and when IPv4-mapped |
| `Inet.RoundTrip4` | ws/IXWebSocket/ixwebsocket/IXNetSystem.cpp:297-390 | Every 4-byte address comes back from its text |
| `Inet.PrintsMapped` | ws/IXWebSocket/ixwebsocket/IXNetSystem.cpp:309-347 | An IPv4-mapped address is printed as `::ffff:` and the dotted text of its last bytes |
| `InetPrint.CompressesLongestRun` | ws/IXWebSocket/ixwebsocket/IXNetSystem.cpp:336-347 | The characters replaced are exactly a longest run of zero groups, of two or more; without one the text stays |
| `InetTies.FirstIsLeftOut` | ws/IXWebSocket/ixwebsocket/IXNetSystem.cpp:336-347 | The run left out is the first of the longest, as section 4.2.3 of RFC 5952 asks, if and only if this one does not start the address or no other run as long has groups on both sides |
| `InetTies.WhichRun` | ws/IXWebSocket/ixwebsocket/IXNetSystem.cpp:336-347 | For every address with a run to leave out: it is the first longest one, or in a tie of that kind the first with groups on both sides |
| `InetTies.LaterIsLeftOut` | ws/IXWebSocket/ixwebsocket/IXNetSystem.cpp:336-347 | Such an address: 0:0:1:0:0:1:1:1 is printed as `0:0:1::1:1:1` |
| `InetPrint.SpanOfJoin` | ws/IXWebSocket/ixwebsocket/IXNetSystem.cpp:341-342 | A run of colons and zeros covers whole zero groups |
| `InetPrint.BestIs` | ws/IXWebSocket/ixwebsocket/IXNetSystem.cpp:337-342 | The scan ends on a candidate than which none has a longer run |
| `InetParse.ParsesShort` | ws/IXWebSocket/ixwebsocket/IXNetSystem.cpp:397-441 | `::` stands for as many zero groups as are missing, wherever it stands (section 2.2 of RFC 4291) |
| `InetParse.ParsesFull` | ws/IXWebSocket/ixwebsocket/IXNetSystem.cpp:397-441 | Eight groups of one to four digits in either case denote themselves |
| `InetParse.ParsesMapped` | ws/IXWebSocket/ixwebsocket/IXNetSystem.cpp:419-442 | A dotted tail replaces the last two groups |
| `InetParse.ParsesDotted` | ws/IXWebSocket/ixwebsocket/IXNetSystem.cpp:383-395 | Four octets without leading zeros denote themselves |
| `InetParse.ScanFits` | ws/IXWebSocket/ixwebsocket/IXNetSystem.cpp:397-441 | Whatever the text, every group that the loop stores fits sixteen bits |
| `InetParse.GarbageStaysInside` | ws/IXWebSocket/ixwebsocket/IXNetSystem.cpp:379-446 | What the uninitialised array of groups holds never shows in the result |
| `InetBuffers.InetNtop6` | ws/IXWebSocket/ixwebsocket/IXNetSystem.cpp:297-361 | The text is produced in the buffer in place, and refused exactly if it does not fit |
| `InetBuffers.InetNtop4` | ws/IXWebSocket/ixwebsocket/IXNetSystem.cpp:306-310 | The dotted text, refused exactly if it does not fit |
| `InetBuffers.CompressBuffer` | ws/IXWebSocket/ixwebsocket/IXNetSystem.cpp:336-347 | The overlapping move inside the buffer computes the compressed text |
| `InetBuffers.FindBest` | ws/IXWebSocket/ixwebsocket/IXNetSystem.cpp:337-342 | The loop finds the best candidate |
| `InetBuffers.InetPton6` | ws/IXWebSocket/ixwebsocket/IXNetSystem.cpp:376-446 | The loop over groups, the shift inside the array and the dotted tail compute the conversion |
| `InetBuffers.InetPton4` | ws/IXWebSocket/ixwebsocket/IXNetSystem.cpp:383-395 | The loop over octets computes the conversion and leaves the bytes before it alone |
| `InetBuffers.ExpandInPlace` | ws/IXWebSocket/ixwebsocket/IXNetSystem.cpp:430-435 | The overlapping move inside the array puts the groups behind `::` last and zeros before them |
| `InetBuffers.PrintAndParse` | ws/IXWebSocket/ixwebsocket/IXNetSystem.cpp:297-446 | Printing into a large enough buffer and parsing gives the address back |

## Left out

- Doubles: numbers that are not integers, the `d` type code and `%.17g` are not modelled; a message never holds them.
- BigInt arguments: their wrap-around in `append_value` is not modelled.
- Allocation failure and the branches that throw out of memory.
- Wrap-around of 32-bit promise ids, serials and invocation ids.
- `decode_reply` beyond its use as the outcome of a call, and the single-argument fast path of `js_call`: easier copies of what is modelled.
- Signals: the signal queue and its handlers.
- Receivers that refuse data, such as the limit on the number of files, and progress callbacks.
- Exceptions of the worker, such as that of `std::stoi` for a port out of range.
- `std::regex`: the pattern for a content disposition is a prefix match without regard to case; the URL pattern of the worker is part of the transport parameter.
- Multipart bodies with an epilogue other than the last line break.
- `ChunkedTransfer.WriteContentChunked`: the stream takes every write and the server is not shutting down; compressors are the identity.
- `DbusService.Service.FinishInvocation`: whether the arguments of a reply fit its signature is a parameter; what fits is said by `DbusMarshal.AppendValues`.
- `DbusRoundTrip.EveryValueMarshals`: integers of 64-bit types beyond 2^53 - 1, which a script number cannot hold, are not values of the model.
- `HttpWorker.StepKeepsInv`: for releases that leave the counter between 1 and one more than it was.
- `MultipartExact.RoundTripExactly`: requires header lines below the limit of 8192 bytes, since the limit is checked against what has arrived and the outcome beyond it depends on the fragments; for fragments that cut the first delimiter line it also requires filenames free of `;`, `=`, CR and LF.
- `MultipartRoundTrip.RoundTrip`: the direction with all conditions met; `MultipartExact.RoundTripExactly` has both.
- `Query.MultimapComesBack`: all keys are required to survive, which `QueryKeys.PairComesBack` shows to be the exact condition for one pair; keys are written without encoding.
- `Macaron.Encode`: requires two bytes or more, because the loop bound wraps around below that.
- `Macaron.Decode`: requires what `Macaron.DecodeStaysInside` shows to be needed, because the code reads out of bounds otherwise.
- `DbusUpdate.Bus.Update`: one update without interruption; interruptions are covered by `DbusCalls.UpdateSettles`.
- Jobs that are still waiting when the worker is told to stop: they are not performed, and nothing is claimed about their callbacks.
- Sockets, TLS, DNS, WinHTTP, compression, FFmpeg, PAM, SQLite and process handling; `ThreadPool`, backoff, MIME tables and the other plugins, whose worker pattern is the one modelled.
