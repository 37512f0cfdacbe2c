# A verified model of the Wye service and its libraries

Wye is a small streaming service. A daemon takes requests over HTTP, keeps a registry of jobs and
workers, and starts worker programs that connect to each other. This project models the parts of
it that are easiest to get wrong, in Dafny, and proves what they promise. `dafny verify
dfyconfig.toml` checks all of it.

The modules follow the program.

**The HTTP server library**

- `Tokenizer`, `RequestMeaning`, `RequestContents`, `RequestReader`, `RequestRuns`,
  `RequestHeads`, `WrittenStreams`, `RequestExamples`: the incremental request reader.
  `Tokenizer` says what the reader may rely on: a byte stream holds, from any offset on, a fixed
  script of tokens that follow the grammar of requests, and a token is delivered once its bytes
  are in view. `RequestMeaning` says what a script means, token by token, without any buffer, and
  `RequestContents` that this is what the bytes spell out: which part of the record is the text of
  which tokens. `RequestReader` is the socket's reading half with its fields and its buffer of
  fixed size, and every method is proved to keep the fields equal to that meaning, and the buffer
  equal to the open field name followed by the received but unparsed bytes. `RequestRuns` and
  `RequestHeads` conclude that the caller gets the same requests however the stream is cut into
  reads. `WrittenStreams` and `RequestExamples` write two requests out. `Slices` holds facts about
  moving bytes.
- `ResponseWriter`, `Chunked`: the writing half as a class, an independent state machine over its
  events, the protocol it accepts over whole runs, and the recipient's chunked decoder.
- `Recipient`, `ResponsesRead`: a recipient of responses after RFC 7230, and what it reads of the
  socket's answers.
- `ConnectionRuns`, `ReaderEvents`: the keep-alive decision, which both halves move, over whole
  runs, and the reader's tokens as events of the writer's machine.
- `HeaderLists`, `Numbers`, `HttpDates`: the comma-list scanner and the predicates that run
  through it, decimal and hexadecimal digits in bounded integers, and HTTP dates.
- `Ranges`, `Transmit`, `Multipart`, `DotSegments`: the file server's range header, its two
  resumable transmitters, its one-shot multipart body, and the resolving of dots in paths.
- `ByteRanges`, `ByteRangesRead`: a recipient of multipart/byteranges bodies, and what it reads of
  the file server's.

**The process library**

- `FileHandles`: ownership of descriptors by handles that move when they are copied.
- `Descriptors`, `Launch`: the child's descriptor table as map updates under `dup2`, `close` and
  `open`, the loops over the info maps, and the parent's streams.

**The service**

- `OutputArguments`, `Handshake`, `Deployment`: printing and parsing of output addresses, the
  handshake with a started program, the deployment of a job, and the wiring that results.
- `Registry`, `RegistryThreads`: the manager's operations one at a time and over whole runs, and
  the same operations as interleaved steps under two locks.

`Text` and `Results` are shared helpers.

What the proofs brought out about the code:

- The resumable multipart writer seeks to the first byte of a part each time it re-enters that
  state (`file_server.hpp:715`). A part split over two buffers is therefore sent wrong.
  `ResumesAsOneShot` gives the exact condition: the two writers agree for every file if and only
  if no part body is split over two buffers. A part longer than the buffer always is
  (`LongPartSplits`, `WritersDiffer`). Lengths and framing always agree.
- Captured streams can destroy each other in the child when a later pipe happens to be made of
  the target of an earlier stream (`CapturesClash`). `ChildTable` gives the exact condition for
  the entries, and `LaunchExactly` for a launch, in terms of the descriptors open in the parent.
  The service's own launch is safe: for every state of the parent the child gets what `RunGives`
  says.
- A connection field among the trailers also moves the keep-alive decision (`socket-inl.hpp:718`),
  and a read for the headers may have parsed trailers already. `KeepAliveSettled` says exactly
  when the decision is that of the head, and `DecisionDependsOnTheRead` shows a request for which
  it depends on how much the read brought. Method, path, headers and version are fixed from the
  end of the headers on, and everything is at the end of the message.
- Since a version resets the decision and clearing the buffer does not close it
  (`socket-inl.hpp:684,827-834`), an answer to a request whose head was broken off behind the
  version is sent without "connection: close", and then the socket is closed (`UnannouncedClose`).
  `CloseIsAnnounced` and `AnnouncedUnlessAbandoned` say exactly when this happens.
- A chunked answer whose head kept the connection is followed by closing it when a trailer of the
  request that says close is read before the answer's end (`UnannouncedByTrailer`);
  `ChunkedCloseIsAnnounced` gives the exact condition.
- A body given with status 304 is sent, with its length (`socket-inl.hpp:177-180`), but no
  recipient takes it for one (section 3.3.3 of RFC 7230): `ReplyRead` says what is left over.
- Assigning to a file handle that is valid, even to itself, loses its descriptor unclosed, and
  remapping a handle to the descriptor it already owns closes that descriptor (`LostExactly`,
  `OwnedExactly`).
- A worker whose launch throws stays registered as running without a process, and the background
  poll then throws with nobody to catch it (`PollCrashesExactly`).
- A comment in `reader/detail/common.hpp:31-32` says that every field has a byte that is no white
  space. The tokenizer delivers empty values, and the model follows it; the code's loop over the
  trailing blanks does not provide for them.

## Model

| member | source | states |
|---|---|---|
| `Tokenizer.Parser.Next` | http/include/boost/http/reader/request.hpp:66-71 | one call returns the next token of the script once its bytes (and its look-ahead) are in view, a body or skipped run in any non-empty piece, and says "insufficient data" only when the view is too short for that |
| `RequestMeaning.MeaningGrows` | http/include/boost/http/socket-inl.hpp:641-782 | handling one more piece of a token, or the whole of it, takes the meaning of k tokens and d bytes to the meaning of what is delivered then; pieces of a body add up |
| `RequestReader.Reader.OnFieldName` | http/include/boost/http/socket-inl.hpp:693-706 | the name is lower-cased where it stands in the buffer, its size kept, and no other byte changes |
| `RequestReader.Reader.OnFieldValue` | http/include/boost/http/socket-inl.hpp:707-746 | the field goes to headers or trailers under the name found in the buffer, a connection header moves the keep-alive decision, an old peer's expect and upgrade are dropped |
| `RequestReader.Reader.OnEndOfHeaders` | http/include/boost/http/socket-inl.hpp:747-762 | message ready, write state reset, more than one expect header erased, and the keep-alive decision closed by the version |
| `RequestReader.Reader.HandleToken` | http/include/boost/http/socket-inl.hpp:641-782 | every branch of the switch acts on the fields as the token's meaning says, and on the buffer only for a field name |
| `RequestReader.Reader.Turn` | http/include/boost/http/socket-inl.hpp:639-785 | one round of the loop keeps the loop invariant: fields equal the meaning of the tokens delivered, the buffer from `nparsed` on is the stream from that position on, the open name stands before it; none follows the end of a message |
| `RequestReader.Reader.Compact` | http/include/boost/http/socket-inl.hpp:787-799 | the copying behind the loop leaves the open name and then exactly the unparsed bytes at the front, none lost, repeated or reordered |
| `RequestReader.Reader.Parse` | http/include/boost/http/socket-inl.hpp:639-799 | the loop ends, keeps the invariant between calls, and its flags say exactly which tokens were seen |
| `RequestReader.Reader.OnAsyncReadMessage` | http/include/boost/http/socket-inl.hpp:608-824 | from any valid state to a valid state: it succeeds exactly if the target token (or more of the body) was seen, an error clears the buffer, a pending read has room in the buffer, and "buffer exhausted" is said only when the buffer is full and too small for the open name and the next token together |
| `RequestReader.Reader.Schedule` | http/include/boost/http/socket-inl.hpp:586-606 | repeats the reads until the target is reached: it ends, succeeds exactly if it got there, reports a parsing error only at an error token, and only a request read delivers version or end-of-headers tokens |
| `RequestReader.Reader.ClearBuffer` | http/include/boost/http/socket-inl.hpp:827-834 | what an error leaves: nothing buffered, nothing expected, both states reset, the tokenizer starting anew behind the received bytes |
| `RequestReader.Reader.ReadRequest` | http/include/boost/http/socket-inl.hpp:62-89 | refused without any change unless the read state is empty; otherwise reads to the end of the headers, starting a new request exactly if the last one is read to its end |
| `RequestReader.Reader.ReadSome` | http/include/boost/http/socket-inl.hpp:96-117 | refused without any change unless a message is ready; otherwise success exactly if there is more of the body or the end of the message |
| `RequestReader.Reader.ReadTrailers` | http/include/boost/http/socket-inl.hpp:124-147 | refused without any change unless the body is ready; success means the end of the message |
| `RequestMeaning.HeadLasts` | http/include/boost/http/socket-inl.hpp:747-781 | the read state is empty exactly from the end of a message to the end of the next headers |
| `RequestMeaning.NoHead` | http/include/boost/http/socket-inl.hpp:665-762 | between the end of the headers and the end of the message no token of a head comes, so the reads of the body and the trailers never set the version nor reset the write state |
| `RequestContents.OnceEach` | http/include/boost/http/socket-inl.hpp:665-762 | from the start of a request to its end there is one method, one target, one version and one end of the headers |
| `RequestContents.PartsHold` | http/include/boost/http/socket-inl.hpp:641-782 | at every token of a request the record holds the texts of the tokens that have come: method, target, version digit, the names in lower case with the trimmed values behind them as headers or trailers, and the body |
| `RequestContents.EndContains` | http/include/boost/http/socket-inl.hpp:641-782 | at its end the method is the text of the method token, the path that of the target token, the body that of the body tokens one behind the other, the headers and trailers those of the fields before and behind the end of the headers, in order, without an old peer's offers and repeated expects; CONNECT and the version digit decide the flags |
| `RequestContents.ValueDecoded` | http/include/boost/http/reader/detail/common.hpp:18-46 | a value loses exactly its trailing blanks and tabs, but never its first byte |
| `RequestRuns.Overwritten` | http/include/boost/http/socket-inl.hpp:665-685 | two readers whose fields differ when a request begins hold equal fields at its end: whatever an earlier request left is overwritten |
| `RequestRuns.EndedTells` | http/include/boost/http/socket-inl.hpp:608-824 | a reader at the end of a request holds the request that the tokens tell, whatever sequence of reads led there |
| `RequestRuns.SameRequest` | http/include/boost/http/socket-inl.hpp:608-824 | fragmentation independence of one request: two readers of one stream that began at one token and reached the end agree on method, path, headers, body, trailers, version and keep-alive, and on the position in the stream |
| `RequestRuns.ReadWhole` | http/include/boost/http/socket-inl.hpp:62-147 | a caller that reads one request to its end gets the request that its bytes spell out, part by part, in as many reads as it takes, or the channel failed, or an error is among the tokens from there on, or the buffer is full and too small for the next one |
| `RequestRuns.ReadAll` | http/include/boost/http/socket-inl.hpp:62-147 | a caller that reads n requests, pipelined or not, gets the requests that the stream spells out, in order, each once, and fewer than n only for one of these reasons behind the last one it got |
| `RequestRuns.FragmentationIndependence` | http/include/boost/http/socket-inl.hpp:608-824 | two such logs over one stream are equal as far as both go, whatever the fragmentation, the buffer sizes and the grouping of requests into reads |
| `RequestHeads.HeadFixed` | http/include/boost/http/socket-inl.hpp:747-781 | what is told of the head when the headers end is not changed by body and trailers |
| `RequestHeads.SameHeads` | http/include/boost/http/socket-inl.hpp:801-806 | from the end of the headers on, two readers of one stream agree on method, path, headers and version, however much more each has parsed |
| `RequestHeads.ReaderHolds` | http/include/boost/http/socket-inl.hpp:608-824 | wherever its last read stopped, a reader holds the texts of the tokens that have come, the delivered piece of a body included |
| `RequestHeads.KeepAliveOfHead` | http/include/boost/http/socket-inl.hpp:718-761 | the keep-alive decision at the end of the headers is a function of the headers the caller gets: close in any connection header, else keep-alive in any, else the version |
| `RequestHeads.KeepAliveOfTail` | http/include/boost/http/socket-inl.hpp:707-746 | from the end of the headers on the decision is that of the head, moved by the connection trailers told so far and by nothing else |
| `RequestHeads.KeepAliveSettled` | http/include/boost/http/socket-inl.hpp:718-761 | it is still the head's decision exactly if the head already said close, or no trailer told so far does |
| `RequestHeads.ReaderKeepsAlive` | http/include/boost/http/socket-inl.hpp:801-806 | the same of a reader, wherever its last read stopped behind the end of the headers, if no answer that says close was written between its reads (with one, see DecisionIs): this is how far the decision depends on the reads |
| `RequestExamples.DecisionDependsOnTheRead` | http/include/boost/http/socket-inl.hpp:718-737 | one request, written out, whose head keeps the connection and whose trailer closes it: a read that stops at the end of the headers and one that parses on have different decisions |
| `RequestExamples.EmptyValuesAllowed` | http/include/boost/http/reader/request.ipp:151-152 | a request with an empty host and an empty trailer is within the grammar, and its empty header is told |
| `HeaderLists.HeaderValueAnyOf` | http/include/boost/http/algorithm/header/header_value_any_of.hpp:27-64 | the scanner ends and feeds a (stateful) predicate the trimmed non-empty pieces between commas, in order, stopping at the first true |
| `HeaderLists.HeaderValueAllOf` | http/include/boost/http/algorithm/header.hpp:349-385 | the twin loop is true exactly if the predicate holds of every such element |
| `HeaderLists.HeaderValueNoneOf` | http/include/boost/http/algorithm/header.hpp:387-393 | true exactly if the predicate holds of no element |
| `HeaderLists.AnyOfIsExists` | http/include/boost/http/algorithm/header/header_value_any_of.hpp:27-64 | for a predicate without state the scanner finds exactly if some element satisfies it |
| `HeaderLists.AllOfIsDual` | http/include/boost/http/algorithm/header.hpp:349-385 | on every value, all of p equals not any of not p |
| `HeaderLists.ElementsOfJoined` | http/include/boost/http/algorithm/header/header_value_any_of.hpp:27-64 | a list written with commas is read back element by element |
| `HeaderLists.ElementsOfPadded` | http/include/boost/http/algorithm/header/header_value_any_of.hpp:27-64 | blanks and tabs around the elements of a list, and empty elements, are not read |
| `HeaderLists.TokensRead` | http/include/boost/http/socket-inl.hpp:718-737 | the tokens close, keep-alive and chunked count in any case of their letters, and no other does |
| `HeaderLists.DecodeTransferEncodingP.Call` | http/include/boost/http/reader/detail/transfer_encoding.hpp:45-73 | one call of the predicate object moves its count and verdict, and stops, as the pure step says |
| `HeaderLists.DecodeTransferEncoding` | http/include/boost/http/reader/detail/transfer_encoding.hpp:79-85 | not found, at end, or invalid: exactly no element is chunked, exactly the last one is, or anything else (section 3.3.1 of RFC 7230) |
| `HeaderLists.CodingsClassified` | http/include/boost/http/reader/detail/transfer_encoding.hpp:45-85 | the predicate's run over any list ends in that classification although it stops early |
| `HeaderLists.Connections` | http/include/boost/http/socket-inl.hpp:718-737 | over any number of connection headers in any order: close wins wherever it stands, and nothing later undoes it |
| `HeaderLists.KeepAliveDecision` | http/include/boost/http/socket-inl.hpp:718-761 | with the version at the end of the headers: close, else keep-alive, else the version (section 6.3 of RFC 7230) |
| `Numbers.FromDecimalString` | http/include/boost/http/algorithm/header.hpp:43-77 | for every digit string and every maximum of at least 9 the exact value or an overflow error, exactly if the value exceeds the maximum; no product or sum on the way exceeds it |
| `Numbers.AppendNumber` | http/include/boost/http/algorithm/header.hpp:260-269 | appends N digits filled from the end of a small buffer |
| `Numbers.DigitsVal` | http/include/boost/http/algorithm/header.hpp:260-269 | these digits denote the number modulo the N-th power of ten |
| `Numbers.DigitsOfVal` | http/include/boost/http/algorithm/header.hpp:260-269 | printing in N digits inverts reading of N digits |
| `Numbers.ToStringVal` | http/include/boost/http/socket-inl.hpp:190-195 | the decimal text of a number is digits that denote it |
| `Numbers.ToHexVal` | http/include/boost/http/socket-inl.hpp:417-423 | the hexadecimal text of a chunk size is digits that denote it |
| `HttpDates.ToHttpDate` | http/include/boost/http/algorithm/header.hpp:286-347 | prints the 29 characters of the preferred date format, with the name of the date's weekday |
| `HttpDates.WeekdaysFollow` | http/include/boost/http/algorithm/header.hpp:296-309 | the weekday of the next date of the calendar is the next weekday, over ends of months and years, leap years included |
| `HttpDates.Anchor` | http/include/boost/http/algorithm/header.hpp:296-309 | 6 November 1994 is a Sunday, as in the examples of RFC 7231, which fixes all others |
| `HttpDates.Rfc1123` | http/include/boost/http/algorithm/header.hpp:116-160 | answers with exactly the date that the layout denotes, or false: layout, ranges of hour, minute and second, and the calendar all checked, the day name not |
| `HttpDates.RoundTrip` | http/include/boost/http/algorithm/header.hpp:116-160 | reading a printed date gives it back, for every valid date from 1400 to 9999 and every second of the day |
| `HttpDates.ReadInvertsPrint` | http/include/boost/http/algorithm/header.hpp:116-160 | a text without a leap second is read as t exactly if t prints as that text under some day name |
| `HttpDates.PrintedExactly` | http/include/boost/http/algorithm/header.hpp:286-347 | a text is what is printed for t exactly if it is read as t, has no leap second and names t's weekday |
| `HttpDates.ExamplePrinted` | http/include/boost/http/algorithm/header.hpp:286-347 | the example of section 7.1.1.1 of RFC 7231 is printed to the letter |
| `HttpDates.NamesAre` | http/include/boost/http/algorithm/header.hpp:298-330 | the names of the days and months as that section has them |
| `HttpDates.LeapSecondRead` | http/include/boost/http/algorithm/header.hpp:116-160 | a leap second is read, as the second behind the last of its minute |
| `Ranges.IdealSelects` | http/include/boost/http/file_server.hpp:196-256 | the ideal range of an element holds exactly the byte positions that section 2.1 of RFC 7233 gives it, and is no range if it selects none |
| `Ranges.StepIsIdeal` | http/include/boost/http/file_server.hpp:185-268 | one element in 64-bit arithmetic, with its nested exception handlers, does what unbounded integers say: appends the clamped range, skips it, or fails the whole |
| `Ranges.RunIsIdeal` | http/include/boost/http/file_server.hpp:185-271 | over the whole list: exactly the in-order satisfiable ranges before the first malformed element, failing exactly if there is one |
| `Ranges.IsValidRange` | http/include/boost/http/file_server.hpp:159-274 | true exactly if the prefix is there, no element is malformed and some range resulted; the ranges appended are those of the ideal, each with first <= last < size |
| `Ranges.HeaderRead` | http/include/boost/http/file_server.hpp:159-274 | a header written from the three forms of section 2.1 of RFC 7233 is read as the ranges it asks for, in order, clamped to the file, without those that it does not have |
| `Ranges.FromDecimal64` | http/include/boost/http/algorithm/header.hpp:43-77 | the decimal reader at the 64-bit type is the function that the range code uses |
| `Ranges.ToCppRange` | http/include/boost/http/file_server.hpp:282-291 | from first and last to first and length without a wrap, ending where the range ended |
| `ResponseWriter.WriterHelper.WriteMessage` | http/include/boost/http/detail/writer_helper.hpp:39-48 | accepted in the empty and the continue-issued state only; a refused call changes nothing |
| `ResponseWriter.WriterHelper.WriteContinue` | http/include/boost/http/detail/writer_helper.hpp:50-57 | accepted in the empty state only |
| `ResponseWriter.WriterHelper.WriteMetadata` | http/include/boost/http/detail/writer_helper.hpp:59-68 | accepted in the empty and the continue-issued state only |
| `ResponseWriter.WriterHelper.WriteTrailers` | http/include/boost/http/detail/writer_helper.hpp:78-85 | accepted behind the metadata only, and ends the message |
| `ResponseWriter.HasConnectionClose` | http/include/boost/http/socket-inl.hpp:6-25 | true exactly if some connection header has a close element |
| `ResponseWriter.ServerSocket.AsyncWriteResponse` | http/include/boost/http/socket-inl.hpp:153-257 | guard, keep-alive update, whole head and body on the wire, with an implicit length or not, and the socket closed if the connection is not kept |
| `ResponseWriter.ServerSocket.AsyncWriteResponseMetadata` | http/include/boost/http/socket-inl.hpp:296-383 | guard, refusal of chunked framing to an old peer with the write state put back, and the whole head on the wire |
| `ResponseWriter.ServerSocket.AsyncWrite` | http/include/boost/http/socket-inl.hpp:390-439 | guard, nothing for an empty body, else one chunk |
| `ResponseWriter.ServerSocket.AsyncWriteTrailers` | http/include/boost/http/socket-inl.hpp:446-504 | guard, last chunk, trailer fields, empty line |
| `ResponseWriter.ServerSocket.AsyncWriteEndOfMessage` | http/include/boost/http/socket-inl.hpp:511-540 | guard, last chunk and empty line |
| `ResponseWriter.AcceptedIffInProtocol` | http/include/boost/http/detail/writer_helper.hpp:39-94 | the sequences of calls that the guards accept are exactly the prefixes of an optional continue and then either a message, or metadata, writes, and trailers or end |
| `ResponseWriter.RunsFollowProtocol` | http/include/boost/http/socket-inl.hpp:153-540 | in every run of writes and reader events, what was accepted since the last reset is such a prefix |
| `ResponseWriter.AcceptedIffAllowed` | http/include/boost/http/socket-inl.hpp:153-540 | a call is refused exactly if the protocol does not allow it next (or, for metadata, the peer is old), and a refused call leaves the whole state as it was |
| `ResponseWriter.ChunkedOnlyToModern` | http/include/boost/http/socket-inl.hpp:312-326 | in every run chunked framing goes only to a peer that speaks HTTP/1.1 |
| `ResponseWriter.FinalsBounded` | http/include/boost/http/socket-inl.hpp:750-833 | final responses begun are at most one more than the ends of headers and buffer clearings |
| `ResponseWriter.ChunkedResponse` | http/include/boost/http/socket-inl.hpp:376-540 | behind an accepted head, whatever calls follow, the recipient's decoder gives back the bytes of the accepted writes and the trailers once the message is ended, exactly if no trailer breaks its line, and no complete body before |
| `ResponsesRead.HeadRead` | http/include/boost/http/socket-inl.hpp:190-242 | a recipient after sections 3.1 and 3.2 of RFC 7230 reads back version, status, reason and all fields in order, and nothing of what follows, exactly if the status has three digits, the reason is one line, and each field has a name without a colon, is one line and has no blanks around its value |
| `ResponsesRead.ResponseRead` | http/include/boost/http/socket-inl.hpp:153-252 | the recipient of a response reads its status line, the announced close if the socket adds it, the caller's fields, and a length exactly unless the caller gave one or the status has no body; behind the head stands the body, or nothing in that case |
| `ResponsesRead.ReplyRead` | http/include/boost/http/socket-inl.hpp:177-246 | by section 3.3.3 of RFC 7230 it finds exactly the body and nothing behind it; except that a body sent with status 304, which the code does not hold back, is left where the next response should stand |
| `ResponsesRead.ChunkedReplyRead` | http/include/boost/http/socket-inl.hpp:296-540 | the recipient of a chunked answer, with any calls between its head and its end, reads the head, the accepted bodies as one and the trailers, and nothing before the end |
| `ResponsesRead.ContinueRead` | http/include/boost/http/socket-inl.hpp:275-283 | an interim response is read as 100 Continue without fields, and nothing of it is left |
| `ResponseWriter.CloseIsAnnounced` | http/include/boost/http/socket-inl.hpp:182-252 | a response says connection: close exactly when the socket closes behind it, if and only if the decision is made or its own headers close: with an open decision it says nothing and closes |
| `ResponseWriter.ChunkedCloseIsAnnounced` | http/include/boost/http/socket-inl.hpp:330-540 | the same of a chunked answer with any calls and reads between its head and its end: it says so exactly when the socket closes, if and only if it said so, or no connection field read before the end says close and the connection was kept (or such a field says keep-alive) |
| `ConnectionRuns.DecisionIs` | http/include/boost/http/socket-inl.hpp:718-737 | between one version or end of headers and the next the decision is moved, in order, by the connection fields read and the answers that say close, and by nothing else |
| `ConnectionRuns.UndecidedExactly` | http/include/boost/http/socket-inl.hpp:679-761 | in every run the decision is open exactly if it has been so since a version, or from the start, with no end of headers, no connection field with a token and no answer with close since |
| `ConnectionRuns.AnnouncedUnlessAbandoned` | http/include/boost/http/socket-inl.hpp:182-252 | in every run a response whose headers do not close says connection: close exactly when the socket closes, if and only if the last head was not abandoned: no version followed by a clearing of the buffer with nothing that decides since |
| `ConnectionRuns.UnannouncedClose` | http/include/boost/http/socket-inl.hpp:827-834 | from any socket, a parse error behind the version and then an accepted 400: it says nothing and the socket closes |
| `ConnectionRuns.UnannouncedByTrailer` | http/include/boost/http/socket-inl.hpp:718-737 | from any socket, a chunked answer begun before a closing trailer is read: its head said nothing and the socket closes |
| `ReaderEvents.TokenIsEvents` | http/include/boost/http/socket-inl.hpp:641-782 | handling a token moves version, connect and keep-alive as its events do in the writer's machine, whatever state that is in, and opens the writer exactly at the end of the headers |
| `ReaderEvents.RequestIsRun` | http/include/boost/http/socket-inl.hpp:608-824 | the tokens of a request are a run of the writer's machine with every event allowed, and behind any of them both halves of the socket agree on the fields they share |
| `ReaderEvents.ReaderIsRun` | http/include/boost/http/socket-inl.hpp:608-824 | so does a reader, wherever its last read stopped |
| `Chunked.RoundTrip` | http/include/boost/http/socket-inl.hpp:415-530 | a decoder after section 4.1.3 of RFC 7230 undoes any sequence of chunks, last chunk and trailers, and leaves what follows, exactly if no trailer breaks its line |
| `Chunked.NeverEarly` | http/include/boost/http/socket-inl.hpp:410-413 | no sequence of writes, empty ones included, ends the body |
| `Transmit.FileTransmitter.Process` | http/include/boost/http/file_server.hpp:325-359 | one completion: the next buffer is read and written, or the message ended, or the short file reported |
| `Transmit.Drive` | http/include/boost/http/file_server.hpp:325-359 | driven to its end, the transmitter has sent exactly the range, buffer by buffer, and ended the message; if the file is short it has not |
| `Transmit.TransmitRange` | http/include/boost/http/file_server.hpp:1152-1181 | the recipient of a single range decodes exactly file[first..first+length), for every file, range and buffer size; with a short file it finds no complete body; a refused head changes nothing |
| `Multipart.MultiTransmitter.Advance` | http/include/boost/http/file_server.hpp:458-786 | every edge of the thirteen-state machine: next state, its size, the range index, and the switch of a range from last byte to length |
| `Multipart.MultiTransmitter.CopyOut` | http/include/boost/http/file_server.hpp:458-786 | one case of the switch copies the bytes its text or file part has left, as far as the buffer goes; a part starts at its first byte again on re-entry |
| `Multipart.MultiTransmitter.Fill` | http/include/boost/http/file_server.hpp:444-786 | one call fills the buffer to its end unless the body ends first, and writes exactly the next bytes of the machine's output |
| `Multipart.MultiTransmitter.Process` | http/include/boost/http/file_server.hpp:411-790 | one completion of the machine, with the write and, behind the last buffer, the end of the message |
| `Multipart.DriveMulti` | http/include/boost/http/file_server.hpp:411-790 | the machine ends for every checked plan and buffer size; all buffers but the last are full, their bytes are the output defined from the layout, and the recipient decodes just these |
| `Multipart.TransmitRanges` | http/include/boost/http/file_server.hpp:1223-1242 | the recipient of several ranges decodes exactly the machine's output behind an accepted head; a refused head changes nothing |
| `Multipart.OneShot` | http/include/boost/http/file_server.hpp:1248-1327 | the loop writes the flat layout, or reports an error exactly if the body up to the end of its last part is longer than the size type can say |
| `ByteRangesRead.BodyRead` | http/include/boost/http/file_server.hpp:1248-1327 | a recipient after appendix A of RFC 7233 reads the one-shot body as one part for each range, in order, with content type, first and last byte, file size and exactly the bytes of the file, up to the closing delimiter, whenever the delimiter does not occur in the data |
| `ByteRangesRead.OutputRead` | http/include/boost/http/file_server.hpp:411-790 | and the machine's output just so, if no part is split over two buffers |
| `Multipart.BytesCompared` | http/include/boost/http/file_server.hpp:714-720 | byte by byte: framing and length agree with the one-shot body, and a part's byte is read from its first byte on again in every buffer |
| `Multipart.ResumesAsOneShot` | http/include/boost/http/file_server.hpp:714-720 | the machine's output equals the one-shot body for every file of the size exactly if no part body is split over two buffers |
| `Multipart.LongPartSplits` | http/include/boost/http/file_server.hpp:714-720 | a part longer than the buffer is always split, wherever it comes |
| `Multipart.LongPartsDiffer` | http/include/boost/http/file_server.hpp:714-720 | so for every plan with such a part there is a file on which the two writers differ |
| `Multipart.WritersDiffer` | http/include/boost/http/file_server.hpp:714-720 | two ranges of a file of two bytes on which they differ with a buffer of one byte |
| `DotSegments.ResolveDots` | http/include/boost/http/file_server.hpp:804-841 | the loop over the pieces between slashes computes the resolved names or throws |
| `DotSegments.PathContainsFile` | http/include/boost/http/file_server.hpp:896-909 | true exactly if the file's components begin with the directory's |
| `DotSegments.LocateFile` | http/include/boost/http/file_server.hpp:1453-1464 | the file of a request is found exactly if the path does not escape and the file exists; that it might be outside of the directory never decides |
| `DotSegments.RefusedIfEscapes` | http/include/boost/http/file_server.hpp:804-841 | throws exactly if some part from the start of the path has more ".." than names; else the result has as many names as remain, none of them empty or dots |
| `DotSegments.SamePlace` | http/include/boost/http/file_server.hpp:804-841 | where a walk through any directory tree, step by step, gets to a place, the resolved names lead straight to the same place |
| `DotSegments.OnlyMissing` | http/include/boost/http/file_server.hpp:804-841 | where such a walk fails and the path is not refused, a directory on the way is missing |
| `DotSegments.NormalForm` | http/include/boost/http/file_server.hpp:804-841 | the result, written as a path again, resolves to itself, and no name holds a slash |
| `FileHandles.FileHandle.FromHandle` | process/boost/process/detail/file_handle.hpp:125-129 | copying a handle moves its descriptor and leaves the source invalid |
| `FileHandles.FileHandle.AssignFrom` | process/boost/process/detail/file_handle.hpp:157-162 | assignment moves the descriptor, and forgets the one that the target had |
| `FileHandles.FileHandle.CloseIt` | process/boost/process/detail/file_handle.hpp:188-199 | the descriptor is closed and the handle invalid |
| `FileHandles.FileHandle.ReleaseIt` | process/boost/process/detail/file_handle.hpp:212-219 | the descriptor is handed out, open, and the handle invalid |
| `FileHandles.FileHandle.PosixRemap` | process/boost/process/detail/file_handle.hpp:259-273 | dup2 and close, or an exception and no change |
| `FileHandles.OwnedExactly` | process/boost/process/detail/file_handle.hpp:125-273 | an operation keeps every owned descriptor open and with one owner exactly if it is given no descriptor that a handle owns; a handle remapped to its own descriptor closes it |
| `FileHandles.EveryRunOwned` | process/boost/process/detail/file_handle.hpp:125-273 | so over every run of such operations no descriptor is closed twice or used after it was closed |
| `FileHandles.LostExactly` | process/boost/process/detail/file_handle.hpp:157-219 | an open descriptor is left without owner exactly by a release, or by assigning to a valid handle, to itself included |
| `FileHandles.HandedOver` | process/boost/process/detail/file_handle.hpp:125-162 | copying and assigning give the target the source's descriptor, leave the source without one, and touch no third handle |
| `Descriptors.Process.PosixRemap` | process/boost/process/detail/file_handle.hpp:259-273 | dup2 and then close: the handle's file moves to the new descriptor, and a handle remapped to its own descriptor loses it |
| `Descriptors.Process.Setup` | process/boost/process/detail/posix_ops.hpp:236-345 | the loop over an info map remaps entry by entry, opens files at the lowest free descriptor, closes the other pipe ends, and clears the close flags of the targets |
| `Descriptors.Process.SetupRedirects` | process/boost/process/detail/posix_ops.hpp:347-354 | the second loop duplicates the redirected descriptors in order |
| `Descriptors.Process.BecomeChild` | process/boost/process/detail/posix_ops.hpp:395-411 | all the child does to its table, with the close loop |
| `Descriptors.SetUpReaches` | process/boost/process/detail/posix_ops.hpp:236-345 | without a clash each target names its intended file after the loops |
| `Descriptors.SetUpExactly` | process/boost/process/detail/posix_ops.hpp:236-345 | the loops reach every target exactly if no two entries clash: no entry's target is a descriptor that a later entry holds, and no inherited target one that an earlier entry held |
| `Descriptors.ChildTable` | process/boost/process/detail/posix_ops.hpp:236-411 | the child's table is exactly the targets, each the file that was meant, redirects followed (to other entries and to descriptors that the parent has open) and streams closed in the parent left closed, if and only if no two entries clash in their order; a redirect to a descriptor that an entry holds and none sets ends the child, and otherwise, without a clash and without files to open, nothing fails |
| `Descriptors.RedirectNowhere` | process/boost/process/detail/posix_ops.hpp:347-354 | a redirect to a descriptor that is neither set up nor open in the parent ends the child, even if a pipe was made of it |
| `Descriptors.CapturesClash` | process/boost/process/detail/posix_ops.hpp:332-338 | a clash at a concrete table: with captures as 5 and 6 in a parent holding 0 to 2, the child loses the first |
| `Launch.FillInfo` | process/boost/process/posix_operations.hpp:45-63 | the loops over the behaviors make the entries and the pipes, each the two lowest free descriptors |
| `Launch.LaunchExactly` | process/boost/process/posix_operations.hpp:45-71 | a launch gives the child just what was meant if and only if no stream takes a free descriptor that a later pipe is made of, which is told from the parent's open descriptors before the launch; unless streams clash or are silenced nothing fails, redirects to descriptors that are open in the parent and no stream of the launch included |
| `Launch.LaunchGives` | process/boost/process/detail/stream_info.hpp:120-175 | without a clash the child has, for each stream by its behavior, the right end of a pipe, the parent's file, the null or zero device, or what the redirect leads to, and nothing else |
| `Launch.LaunchFails` | process/boost/process/detail/posix_ops.hpp:347-354 | a launch with a redirect to a descriptor that is closed in the parent and that no stream sets up fails in the child |
| `Launch.BothPipes` | process/boost/process/detail/pipe.hpp:80-85 | the m-th pipe of a launch is made of the 2m-th and the next free descriptor of the parent |
| `Launch.SeldomClashes` | process/boost/process/posix_operations.hpp:45-63 | with one capture, or with every target open in the parent, nothing clashes |
| `Launch.TwoCaptures` | process/boost/process/posix_operations.hpp:45-63 | in a parent holding 0 to 2, captures as 3 and 4 come out right, and as 5 and 6 they clash |
| `Launch.RunGives` | src/process.C:25-45 | for every parent table, the child of process::run has the parent's descriptors 1 and 2 as far as they are open, the pipe's write end as 3, and nothing else |
| `Launch.RunNeedsStandardOutputs` | src/process.C:25-45 | so it has all three exactly if 1 and 2 are open in the parent |
| `Launch.LocatePipe` | process/boost/process/detail/posix_ops.hpp:472-489 | returns the parent's end of the pipe and takes the entry out of the map |
| `Launch.PosixChild.constructor` | process/boost/process/posix_child.hpp:122-149 | every surviving pipe end becomes one stream, standard ones apart, found again under its descriptor |
| `Launch.PosixLaunch` | process/boost/process/posix_operations.hpp:43-78 | what both processes hold in the end, for every launch of two maps with inputs that are not redirected: the child's table, the parent's table without the child's ends, and the parent's streams |
| `Launch.LaunchConnects` | process/boost/process/detail/posix_ops.hpp:440-454 | the parent keeps what it had and one end of every pipe, each in exactly one stream; without a clash the child has the opposite end at that stream's target |
| `OutputArguments.PrintArgument` | src/python_process.C:87-95 | one argument: the name, a colon, the addresses with commas between them |
| `OutputArguments.PrintOutputs` | src/python_process.C:81-99 | one argument for each target of each output |
| `OutputArguments.ParseOutputs` | python/wye/__init__.py:237-255 | the dictionary of sockets grouped by name, or an error where an argument has no colon |
| `OutputArguments.PrintedIsParsed` | src/python_process.C:81-99 | parsing gives back the printed outputs exactly if no name has a colon, no address a comma, and no list is empty |
| `Handshake.RunProcess` | src/process.C:65-133 | the loop over the lines that a program writes, with every error, the end of the stream included |
| `Handshake.LinesRead` | src/process.C:76-115 | what each kind of line says, written out: INIT, INPUT with and without a second colon, ERROR, NOTICE, RUNNING |
| `Handshake.OthersRead` | src/process.C:117-120 | every other line is an error that quotes it |
| `Handshake.RunningExactly` | src/process.C:74-133 | a program counts as running exactly if it writes RUNNING and a line feed behind lines that are INIT, notices or inputs, whatever it writes after; its inputs are those announced, the last of a name counting |
| `Handshake.AnnouncedExactly` | src/process.C:81-97 | an input is known exactly if a line announces it, under the address of the last line that does |
| `Handshake.NotRunningBecause` | src/process.C:86-133 | behind harmless lines the first other line decides why a program does not count as running, or else the end of what it wrote |
| `Handshake.ProgramUnderstood` | python/wye/func.py:28-47 | a program that writes INIT, its inputs and RUNNING is understood in exactly that way |
| `Deployment.Service.CreateWorker` | src/manager.C:95-168 | a worker's program is started with its outputs printed as arguments, and the answer holds exactly the announced inputs whose names have no dot, each with its announced address |
| `Deployment.Worker.Gather` | python/wye/__init__.py:61-70 | one address for every instance of the target that announced any input, an error where this one is missing or the target is not there yet |
| `Deployment.Worker.Request` | python/wye/__init__.py:50-72 | for each output and each of its targets the list of addresses; an error exactly if a target has no inputs yet or lacks the one to connect |
| `Deployment.Worker.Implement` | python/wye/__init__.py:33-88 | every instance runs, was started with the addresses of all its targets (of its own worker, those of the instances before), and its own inputs are known under its id; it fails only for a missing target or a program that does not run |
| `Deployment.Job.Implement` | python/wye/__init__.py:134-153 | a job that is listed back to front and not refused succeeds if every program is understood as running and every instance of a target that announces anything announces the input to connect, without a dot; after success every worker is deployed, and stays so while later ones are created; and it succeeds only if each target of a worker with instances was implemented before or is listed up to that worker |
| `Deployment.EndToEnd` | python/wye/__init__.py:33-88 | the parsed sockets of every program are one for each output and target, connected to exactly what the target's instances (of its own worker, those before it) announced, if and only if no output name has a colon, no output is without targets, and each target announced addresses, none with a comma |
| `Deployment.JobIsWired` | python/wye/__init__.py:134-153 | the same for all programs of an implemented job |
| `Registry.Manager.CreateWorkerOp` | src/manager.C:95-175 | a worker is registered, and stays so, whether its process can be launched and its program says that it runs or not |
| `Registry.Manager.DeleteWorkerOp` | src/manager.C:177-202 | unknown ids are refused without a change |
| `Registry.Manager.ErasePass` | src/manager.C:269-278 | one pass erases one worker of the job, or finds that there is none |
| `Registry.Manager.DeleteJobOp` | src/manager.C:242-290 | the passes end, and remove exactly the job and the workers that carry its id |
| `Registry.Manager.GetJobOp` | src/manager.C:318-371 | lists exactly the workers that carry the job's id |
| `Registry.Manager.PollOp` | src/process.C:226-262 | marks exactly the workers whose process is gone, and removes none; it throws exactly if a worker that counts as running never had a process |
| `Registry.RegisteredIfCreated` | src/manager.C:95-290 | after every run a worker is registered exactly if it was created and not unregistered since, under the job it was created for |
| `Registry.JobIfCreated` | src/manager.C:204-290 | a job is registered exactly if it was created and not deleted since, with its name and description |
| `Registry.StoppedIfGone` | src/process.C:226-262 | a registered worker is marked stopped exactly if its program could be launched and some poll since its creation found its process gone |
| `Registry.PollCrashesExactly` | src/process.C:234-237 | after every run the background poll throws, and so ends the service, exactly if a worker is left whose launch threw |
| `Registry.DeleteJobExactly` | src/manager.C:242-290 | after a deletion no worker carries the job's id, and every other job lists what it listed before |
| `RegistryThreads.LocksKept` | src/manager.C:242-371 | every step of every thread keeps the lock discipline: the holder of the workers lock never asks for the jobs lock |
| `RegistryThreads.NoDeadlock` | src/manager.C:242-371 | wherever the lock discipline holds and some thread is busy, some busy thread can step |
| `RegistryThreads.StepIsOperation` | src/manager.C:242-290 | a step of an operation, the passes of a deletion among them, changes the settled tables by nothing or by just one whole operation, which answers by the tables at that point |
| `RegistryThreads.ReachableIsSequential` | src/manager.C:95-410 | in every reachable state of any interleaving the settled tables, and all answers, are those of the operations one at a time, each taking effect once |
| `RegistryThreads.StepsEnd` | src/manager.C:267-284 | unless operations begin, every step brings all of them nearer to their ends |

## Left out

- Tokenizer internals (`request.ipp`): only the contract of `Tokenizer` is modelled. Where a token comes in pieces these are bodies and skipped bytes, and the end of a body or message may need no byte.
- The message's header multimap is a list in the order of insertion; which of two equal keys a lookup finds first is not modelled, and no result depends on it.
- RequestHeads.ReaderKeepsAlive: the reader's object has no writing half, so an answer that says close between two of its reads, which sets its keep-alive field, is not in it; `ConnectionRuns.DecisionIs` has reads and writes in any order.
- The fields that the constructor leaves unset until the first head is read (version, keep-alive, connect) are arbitrary in the model; what the program reads from them before is not modelled.
- Errors of channel writes, closing of the channel, handlers and coroutines: each asynchronous call is one step that completes or fails.
- A read that follows "buffer exhausted" or an error in the middle of a head starts with an emptied message in mid-request; the buffer invariant is proved for it too, but not what the message means then.
- Reader: for an empty field value the loop that drops trailing blanks (`reader/detail/common.hpp:36`) starts at a wrapped index, which the model does not follow: it reads the value as empty.
- Reader: `set_buffer` at the end of a message happens right behind the switch rather than in it, and a body token's bytes are read where they stand in the reader's buffer.
- Times outside whole seconds, and the two older date formats. The weekday that the calendar library gives is modelled by counting days; the reader does not check it. A leap second is kept as second 60 of its minute.
- Multipart: a file that shrinks while it is sent, and the empty set of ranges, which its caller asserts away.
- Range header on an empty file: the source demands a file size above 0.
- File server: content types, conditional requests, the kind of the file, symbolic links, and the overload of the dot resolution for path objects.
- ASCII only in letter case; no locale.
- Launch: redirects to the target of another redirect, whose outcome depends on the order of the map; closing of the pipes already made when a later pipe cannot be made, credentials and working directory, environment and arguments, and the failure of execve.
- Deployment: ids are positions in the list of started programs; names of inputs with a dot, which the property tree nests below their first component, are missing from the answer, and so is that component; JSON itself is taken to be faithful.
- Handshake.RunProcess: takes all that the program writes until it closes the descriptor; a program that stays silent makes the service wait, which is not modelled.
- Registry: names of operations and missing parameters, descriptions of workers, ids (taken as given), and that a worker's job id names a job, which the service does not check.
- RegistryThreads: a poll that throws ends the service, but its threads are not stopped in the model; the start of a worker's program, and the end of an erased one, happen within the step that holds the lock.
- The other process models, the Windows code, logging, and the sample programs.
