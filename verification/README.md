# A verified model of the WebSocket and HTTP server

The repository is a small TLS server that speaks HTTP/1.1 and WebSocket. This project models
the parts that decide what its peers see and proves that they do what they are for:

* **the WebSocket codec** (RFC 6455): frames, masks, fragments, the parser that is asked
  again as bytes arrive, and the messenger that encodes while it writes;
* **the connection state machine** of `Server_G`: TLS handshake, upgrade handshake,
  messages, drops, the queue of disconnects and the stream of notifications;
* **the HTTP/1.1 text form** (RFC 9112): head scanner, request parser, response
  serializer, and the delivery of a cached file behind its head;
* **the file cache and its changelog**, on both sides: the Python script that publishes
  changes and the server that applies them.

## How it is built

| file | what it holds |
|---|---|
| `bytes`, `utf8`, `text`, `paths`, `path_forms` | bytes, big-endian numbers, XOR, RFC 3629, splitting and trimming, path components |
| `ws_frame`, `ws_numbers`, `ws_parser`, `ws_reassembly`, `ws_partial`, `ws_resume`, `ws_examples` | frames, the folding parser, fragmented messages whole and in part, resumption across reads, the examples of RFC 6455 |
| `output`, `endings`, `messenger`, `package`, `transfers` | writing to a stream that takes what it likes: what goes out, and how it ends |
| `http_request`, `http_incremental`, `http_roundtrip`, `http_grammar`, `http_names`, `http_response`, `http_status` | requests in, responses out |
| `vfs`, `mtimes`, `cache_forms` | the cache, the changelog and the script that writes it |
| `buffer`, `handshake`, `connection`, `server_class` | the objects of a connection and the server, updated in place |
| `server_step` | the state machine the objects are proved against |
| `server_client`, `server_wire`, `server_runs`, `server_histories`, `server_streams` | what every event keeps, and what holds over whole runs |
| `server_prefix`, `server_losses`, `server_deliveries`, `server_fragments` | when bytes, disconnects and messages are lost, left waiting or refused, exactly |
| `server_fates`, `server_greetings`, `server_drops`, `server_liveness` | when a connection ends, exactly, and who keeps it |

Code that the sources write as loops and field updates is written as methods and classes,
each proved equal to a function on values. The properties are lemmas about those functions,
over every input and every run. The class `ServerG` carries a ghost history, and its
invariant says that the state machine reaches the object's state by that history, so every
theorem about runs is a theorem about the object.

The world is an oracle. A stream is a script of outcomes (take up to n bytes, would block,
interrupted, broken; a script that has run out blocks), a read yields any chunks and may then
fail, a TLS handshake ends in any of three ways, and polls, ids, the accept function and the
disk are parameters. A Rust panic is an outcome (`Panicked`, `Overrun`, `Crash`, `None`),
never excluded by a precondition. A `usize` has 64 bits. A byte is a number below 256: the bit
tests on the first two bytes of a frame are written as arithmetic, and XOR is defined bit by bit.
Every lemma switches automatic induction off, so each proof shows its own recursion.

## What the code does that its protocols or comments do not say

Each is modelled as the code has it, with the exact condition or a witness.

* An interrupted flush counts as a failure, unlike an interrupted write: it drops the client
  (`Endings.SendAllEnds`, `ServerFates.WriteDrops`).
* `WsParser.skip` is never advanced. A message whose first fragment was folded while the
  parser waited ends in `CUTTING_IN` on the next attempt, whatever arrives
  (`WsResuming.LiteralRetry`). So a fragmented message is delivered only if the event that
  completes its first frame completes its last as well; otherwise the next readable event
  ends the connection (`ServerFragments.FragmentsInRun`, `ServerFragments.RunStuck`).
  Advancing `skip` past whole folded frames repairs it completely
  (`WsResuming.RepairedEqualsOneShot`).
* A continuation shorter than all that precedes it fails an assertion, though section 5.4 of
  RFC 6455 allows it, and a code point that spans two frames is refused, though section 5.6
  allows it. `WsReassembly.Reassembly` gives the exact condition under which a fragmented
  message is accepted.
* `Buffer::write` skips as many bytes of its input as the buffer has read before. It
  appends exactly when nothing was read (`InputBuffer.StoreAllExact`). Any bytes for a client
  with something still buffered, or two chunks in one event, therefore drop that client or
  panic the server (`InputBuffer.LiteralFilled`, `ServerDeliveries.LiteralEndsIt`). Both
  forms run through the whole server model; every theorem about runs holds for both.
* `io::copy` does not say how much it wrote before an error, so a torn upgrade response
  starts again from its first byte (`ServerPrefixes.TornRestarts`). Once the response is
  counted, the wire of a connection is a prefix of its response and frames exactly if no
  event tore that response (`ServerPrefixes.PrefixExact`, `ServerPrefixes.OutgoingPrefix`);
  before, one torn copy is still a prefix (`ServerPrefixes.UncountedPrefix`).
* A stream that takes 0 bytes of a non-empty slice can make `send_all` report success with
  bytes unsent (`Output.ZeroWriteLooksComplete`; exactly when: `Output.ShortExact`,
  `Output.SuccessIsComplete`).
* A failed TLS handshake pops the disconnect queue and loses another client's entry
  (`ServerLosses.DisconnectLost`; exactly when: `ServerObjects.ServerG.ServeLoses`).
* After a message is taken out of the buffer, and after the upgrade, what is left counts as
  read: a message that came with them waits until more bytes arrive
  (`ServerDeliveries.DeliveredExactly`, `ServerDeliveries.WaitsUndelivered`).
* A request cut just after a CR of its head is refused, not awaited
  (`HttpIncremental.DeserializePrefix`).
* A request that no service answers gets the home page with the status 404
  (`HttpStatus.UnservedStatus`).
* A change that keeps the recorded time, and a file that becomes a directory, never reach the
  cache (`Mtimes.RoundAgrees`, `Mtimes.MissedChanges`).
* A directory with recorded entries that becomes a file stops the script: the time of an
  entry below it raises `NotADirectoryError`, which is not caught. `.modtimes` is then half
  written, nothing is published, and what the record has forgotten is never deleted from the
  cache (`Mtimes.StopsExact`, `Mtimes.StopIsStale`, `Mtimes.StaysStale`).
* The record is read in text mode, so a name with a CR in it is read back as another path
  (`Mtimes.ReturnSplits`).

## Model

| member | source | states |
|---|---|---|
| `Bytes.BigEndianDecodes` | src/websocket.rs:348-355 | every number that fits w bytes comes back from its big-endian bytes |
| `Bytes.BigEndianEncodes` | src/websocket.rs:155-160 | every byte string is the encoding of the number read from it |
| `Bytes.BigEndianPlaces` | src/websocket.rs:348-355 | the most significant byte comes first: byte i counts multiples of 256^(w-1-i) |
| `Bytes.XorCancels` | src/websocket.rs:245 | masking a byte twice with the same key byte restores it |
| `Bytes.XorExact` | src/websocket.rs:245 | the masked byte is the one byte whose eight bits are set exactly where the payload byte and the key byte differ |
| `Utf8.ValidConcat` | src/websocket.rs:257-266 | joining two well-formed byte strings gives a well-formed one, which is why checking only the new part justifies the unchecked conversion |
| `Utf8.ValidIffEncoding` | src/websocket.rs:265 | the check accepts exactly the encodings of sequences of Unicode scalar values (section 4 of RFC 3629) |
| `WsExamples.Utf8Examples` | src/websocket.rs:265 | the encodings of the examples of section 7 of RFC 3629, of one to four bytes |
| `WsFrame.ApplyMaskCancels` | src/websocket.rs:243-246 | masking a payload twice with the same key restores it |
| `WsFrame.ReadPrinted` | src/websocket.rs:139-179 | reading inverts printing for every frame, key and tail and every length form that fits, boundaries included |
| `WsFrame.PrintRead` | src/websocket.rs:139-179 | whatever is accepted is a printed frame followed by exactly the rest |
| `WsFrame.ReadFrameExact` | src/websocket.rs:139-179 | the accepted inputs are exactly the printed frames with a tail, both directions |
| `WsFrame.ReadFrameStable` | src/websocket.rs:139-179 | success and every error but WOULD_BLOCK do not change when bytes are appended, only the rest grows |
| `WsFrame.ReadFrameShrinks` | src/websocket.rs:164-178 | an accepted frame depends only on the bytes it consumed |
| `WsFrame.PrefixBlocks` | src/websocket.rs:144-167 | every proper prefix of a whole valid frame gives WOULD_BLOCK |
| `WsNumbers.ReadFrameErrors` | src/websocket.rs:139-179 | each error exactly, in numbers: reserved bits, the six known opcodes, the mask bit, and waiting while fewer bytes are there than the first two demand |
| `WsNumbers.ReadFrameNumbers` | src/websocket.rs:139-179 | what an accepted frame is, in numbers: final bit, opcode number, length, key and payload at their places |
| `WsNumbers.HeaderNumbers` | src/websocket.rs:334-357 | the header of every message, in numbers: 129 or 130, then the length in one byte, two or eight |
| `WsNumbers.RefusedFrames` | src/websocket.rs:102-135 | control frames, a continuation of nothing and a new message inside another are refused with their own errors, whatever they carry |
| `WsExamples.MaskedHello` | src/websocket.rs:139-179 | the eleven bytes of the masked example of section 5.7 of RFC 6455 are parsed to the text Hello |
| `WsExamples.PlainHello` | src/websocket.rs:331-366 | the message Hello is sent as the seven bytes of the unmasked example |
| `WsExamples.LongHeaders` | src/websocket.rs:338-357 | 256 and 65536 bytes of binary data have the headers of the examples |
| `WsExamples.DefaultFrame` | src/websocket.rs:276-280 | a new connection's messenger holds an empty binary frame, 0x82 0x00 |
| `WsParsing.UnmaskIntoBinary` | src/websocket.rs:240-251 | the loop appends the unmasked payload to the message so far, and panics exactly when the payload is shorter than that |
| `WsParsing.UnmaskIntoText` | src/websocket.rs:252-267 | the same for text; the new part is refused exactly when it is not well-formed, and what is returned is well-formed throughout |
| `WsParsing.WsParser.FoldFrame` | src/websocket.rs:103-136 | one frame folded in place: the new state and the outcome are those of the folding step, the emptied message after an error included |
| `WsParsing.WsParser.FoldFrames` | src/websocket.rs:97-138 | the loop over frames gives the outcome and the carried message of the recursive parser and keeps a held text well-formed |
| `WsParsing.WsParser.Parse` | src/websocket.rs:30-41 | state and answer of one call, for every state and buffer; a delivered text is well-formed |
| `WsParsing.TextStaysValid` | src/websocket.rs:97-123 | over all frames and on every exit, a text that is held or returned is well-formed UTF-8 |
| `WsParsing.ParseMessageStable` | src/websocket.rs:97-138 | an outcome other than waiting is final: more bytes only lengthen the rest |
| `WsParsing.ParseMessageResumes` | src/websocket.rs:97-138 | a parse that waits can go on from the carried message and the unread frames as if it had seen everything at once |
| `WsParsing.ParseMessageShrinks` | src/websocket.rs:97-138 | a parsed message depends only on the bytes it consumed |
| `WsParsing.ParsedIsSuffix` | src/websocket.rs:101-131 | the returned rest is the end of the input |
| `WsReassembly.Reassembly` | src/websocket.rs:97-138 | for any message, split, keys, length forms and tail: the concatenated message and the tail come back and nothing stays held if and only if every continuation is at least as long as all before it and every piece of a text is well-formed alone; otherwise it is refused |
| `WsReassembly.ShortContinuationPanics` | src/websocket.rs:241 | a two-byte fragment continued by one byte panics |
| `WsReassembly.SplitCodePointRefused` | src/websocket.rs:265 | a well-formed text whose code point spans two frames is refused |
| `WsPartial.PartParses` | src/websocket.rs:97-138 | for any first bytes of a message in frames, and of whatever follows it: its complete frames alone decide between panic, refusal, the message, and waiting with exactly what is folded |
| `WsPartial.FateExact` | src/websocket.rs:97-138 | the complete frames join if and only if they meet the condition of reassembly, and then to their concatenation |
| `WsResuming.RepairedEqualsOneShot` | src/websocket.rs:24-41 | with the step that advances skip past folded frames: any byte stream cut anywhere yields the same messages and the same end as parsing it whole |
| `WsResuming.LiteralRetry` | src/websocket.rs:31-40 | with the code's own step: after waiting, the next attempt equals a first attempt if not even one frame was complete, and reports CUTTING_IN otherwise |
| `WsResuming.LiteralInOrder` | src/websocket.rs:31-40 | streams of unfragmented messages, cut and polled in any way: no error, messages in order and once each, and the buffer is what is left of the stream |
| `WsResuming.LiteralCompletes` | src/websocket.rs:31-40 | once everything has arrived, as many polls as messages left deliver them all |
| `Output.OfferContinues` | src/websocket.rs:343-362 | the slice send_to offers always continues the flat form, and is empty exactly when all is sent |
| `Output.SendAllEmits` | src/helpers.rs:192-206 | whatever the stream does, exactly the bytes between the two cursors go out, and a success reports how many |
| `Output.TurnsBounded` | src/helpers.rs:194-203 | send_all ends: at most one call for each byte and each interruption to come, and one more |
| `Output.SuccessIsComplete` | src/helpers.rs:192-206 | for a given stream, every successful send_all of anything from anywhere is complete if and only if no write of 0 bytes is in the way: a first one with only accepts and interruptions before it and an accept behind it |
| `Output.ShortExact` | src/helpers.rs:192-206 | each call, exactly: whether a success leaves something unsent is decided by what the stream will do and the two lengths still to go |
| `Output.ZeroWriteLooksComplete` | src/helpers.rs:196 | one such write and success is reported with everything still to send |
| `Endings.SendAllEnds` | src/helpers.rs:192-206 | each call, exactly, from what the stream will do and the two lengths still to go: how many bytes it takes, and whether it blocks, fails or is done; a write or the flush behind the last one may break, and only that flush fails when interrupted |
| `Endings.GentleExact` | src/helpers.rs:192-206 | the streams on which no send of anything ever fails are exactly those that, until they block or take nothing, never break and never interrupt right behind an accept |
| `Endings.CopyEnds` | src/websocket.rs:50-59 | the same for io::copy and its flush: whole, blocked or failed |
| `Output.PartialWritesRefineFlat` | src/helpers.rs:192-206 | over any number of calls, short writes, blocks and interruptions, the wire holds exactly the first writ bytes of the flat form |
| `Output.CopyEmits` | src/websocket.rs:52-53 | io::copy puts out exactly a prefix of its slice, also when it fails |
| `Output.CopyInto` | src/websocket.rs:52-53 | the copying loop on a stream gives the wire and the result of the specified copy |
| `Messaging.Messenger.FillHeader` | src/websocket.rs:334-357 | the header array, filled in place, starts with the encoded header and its length is returned |
| `Messaging.Messenger.SendTo` | src/websocket.rs:330-366 | one lazily encoded write from any offset is one write of the flat frame from that offset |
| `Messaging.Messenger.SendAll` | src/helpers.rs:192-206 | the loop leaves the wire, the cursor and the result that SendAllEmits speaks about |
| `Messaging.MaskedIsClientFrame` | src/websocket.rs:293-366 | the emitted bytes, masked as in section 5.3 of RFC 6455, are a final client frame of that message in the shortest length form |
| `Messaging.EncodeDecodes` | src/websocket.rs:331-366 | every message of every length, masked with any key and followed by anything, is parsed back to itself and the tail |
| `Messaging.StreamDecodes` | src/websocket.rs:97-138 | a stream of encoded messages, each with its own key, is parsed back to exactly those messages |
| `Packaging.Package.SendTo` | src/lib.rs:317-333 | one write of a package from any offset is one write of head and file from that offset |
| `Packaging.Package.SendAll` | src/helpers.rs:192-206 | the delivery loop leaves the wire, the cursor and the result that SendAllEmits speaks about |
| `Transfers.Read2` | src/helpers.rs:143-163 | the count says how much of the stream is in the buffer, the rest of both is untouched, success is a full buffer, an abort an unfilled one; how far it comes, and whether it blocks or breaks, is what the stream decides |
| `Transfers.Write2` | src/helpers.rs:165-187 | exactly the counted bytes are on the wire, also when the stream fails; how many, and whether it blocks or breaks, is what the stream decides; a success leaves some unsent if and only if the stream takes 0 bytes before the last |
| `Text.SplitJoin` | src/smithy.rs:44 | splitting what was joined gives the parts back if no part holds a byte of the separator |
| `Text.JoinSplit` | src/smithy.rs:44 | joining what was split restores the input |
| `Text.DecimalParses` | src/http.rs:147 | a printed length is read back by the parser's own rule |
| `Text.LowerExact` | src/smithy.rs:72 | lower case is the one spelling with the same letters, 65 to 90 and 97 to 122 being paired, and no capital; two spellings have the same lower case exactly if they have the same letters |
| `Text.UpperExact` | src/http.rs:189-198 | the same for upper case |
| `Text.TrimExact` | src/smithy.rs:73 | trimming gives the part between the blanks at both ends: the bytes 9 to 13 and 32, and no other |
| `Text.SplitOnceExact` | src/smithy.rs:71 | split_once cuts at the first such byte, and fails exactly if there is none |
| `Text.ParseUsizeExact` | src/smithy.rs:81 | the accepted lengths: at least one digit, after at most one plus sign, below 2^64 |
| `Text.DigitsAppend` | src/smithy.rs:81 | digits in front of k others count 10^k times |
| `HttpRequests.HeaderFromBytes` | src/smithy.rs:115-139 | the scan by index returns what the specified head is, with each of its errors |
| `HttpRequests.HeadExact` | src/smithy.rs:115-139 | after one leading empty head: success if and only if a first CRLFCRLF exists and everything before it is ASCII with every CR followed by LF; head, terminator and rest restore the input |
| `HttpRequests.HeadIsPlain` | src/smithy.rs:125-126 | an accepted head is ASCII and holds no CRLFCRLF, which justifies its unchecked conversion |
| `HttpRequests.ScanFromWaits` | src/smithy.rs:121-138 | the scan waits if and only if there is no CRLFCRLF yet and nothing offends so far |
| `HttpRequests.ParseQueryParameters` | src/smithy.rs:102-112 | the loop fills the map that the recursive reading gives, or fails on the first parameter without an equals sign |
| `HttpRequests.DeserializeText` | src/smithy.rs:39-89 | the parser with its loops and early returns gives the specified request, rest and errors |
| `HttpRequests.ReadFieldLines` | src/smithy.rs:70-88 | the loop over field lines, repeated content-lengths included |
| `HttpIncremental.HeadStable` | src/smithy.rs:115-139 | an accepted head is not changed by what follows |
| `HttpIncremental.HeadPrefix` | src/smithy.rs:121-138 | every cut inside the head or its terminator waits, except just after a CR |
| `HttpIncremental.DeserializeStable` | src/smithy.rs:39-89 | an accepted request stays accepted on any extension and the rest grows by exactly that |
| `HttpIncremental.DeserializePrefix` | src/smithy.rs:39-99 | every proper prefix of an accepted request gives Incomplete, except a prefix cut just after a CR of the head, which gives BareCarriageReturn |
| `HttpIncremental.ParseHttpPrefix` | src/smithy.rs:92-100 | on every proper prefix of an accepted request the parser waits and consumes nothing, except just after a CR of the head |
| `HttpIncremental.DeserializeShrinks` | src/smithy.rs:80-88 | the bytes an accepted request consumed are by themselves that request, and the rest is the end of the input |
| `HttpRoundTrip.RequestRoundTrip` | src/smithy.rs:39-112 | for every well-formed request, any letter case and padding of its fields, with or without a leading empty head: parsing the printed request gives its meaning and exactly the tail |
| `HttpRoundTrip.FieldMapNames` | src/smithy.rs:70-87 | a name is in the parsed headers exactly if some field has it, in any letter case |
| `HttpRoundTrip.FieldMapValues` | src/smithy.rs:70-87 | the last field of a name gives its value; with distinct names every field keeps its own |
| `HttpRoundTrip.ParamMapNames` | src/smithy.rs:102-112 | a key is in the parsed query exactly if some parameter has it |
| `HttpRoundTrip.ParamMapValues` | src/smithy.rs:102-112 | the last parameter of a key gives its value; with distinct keys every parameter keeps its own |
| `HttpGrammar.DeserializeExact` | src/smithy.rs:39-89 | the accepted requests are exactly those written so: at most one empty head, GET or POST, a target, a version in any letter case, field lines, an empty line and the bodies that the lengths announce; and what each of them is read as |
| `HttpGrammar.WaitsExact` | src/smithy.rs:39-89 | the parser waits exactly if the empty line has not come and nothing offends so far, or the head is understood up to fields that announce more than has come |
| `HttpGrammar.FieldExact` | src/smithy.rs:70-78 | a line is read as a field exactly if it has a colon and a name without blanks at its ends; it gives the name in lower case and the value without its padding |
| `HttpGrammar.FieldErrors` | src/smithy.rs:71-78 | which of the three refusals a line gets |
| `HttpGrammar.RequestLineExact` | src/smithy.rs:44-60 | the accepted request lines: three parts between two spaces, and what each says |
| `HttpGrammar.RequestLineErrors` | src/smithy.rs:47-60 | the five refusals of a request line, in their order |
| `HttpGrammar.TargetExact` | src/smithy.rs:50-53 | the accepted targets: a path, or a path and parameters that all have an equals sign |
| `HttpGrammar.VersionExact` | src/http.rs:189-198 | the four versions, in any letter case |
| `HttpGrammar.ScanErrors` | src/smithy.rs:121-138 | the scan refuses exactly at a first offence before any empty line: a byte that is not ASCII, or a CR without LF |
| `HttpNames.KeyAnswered` | src/websocket.rs:74-86 | a well-formed request is answered with the value of its last Sec-WebSocket-Key field, in whatever letter case, and what follows it is left |
| `HttpNames.KeylessRefused` | src/websocket.rs:74-86 | without such a field it is refused |
| `HttpNames.PostReads` | src/smithy.rs:80-85 | a POST with Content-Length: 5 takes the five bytes behind its head as body |
| `HttpResponses.Serialize` | src/smithy.rs:20-38 | the appended bytes are the lines of the response, each ended, and an empty line; the path is its body |
| `HttpResponses.ResponseScans` | src/smithy.rs:20-38 | scanning a serialized response with data behind it separates them exactly, and splitting the head gives the response's own lines |
| `HttpResponses.ContentLengthReads` | src/smithy.rs:80-84 | the content-length line the server writes is read by the parser as that very number |
| `HttpResponses.Route` | src/http.rs:118-126 | the first service whose path and method match answers, with the rest of the path; without one the empty 404 answer stands |
| `HttpResponses.HttpServer.Init` | src/http.rs:78-107 | the start succeeds if and only if both pages are set and in the rebuilt cache; what the cache then holds, in either case |
| `HttpResponses.HttpServer.HandleRequest` | src/http.rs:127-149 | the wanted page if it is sane and cached, else the 404 page with its status; three fields are added and the length is that of the very page chosen |
| `HttpResponses.HttpServer.Deliver` | src/lib.rs:151-159 | while the 404 page is cached the lookup cannot fail; the page is the wanted one if it may be had, the package holds the serialized head and that very file, and announces its size |
| `HttpResponses.DeliveryFraming` | src/lib.rs:151-159 | scanning the delivered head and data gives the head and exactly the data; the last field is read back as the size of the data |
| `HttpResponses.DeliveredBody` | src/http.rs:145-147 | if the service set only fields the parser accepts and no length of its own, reading the delivered fields takes exactly the data as body |
| `HttpStatus.SerializedStatus` | src/smithy.rs:23-26 | a reader of status lines finds in the bytes of a response its own version and the code of its status: 200, 201, 304, 404 or 101, and no code for any other |
| `HttpStatus.DeliveredStatus` | src/lib.rs:151-159 | what is delivered says 404 if the page wanted is not sane or not cached, and otherwise what the service said |
| `HttpStatus.UnservedStatus` | src/http.rs:117-133 | a request that no service answers gets the home page, if that may be had, with the status 404 |
| `HttpStatus.ServesExact` | src/http.rs:120-123 | a service answers what lies below its path with its method or any, and its handler gets what is left of the path |
| `HttpStatus.UpgradeStatus` | src/websocket.rs:78-85 | the answer to an upgrade says 101 |
| `HttpStatus.UpgradeBytes` | src/websocket.rs:78-85 | that answer, line by line |
| `HttpStatus.MissingPageBytes` | src/http.rs:127-149 | the head of the 404 page, line by line |
| `HttpResponses.ChangeSpares` | src/lib.rs:189-196 | a changelog entry removes a cached page if and only if it is the deletion of that very path |
| `HttpResponses.ServeJobs` | src/lib.rs:145-197 | through any run of requests and changelog entries that spare the 404 page: the requests among the jobs, in order, are exactly the ones answered, each out of the cache as the entries before it have left it, with the page it wants or the 404 page, its own head and that very file |
| `HttpResponses.StartAndServe` | src/lib.rs:145-197 | the same from the start: whenever it succeeds, every request of every such run is answered, in order |
| `Paths.PathIsSane` | src/helpers.rs:31-43 | sane if and only if no component is the root or a parent |
| `Paths.PathTextReads` | mtimes.py:78 | a relative path written as text is read back as the same components |
| `PathForms.FullTextReads` | src/helpers.rs:31-43 | every path with a root, a leading dot or parents, written as text, is read back as the same components |
| `PathForms.ComponentsCanonical` | src/helpers.rs:31-43 | the components of any text: a root exactly if it starts with a slash, a dot only in front, names as directory entries have them |
| `PathForms.SlashGoesDown` | src/helpers.rs:31-43 | behind a slash a path goes on: empty pieces, dots and a slash at the end do not count |
| `FileCache.Vfs.ApplyDiff` | src/lib.rs:255-279 | one entry removes its path, or stores under the path as written what is found there, dots and parents followed; a path that cannot be read leaves the cache alone |
| `FileCache.Vfs.ApplyChangelog` | src/lib.rs:188-197 | the published text, split at blank lines, is applied entry by entry |
| `FileCache.Vfs.BuildCache` | src/lib.rs:285-307 | the recursive walk, in any order of entries, caches exactly the files with no dot component |
| `FileCache.Vfs.BuildFrom` | src/lib.rs:288-307 | a walk from any visible directory adds exactly the visible files below it |
| `CacheForms.RebuiltExact` | src/lib.rs:285-307 | a fresh walk caches exactly the files on whose path no name starts with the byte 46 |
| `CacheForms.LocatedExact` | src/lib.rs:255-279 | a path leads where its components lead one after the other, a parent only from a directory, and nowhere else |
| `CacheForms.StoredAsWritten` | src/lib.rs:256-272 | what is found along a path is stored under the path as written; a path that leads to no file changes nothing |
| `CacheForms.DeleteLine` | src/lib.rs:272-280 | an entry of DELETE and a tab drops the path behind it, any other stores what is found along it |
| `Mtimes.CheckRecorded` | mtimes.py:35-50 | the loop over the recorded entries: it stops if and only if one lies below what is now a file, and then leaves the entries before the first such; else exactly which paths are reported updated and which deleted, none twice, and what is recorded again |
| `Mtimes.AddNew` | mtimes.py:52-58 | the loop over the walk adds exactly the unrecorded paths other than the two files of the script |
| `Mtimes.DetectChanges` | mtimes.py:32-58 | stopped if and only if something recorded lies below what is now a file; else updated are exactly the new paths and the files with a new stamp, deleted exactly the recorded paths that are gone, none twice, and the new record is the tree's stamps |
| `Mtimes.EntriesRoundTrip` | mtimes.py:16-37 | the written record, with every CR of it read as a line end, is read back, three lines an entry, to the same paths and stamps, if no name or stamp holds LF or CR |
| `Mtimes.ReturnSplits` | mtimes.py:34-37 | a path with a CR in its name is not read back from the record |
| `Mtimes.WriteChangelog` | mtimes.py:69-88 | the published text is the updated files and the deleted paths, one entry each, joined by blank lines, and nothing is published without an entry |
| `CacheForms.OwnFiles` | mtimes.py:52-58 | the script's own two files, by the bytes of their names, are never recorded, and never reported unless a record had them |
| `CacheForms.EntryText` | mtimes.py:16-17 | an entry of the record, byte by byte |
| `Mtimes.ChangelogApplies` | src/lib.rs:188-197 | publishing and applying a changelog inserts the updated files and drops the deleted paths |
| `Mtimes.RoundAt` | src/lib.rs:189-197 | after a round a visible path is right in the cache if and only if its change was not one of those missed, or, where the script stopped, if it is no file or the same file as before |
| `Mtimes.RoundAgrees` | src/lib.rs:188-197 | after a round the visible cache equals a fresh rebuild of the new tree if and only if the script did not stop, no visible file became a directory, and no content or kind changed under an unchanged stamp; or it stopped and no visible file is new, gone or changed |
| `Mtimes.MissedChanges` | mtimes.py:42-47 | any visible file of any tree that gets new content under its old stamp, or becomes a directory: such a round can happen, without the script stopping, and after every such round the visible cache differs from a rebuild |
| `Mtimes.StopsExact` | mtimes.py:39-50 | after a whole round the script stops if and only if something recorded lies below a directory that is now a file |
| `Mtimes.StopIsStale` | mtimes.py:39-50 | if that directory is visible, the round leaves the cache as it was, and it differs from a rebuild |
| `Mtimes.StaysStale` | mtimes.py:39-50 | a cached visible path that the record has forgotten stays cached through any rounds, while the tree has no such path |
| `Mtimes.BlockedPage` | mtimes.py:40-48 | a directory with one page in it replaced by a file with a new stamp: no change goes unnoticed, yet the script stops, the cache is stale, and the record forgets the page |
| `Mtimes.RunAgrees` | src/lib.rs:182-197 | over any number of rounds, none of which stops the script: the visible cache equals a fresh rebuild after all of them if and only if no round misses a change |
| `Mtimes.RunRound` | mtimes.py:33-88 | script and server run one after the other perform such a round, from text to text and from cache to cache, on any record a script has left, a half written one included; it stops if and only if something recorded lies below what is now a file |
| `InputBuffer.Buffer.Consume` | src/lib.rs:369-375 | the bytes are copied up one by one, the rest cut off, and both marks go to the new end: what is left is the end of what was there |
| `InputBuffer.Buffer.Write` | src/lib.rs:378-387 | what one write stores, where the marks go, and how much it claims |
| `InputBuffer.Buffer.CopyFrom` | src/helpers.rs:137-141 | io::copy from the stream gives the specified filling, a jam and a slice out of range included |
| `InputBuffer.StoreAllExact` | src/lib.rs:382 | the code's write appends exactly when nothing was read before; otherwise it stores nothing from a chunk as long as what was read and panics on any other |
| `InputBuffer.LiteralFilled` | src/lib.rs:378-387 | one event under the code's write: it succeeds if and only if it brings nothing, or one chunk for a buffer with nothing read; the next chunk jams if and only if it is as long as what was read before it, and otherwise panics |
| `InputBuffer.FilledAppends` | src/helpers.rs:137-141 | a filling that succeeds has appended exactly the bytes taken, in either form |
| `InputBuffer.AppendFills` | src/lib.rs:378-387 | the append form never jams and never panics |
| `Handshaking.WsHandshaker.SendTo` | src/websocket.rs:50-59 | the copy from the cursor on; the count moves only if the copy succeeds |
| `Handshaking.WsHandshaker.SendAll` | src/helpers.rs:192-206 | wire, cursor and result of sending the response |
| `Handshaking.WsHandshaker.Handshake` | src/websocket.rs:61-95 | state and reply of one call, from request to response |
| `Handshaking.SendResponseEmits` | src/websocket.rs:51-56 | the wire grows by the response from the counted byte on, and by what a failed copy wrote uncounted |
| `Handshaking.UpgradeScans` | src/websocket.rs:78-85 | a client that scans the 101 response finds its head, and frames start right behind it |
| `Connections.Connection.WriteOut` | src/server_G.rs:140-167 | the writable part of an event, in place, is its stage of the state machine |
| `Connections.Connection.ReadIn` | src/server_G.rs:168-177 | the readable part of an event, in place, is its stage |
| `Connections.Connection.ParseNext` | src/server_G.rs:178-209 | taking a message out of the buffer, in place, is its stage, and a text handed on is well-formed |
| `Connections.Connection.ShakeHands` | src/server_G.rs:214-242 | the handshake loop, in place, is its stage, and ends |
| `Connections.Connection.HandleEvent` | src/server_G.rs:121-243 | everything one event does to buffer, messenger, parser, handshaker, stream and flags is what the state machine says |
| `Connections.Connection.Send` | src/server_G.rs:259-269 | a new messenger is put in place and written as far as the stream takes it |
| `ServerObjects.ServerG.DropClient` | src/server_G.rs:248-258 | the client goes, and its id is queued exactly if it had sent a message; no other client notices |
| `ServerObjects.ServerG.Conclude` | src/server_G.rs:131-136 | what a verdict does to clients and queue, the pop after a failed TLS handshake included |
| `ServerObjects.ServerG.OnStream` | src/server_G.rs:121-243 | an event of one connection, in place among others, extends the history by exactly that event |
| `ServerObjects.ServerG.SendToClient` | src/server_G.rs:259-270 | a send extends the history by exactly that send, and panics exactly if the client is gone |
| `ServerObjects.ServerG.Register` | src/server_G.rs:271-286 | a fresh connection beside the others |
| `ServerObjects.ServerG.Accept` | src/server_G.rs:274-277 | the first drawn id not in use is accepted, no other |
| `ServerObjects.ServerG.Serve` | src/server_G.rs:77-247 | a queued disconnect comes first, and no poll is made while one is queued; otherwise reports are looked at in order, each in the state the ones before it have left, none skipped and none twice, until one brings a message; a notification is returned exactly when the log grows by it; a panic is one of the state machine |
| `ServerObjects.DrawnExact` | src/server_G.rs:274-277 | a report of the listener accepts the first drawn id that is not in use, and none exactly if all are |
| `ServerObjects.FollowedStreams` | src/server_G.rs:102-105 | the stream events of the history are exactly the reports of streams looked at, in order |
| `ServerObjects.ServerG.ConnectionsSafe` | src/server_G.rs:178-242 | whatever was called: no message from a connection still shaking hands, a finished handshake has its whole response written, and no received byte is lost |
| `ServerObjects.ServerG.DisconnectsSafe` | src/server_G.rs:79-81 | whatever was called: nobody is reported gone who was not heard from, and every disconnect owed is delivered, queued or discarded |
| `ServerObjects.ServerG.ServeLoses` | src/server_G.rs:77-139 | what a call of serve loses: an entry, if and only if among the events it attended to the drop of a heard client, or an entry queued before, is followed by a failed TLS handshake |
| `ServerClients.HandleKeeps` | src/server_G.rs:121-243 | one event, with any behaviour of the stream, keeps the order of handshake and messages and accounts for every received byte |
| `ServerClients.SendKeeps` | src/server_G.rs:259-269 | a send keeps both too |
| `ServerWire.HandleExact` | src/server_G.rs:140-242 | one event keeps the wire byte for byte: failed copies, the response as counted, and the written part of each messenger in turn |
| `ServerRuns.HandshakeBeforeMessages` | src/server_G.rs:178-242 | in every reachable state a client that has sent a message is not handshaking, and one that is not handshaking has written the whole non-empty response to the very request it sent |
| `ServerRuns.HandshakeStaysDone` | src/server_G.rs:231-234 | in every step from a reachable state a finished handshake stays finished, and a message comes only from a client whose handshake was over before |
| `ServerRuns.ReceivedConserved` | src/server_G.rs:168-218 | in every reachable state the bytes received from a live client are those its handshake consumed, then those of its delivered messages, each of which parses to that message, then its buffer, all of it read |
| `ServerRuns.DisconnectsConserved` | src/server_G.rs:248-258 | over any run: disconnects delivered, queued and discarded are together exactly the drops of clients that had sent a message |
| `ServerRuns.DiscardExact` | src/server_G.rs:131-136 | an entry is discarded if and only if a TLS handshake fails while some entry is queued, and it is the last one |
| `ServerLosses.BatchLoses` | src/server_G.rs:126-136 | the same for any run of events without a pop, from any reachable state |
| `ServerLosses.DisconnectLost` | src/server_G.rs:131-136 | it happens: a run from the empty server in which a client is heard, dropped and never reported, because another's TLS handshake fails in the same batch |
| `ServerLosses.SomeoneAsks` | src/websocket.rs:74-77 | a request that asks for the upgrade exists, so that there is such a run |
| `ServerHistories.LostToAnother` | src/server_G.rs:131-136 | if ids are not reused, a failed TLS handshake discards nothing from an empty queue and otherwise the entry of another client, one that is already gone |
| `ServerHistories.RunLogged` | src/server_G.rs:187 | if ids are not reused, the notifications for an id are exactly the messages of its connection, in order |
| `ServerHistories.DisconnectsOrderly` | src/server_G.rs:79-81 | over any run every Disconnected comes after a SentMessage of the same id, and if ids are not reused at most once |
| `ServerStreams.RunWires` | src/server_G.rs:155-165 | over any run in which the application sends only to ids it has heard from, every wire is exact and every messenger was given by the application, in order, after the default one |
| `ServerStreams.OutgoingStream` | src/server_G.rs:215-269 | if it also sends only between frames: on every connection, live or dropped, no frame byte goes out before the whole response, and then whole frames of the messages given, in order, and a part of the current one |
| `ServerPrefixes.PrefixExact` | src/websocket.rs:51-56 | once the response is counted, the bytes written are a prefix of the response and the frames if and only if no failed copy wrote anything, for any accept value that is ASCII without CR |
| `ServerPrefixes.LostEndsOnce` | src/websocket.rs:51-56 | behind any number of failed copies the empty line of the response appears only at its own end, neither within an attempt nor across two |
| `ServerPrefixes.UncountedPrefix` | src/websocket.rs:51-56 | before the response is counted only failed copies are on the wire; they are a prefix of it if at most one took bytes, and only then if its first byte is never repeated |
| `ServerPrefixes.RunLosses` | src/server_G.rs:214-242 | over any run, nothing is lost on the connections of an id if and only if no event of that id tears a response: its copy takes bytes and then blocks, fails, takes none or ends |
| `ServerPrefixes.LossesOfOne` | src/server_G.rs:214-242 | if ids are not reused: a connection, live or dropped, has lost nothing if and only if no event of its id tore its response |
| `ServerPrefixes.OutgoingPrefix` | src/server_G.rs:155-269 | over any run in which the application sends only to ids it has heard from and between frames, for each connection, live or dropped: it carries a prefix of its response and frames if no event of the run tears its response, and with a counted response only then |
| `ServerPrefixes.TornRestarts` | src/websocket.rs:51-56 | a copy that takes five bytes and blocks is followed by one that starts at the first byte again |
| `ServerStreams.IncomingStream` | src/server_G.rs:168-201 | if a client sends one request and then unfragmented messages, cut in any way, the notifications for it are a prefix of those messages, in order and once each |
| `ServerDeliveries.HandleDelivers` | src/server_G.rs:178-188 | an event delivers a message if and only if it brings bytes to an upgraded connection, nothing fails before they are parsed, and then a message is there |
| `ServerDeliveries.DeliveredExactly` | src/server_G.rs:168-188 | over any run, whatever a client sends: as many messages of it are returned as there are such events |
| `ServerDeliveries.WaitsUndelivered` | src/server_G.rs:178-188 | if a client sends one request and then unfragmented messages: the next one is received in full and still undelivered if and only if the parser would find it in the buffer, and then no byte has come since it was last asked |
| `ServerDeliveries.LiteralEndsIt` | src/lib.rs:378-387 | under the code's write, an event with bytes for a client that has something buffered, or with two chunks, drops that client or panics the server |
| `ServerFragments.FragmentsDecide` | src/server_G.rs:168-213 | an event that brings bytes of a message in frames: whether it delivers, drops, panics or waits, from the frames complete by then |
| `ServerFragments.HeldEnds` | src/websocket.rs:31-40 | the next readable event of a connection that holds a part of a message drops it, whatever it brings, even nothing; under the code's write it may panic instead |
| `ServerFragments.RunUnread` | src/server_G.rs:178-213 | over any run: a parser holds a part of a message only on an upgraded connection with bytes in its buffer that it will be asked about again |
| `ServerFragments.RunStuck` | src/server_G.rs:178-213 | over any later events with new ids: a connection that holds a part of a message delivers nothing more, is gone once a readable event of it has come, and until then still holds it or was dropped for another reason |
| `ServerFragments.FragmentsInRun` | src/server_G.rs:168-213 | from any reachable server, the event that completes the first frame of a message decides: if it completes the last one too the message is delivered now; if not, nothing more is ever delivered and the next readable event ends the connection; pieces that do not join drop the client or panic at once |
| `ServerFates.WriteDrops` | src/server_G.rs:140-167 | the write part of an event drops the client exactly if the flush breaks or is interrupted, or with the handshake over a write breaks or the flush behind the last write breaks or is interrupted; it writes exactly what the stream takes of the message |
| `ServerFates.SendDrops` | src/server_G.rs:259-269 | the same for a send |
| `ServerFates.GentleKeeps` | src/server_G.rs:140-167 | a stream that accepts, blocks and interrupts only writes never costs a client its connection, in an event or in a send |
| `ServerDrops.HandleEnds` | src/server_G.rs:121-243 | one event, exactly: it drops the client if and only if writing fails, reading fails, the request is refused, answering fails or the frames are refused, in this order; and when it panics, and when a TLS handshake failed |
| `ServerGreetings.StageAnswers` | src/server_G.rs:214-242 | when the request is there, its response is answered, and the handshake is over exactly if the stream takes it without blocking or failing |
| `ServerLiveness.RequestWaits` | src/websocket.rs:61-94 | on every proper prefix of an accepted request, not cut just after a CR of its head, the handshake waits, consumes nothing and writes nothing |
| `ServerLiveness.RunThrives` | src/server_G.rs:77-243 | over any events, its own and those of others: a client whose stream never fails, and that sends one request, not cut just after a CR of the head, and then unfragmented messages, keeps its connection |
| `ServerLiveness.CutRequestUpgrades` | src/server_G.rs:214-242 | the request cut at such places over any number of events, then a stream that takes everything: the handshake is over and the response to that request is on the wire, once |
| `ServerLiveness.SomeoneIsUpgraded` | src/server_G.rs:121-242 | there are such runs: a TLS handshake, a request at once, a stream that takes the whole response |
| `ServerLiveness.SpokenIsHeard` | src/server_G.rs:178-188 | once upgraded, an event that brings bytes makes serve return the next message of such a client exactly if its frame is then whole |

## Left out

- TLS, mio, rustls and sockets: foreign calls, represented by the outcomes they can have.
- SHA-1 and Base64 of the accept value: a function parameter; where its output matters it is assumed to be ASCII without CR.
- Heartbeats, dates, If-Modified-Since and the 800 ms refresh clock: time is not modelled; the date field takes any text.
- Certificates, keys, printed messages, exit codes, examples and client pages: plumbing.
- `Server::serve` of src/lib.rs as an event loop: it repeats `Server_G`; its delivery and changelog blocks are modelled, its clearing of pipelined input is not.
- Close, Ping and Pong: only their answer UNIMPLEMENTED is modelled, as the code has nothing else.
- `HttpResponses.HttpServer.HandleRequest`: the answer is a parameter, given by `Route`; that a handler may change its own state is not modelled, nor the plumbing of `Handler`.
- The other instantiations of `Server_G`: the parser is the WebSocket one, which never returns a shorter rest without a message, so that branch (src/server_G.rs:189-202) is not modelled.
- `ServerObjects.ServerG.Register`: the random id is a parameter that is not in use; that it was never used before and is not SERVER is assumed only where a lemma says so (`AllNew`).
- `Transfers.Read2`: the bytes a stream reads and the errors it meets are a script; read2 and write2 are not called elsewhere in the sources.
- `InputBuffer.Buffer.Consume`: the growable byte vector is a sequence that is assigned byte by byte; its capacity is not modelled.
- `InputBuffer.Buffer.CopyFrom`: io::copy's own buffer of 8 KiB is any cutting into chunks; a chunk is a non-empty read, and an empty one ends the stream.
- `Mtimes.RunRound`: cp, rm and the race between them are a faithful mirror; the watched prefix of a path is left off; the record is written with LF as the line end (reading takes CR and CR LF for one too); the renamed old record that a stopped script leaves behind is not in the tree.
- `Mtimes.RoundAgrees`: paths hold no LF or CR, no parent or root component, and do not start with DELETE and a tab, as the published format demands.
- `FileCache.Vfs.SyncWithFileSystem`: a path that is absolute or climbs out of the client directory finds nothing here, while the source reads it from the rest of the disk; symbolic links and a trailing slash behind a file are not modelled.
- `FileCache.Vfs.BuildFrom`: file names are valid UTF-8 and directories readable, as the code unwraps both.
- The path of the client directory: the disk is a parameter, seen from that directory, so `init`'s check that the directory was set is not modelled.
- Windows path prefixes: not modelled.
