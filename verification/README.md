# HTTP message handling of cpp-httplib, modelled and verified

The header-only library `headers/httplib.h` is an HTTP/1.1 client and server. This project
models its hard parts in Dafny and proves what they promise: the incremental multipart
parser against both of its writers, the chunked transfer coding in both directions, header
blocks, buffered streams and lines, byte ranges from the request header to the
Content-Length of the answer, the worker pool and the accept loop, the ownership of the
client's socket, redirects, route patterns, query strings, Base64 and path checking.

A byte is written as the character with the same code. Code that changes things step by
step is a method over arrays, fields and loops, proved equal to a specification function;
the results are theorems about those functions. Protocols between threads are state machines
whose steps are the critical sections, and a run is any interleaving of steps.

## Modules

| module | part of the library |
|---|---|
| `Bytes`, `Fields`, `Escapes`, `Alphabets`, `Decimals` | searching, trimming, splitting; field grammar, percent decoding, one header line; byte classes and digit tables; decimal numbers |
| `PartHeaders`, `MultipartParser`, `MultipartSerializer` | part headers, the five-state parser over its compacting buffer, the serializer |
| `PartGrammar`, `MultipartBodies`, `MultipartGrammar`, `MultipartCalls` | bodies as any client may write them: the fields of a part and what they mean, the parser over parts of any lines, what it refuses, and which calls it makes on any bytes |
| `MultipartRoundTrip`, `MultipartCuts`, `MultipartPositions`, `MultipartLate`, `MultipartDelimited`, `MultipartMissed`, `MultipartSearch` | parsing what was serialized, under every fragmentation, with and without its opening delimiter, whatever the contents hold; the delimiter search |
| `MultipartProvider` | the streaming upload: fixed items and provider items pulled by the chunked writer |
| `Streams`, `Lines`, `HeaderBlocks`, `HeaderGrammar` | short reads and writes, the line reader, header blocks as the library and as any peer writes them |
| `ChunkSizes`, `Chunked`, `ChunkedReader`, `ChunkedRoundTrip`, `ChunkedPrefixes`, `ChunkGrammar`, `ChunkedCalls` | the chunked coding: both directions, bodies cut short, and bodies as any peer writes them |
| `RangeHeader`, `Ranges`, `RangeBodies`, `RangeReadBack` | the Range header, range validation, partial bodies, and partial bodies read back |
| `ThreadPool`, `Listener`, `ClientSocket` | concurrency |
| `Redirects`, `RedirectScripts`, `RedirectBounds`, `BusyServer` | send, redirect, authentication retries and the repetition over TLS; the most requests a call can issue, and a server that makes it issue them |
| `PathParams`, `Paths`, `Query`, `Base64` | route patterns, path checking, query strings, Base64 |

## Main results

* **Multipart.** `MultipartRoundTrip.RoundTrip`: a serialized body, cut anywhere as long as
  the opening delimiter arrives whole, is parsed into exactly its items.
  `MultipartGrammar.GrammarRead` reads any body with legal header lines, in any order and spelling,
  and `GrammarRefused` says which lines end it with exactly the parts before them.
  `MultipartMissed.RoundTripIff` makes the round trip exact, for every list of items and every cut, even for
  contents that look like an opening or hold the delimiter, `MultipartCuts.CutBody` says which
  items the parser reports when openings are cut, `MultipartSearch.StreamingSearch` describes the
  delimiter search for any bytes at all, and `MultipartProvider.UploadRoundTrip` follows an upload
  from the streaming provider through the chunked coding to the parser.
* **Framing.** `ChunkedRoundTrip.ChunkedRoundTripIff` says exactly which sequences of sink
  operations a reader gets back, `ChunkedPrefixes.PrefixRead` which prefixes of the text it accepts,
  `ChunkedCalls.ProviderReadIff` which providers it understands. `ChunkGrammar.WireBodyRead` and
  `WireBodyRefused`, with `HeaderGrammar.WireBlockRead` and `WireBlockRefused`, do the same for bodies
  and header blocks of other peers. `HeaderBlocks.HeaderRoundTrip` says which header values come back,
  and `MultipartProvider.StreamingEqualsBatch` which providers complete an upload.
* **Concurrency.** `ThreadPool.ReachableState`, `NoLostWakeUp` and `JoinAfterRun`;
  `Listener.ClosedExactlyOnce`; `ClientSocket.AssertsNeverFail`, `NobodyElseCloses`, `ClosedAfterEnd`
  and `StopCloses`.
* **Ranges.** `RangeHeader.RangeHeaderRoundTrip`, `Ranges.RangeError` with `Ranges.NormalizedMeaning`
  and `Ranges.AtMostThreeTimes`, `RangeBodies.Serve` with `RangeBodies.ContentLengthIff`, and
  `RangeReadBack.RangesReadBack`: a client that reads the answer back finds the announced bytes.
* **Redirects.** `RedirectBounds.SentBound` and `BusyServer.BoundReached`: the most requests a call
  can issue, for any number of redirects and authentication tries left, with lengths in
  `RedirectScripts.MostIsBestChain` and `MostWithoutTries`; `Redirects.AfterRedirect`,
  `AfterChallenge` and `SentExtends`: where the further requests go and what they carry.
* **The rest.** `Query.QueryRoundTrip`, `PathParams.RouteMatching`, `Paths.ValidStaysBelow`,
  `Base64.Base64RoundTrip`.

## Where the code does less than one would expect

The model follows the code. In these places a natural promise is false of it, and the project
proves when it holds.

* The parser drops every fragment until one holds a whole opening delimiter
  (`headers/httplib.h:6171`). When the first one is cut the items before the next whole one are
  lost without an error (`MultipartCuts.CutBody`), and the body never comes back complete
  (`MultipartMissed.RoundTripIff`). The commented-out byte-by-byte feed at
  `headers/httplib.h:8510-8522` suggests that any cut works.
* Bytes behind a delimiter that are neither a line break nor two dashes are kept without an error,
  and nothing more is reported (`headers/httplib.h:6342-6345`): `MultipartCalls.StuckBehindDelimiter`.
* A call that ends on an empty write ends the chunked writer's loop without the last chunk
  (`headers/httplib.h:5833`): `ChunkedCalls.CompletedIff`, `ChunkedCalls.EmptyWriteStops`. A server
  that shuts down does the same (`headers/httplib.h:5932`).
* A provider body of known length is cut to its ranges whatever the status, but Content-Length
  looks at the status (`headers/httplib.h:8361-8382`, `headers/httplib.h:8922-8941`), and ranges are
  checked and rewritten for successful statuses only (`headers/httplib.h:6589`). With any other
  status an open or suffix range, or one beyond the content, trips the assertions of
  `headers/httplib.h:6673-6676`; without assertions the window of an open or suffix range is empty
  (`RangeBodies.RawRange`), so nothing is sent against the full announced length.
  `RangeBodies.ContentLengthIff` gives the exact condition over the ranges as requested.
* The tokens of a multipart/byteranges body are written without repeating short writes
  (`headers/httplib.h:6787-6790`): exactly the bytes the stream did not take are missing from the
  announced length (`RangeBodies.WriteContentWithProvider`).
* A suffix range longer than the content is refused, while section 14.1.2 of RFC 9110 reads it
  as the whole content: `Ranges.NormalizedMeaning`.
* A stop that hits a request before it starts a redirect is forgotten, because the nested send
  clears the flag: `ClientSocket.StopForgotten`.
* The query writer encodes values but not keys (`headers/httplib.h:6008-6010`):
  `Query.QueryRoundTrip` says which keys survive.
* Header values are percent-decoded as they are read, except for two fields
  (`headers/httplib.h:5269-5277`): `HeaderBlocks.HeaderRoundTrip`.
* The comparison of a path with a fragment of a route pattern stops at a NUL byte. A pattern
  matches exactly its instances if and only if no fragment has a byte behind its first NUL
  (`PathParams.RouteMatching`); `PathParams.NulPatternMatchesMore` is an example of the others.
* A pool without workers joins at once and leaves its jobs unrun (`ThreadPool.JoinAfterRun`), and
  a listener over it returns without closing the sockets it has handed to the pool
  (`Listener.ClosedExactlyOnce`).
* A request that See Other turns into a GET loses its headers and its text but keeps its content
  provider (`headers/httplib.h:5974-5980`), whose body is written again
  (`headers/httplib.h:10057-10061`): it is without a body if and only if there is no provider
  (`Redirects.AfterRedirect`). If the provider sends chunks, the header that announces them is gone
  (`Redirects.ChunksUnannounced`).
* The client that follows a redirect to another site gets the settings but not the default headers
  (`headers/httplib.h:9344-9390`): `Redirects.AfterRedirect`.
* A call whose TLS peer seems to have closed the connection is repeated once, and so is every call
  around it (`headers/httplib.h:9523-9533`). The limit of twenty redirects then allows
  2^22 - 2 requests instead of twenty-one: `RedirectBounds.WithoutAuthentication` gives both
  bounds and `BusyServer.BoundReached` reaches them.
* The reply to a repeated call is read into the response object of the failed one, behind the
  headers of a redirect or challenge it holds: `Redirects.StaleHeaders`.

## Model

| member | source | states |
|---|---|---|
| Bytes.Split | headers/httplib.h:3594-3630 | the trimmed non-empty pieces between delimiters, in order, as a loop over one index |
| Bytes.TrimWindow | headers/httplib.h:3542-3554 | the two bounds move past blanks only, each limited by the string and not by the other |
| Bytes.FindInPrefix | headers/httplib.h:6286-6318 | searching a prefix of a text finds an occurrence exactly if it fits inside the prefix |
| Bytes.PiecesCons | headers/httplib.h:3600-3630 | splitting at the first delimiter: the trimmed piece before it, then the pieces behind it |
| Fields.IsToken | headers/httplib.h:3098-3112 | accepts exactly the non-empty strings of token characters |
| Fields.IsFieldContent | headers/httplib.h:3122-3161 | accepts exactly the field values of the grammar, at lengths 0, 1, 2 and more |
| Fields.FromHexToI | headers/httplib.h:3198-3224 | the value of exactly `cnt` hexadecimal digits, or nothing at the end of the string, at a NUL or at another byte |
| Fields.DecodeUrl | headers/httplib.h:3473-3527 | decoding of %XX and %uXXXX with everything else kept, invalid escapes included |
| Fields.DecodeIdentity | headers/httplib.h:3473-3527 | decoding leaves a value alone if and only if it holds no valid escape |
| Fields.ParseHeader | headers/httplib.h:5216-5275 | name and blank-trimmed value of a line, refused unless both are legal; the value decoded except for Location and Referer |
| Fields.ParsedHeaderOf | headers/httplib.h:5216-5275 | a written line with legal name and value parses into them, the value decoded unless exempt |
| Fields.ParsedPadded | headers/httplib.h:5216-5275 | blanks around the value are dropped, and the value is decoded unless the name is Location or Referer in any letter case |
| Fields.NoField | headers/httplib.h:5216-5250 | a line without a colon, or whose name is no token, is no header |
| Fields.NoValue | headers/httplib.h:5216-5265 | nor is one whose value between the blanks is not legal |
| Escapes.ByteEscape | headers/httplib.h:3501-3509 | two hexadecimal digits in either case stand for their byte |
| Escapes.CodeEscape | headers/httplib.h:3482-3495 | four digits behind a u stand for the UTF-8 bytes of their code point |
| Escapes.PlainByte | headers/httplib.h:3516-3523 | every other byte stands for itself, but a plus sign for a blank where that is asked for |
| Escapes.NoEscape | headers/httplib.h:3480-3514 | a percent sign without enough digits behind it is kept |
| Escapes.Utf8RoundTrip | headers/httplib.h:3238-3280 | the bytes of every code point but the surrogates, which have none, read back as the code point |
| Alphabets.TokenIff | headers/httplib.h:3091-3097 | the token characters are the visible ones that are no delimiter of the standard |
| Alphabets.FieldIff | headers/httplib.h:3116-3120 | field characters are visible or outside ASCII |
| Alphabets.KeptIff | headers/httplib.h:3395-3406 | the bytes the query encoder keeps, as all visible ones but a list |
| Alphabets.HexTables | headers/httplib.h:3178-3236 | both digit tables, letter by letter, and that each digit is read back |
| Alphabets.Base64Table | headers/httplib.h:3286-3287 | the alphabet, letter by letter |
| PartHeaders.ParseDispositionParams | headers/httplib.h:6059-6082 | key and value of every distinct piece, without one pair of quotes each |
| PartHeaders.ReadPartHeader | headers/httplib.h:6211-6275 | the effect of one header line on the part: type, name, plain and extended file name, or refusal |
| PartHeaders.ReadDisposition | headers/httplib.h:6230-6267 | the written disposition line gives back the item's name and file name and nothing else |
| PartHeaders.ReadContentType | headers/httplib.h:6222-6227 | the written type line gives back the item's content type |
| PartHeaders.LastValueCounts | headers/httplib.h:6066-6078 | of a parameter with several equals signs the last part is the value |
| PartGrammar.FieldRead | headers/httplib.h:6211-6275 | one legal field in any spelling does to the part what it means: a type sets the type, a disposition the name and file name, its extended file name decoded and preferred, any other field nothing |
| PartGrammar.ExtendedRead | headers/httplib.h:6247-6267 | an extended file name in UTF-8 gives its decoded value |
| PartGrammar.BadRead | headers/httplib.h:6202-6267 | a line that is no field, a disposition without a name, and one whose extended file name is empty or in another charset, are refused |
| PartGrammar.LastDecides | headers/httplib.h:6211-6275 | the last disposition of a part decides its name, and its file name if it has one, and the last type its type, whatever stands before, between and behind them |
| MultipartParser.MultipartFormDataParser.BufFind | headers/httplib.h:6419-6455 | position of the first occurrence in the live window, or its size when there is none |
| MultipartParser.MultipartFormDataParser.StartWith | headers/httplib.h:6391-6406 | whether the live window has the string at a position |
| MultipartParser.MultipartFormDataParser.BufAppend | headers/httplib.h:6457-6480 | the live window is moved to the front and extended by the new bytes; nothing else is live |
| MultipartParser.MultipartFormDataParser.BufErase | headers/httplib.h:6482 | the live window loses its first bytes |
| MultipartParser.MultipartFormDataParser.InitialBoundary | headers/httplib.h:6169-6184 | state 0: everything before the opening delimiter is dropped, or everything at all if it is not whole in the buffer |
| MultipartParser.MultipartFormDataParser.Headers | headers/httplib.h:6189-6284 | state 2: complete header lines are consumed one by one, too long a possibly partial one refused |
| MultipartParser.MultipartFormDataParser.Body | headers/httplib.h:6286-6318 | state 3: content before the delimiter is handed over and the delimiter dropped, or all but the last delimiter-length bytes are handed over |
| MultipartParser.MultipartFormDataParser.Boundary | headers/httplib.h:6319-6347 | state 4: CRLF starts the next part, two dashes end the body and drop the rest, anything else is kept and waits |
| MultipartParser.MultipartFormDataParser.Parse | headers/httplib.h:6159-6353 | one call is the value-level parser run on the old live bytes followed by the fragment: same answer, state, live bytes and calls |
| MultipartParser.ReadMultipart | headers/httplib.h:8494-8530 | any sequence of fragments is the value-level parser fed with them, up to the first refusal |
| MultipartSerializer.SerializeItemBegin | headers/httplib.h:6532-6553 | delimiter line, disposition, optional type line and empty line of one item |
| MultipartSerializer.SerializeMultipartFormdata | headers/httplib.h:6567-6585 | the items one after the other, with or without the closing delimiter |
| MultipartSerializer.SerializedIsDelimited | headers/httplib.h:6567-6585 | the same body seen from the reader: contents separated by the body delimiter that starts with CRLF |
| MultipartBodies.BodyRead | headers/httplib.h:6159-6353 | any body of parts with readable lines is reported as its items, valid, from any fragments that keep the opening delimiter whole, with or without the line break behind the closing one |
| MultipartBodies.BodyStopped | headers/httplib.h:6195-6284 | at the first line that cannot be taken the parser refuses, with exactly the parts before it reported |
| MultipartGrammar.GrammarRead | headers/httplib.h:6159-6353 | parts with legal fields of any kind, number, order and spelling arrive as the items their fields mean, with no delimiter in a content and the opening one whole; the line break behind the closing delimiter may be missing |
| MultipartGrammar.GrammarRefused | headers/httplib.h:6202-6267 | behind any legal fields a line that is none, a disposition without a name, or one with an unreadable extended file name, refuses the body from any fragments, with exactly the parts before it |
| MultipartGrammar.TooLongRefused | headers/httplib.h:6191-6195 | so does a first header line of more than 8192 bytes |
| MultipartCalls.EveryCallTaken | headers/httplib.h:6198-6312 | for any bytes, cuts and receiver: every call but perhaps the last was taken, and after a call that is not taken the answer is no and nothing is called any more |
| MultipartCalls.StuckBehindDelimiter | headers/httplib.h:6319-6346 | bytes behind a delimiter that are neither a line break nor two dashes are kept for ever: accepted, never valid, and nothing is called whatever follows |
| MultipartBodies.RoundGood | headers/httplib.h:6165-6352 | every round of the parser keeps the agreement between reported items, live bytes and the text to come, from any phase, or needs more input |
| MultipartBodies.RunGood | headers/httplib.h:6159-6353 | so does a whole call, which accepts and stops only in a phase that waits for input |
| MultipartBodies.FeedGood | headers/httplib.h:8494-8530 | and any sequence of calls, which ends with all items reported and a valid parser |
| MultipartRoundTrip.RoundTrip | headers/httplib.h:6159-6585 | parse after serialize: for every non-empty list of legal items whose contents do not hold the delimiter, and every fragmentation that keeps the opening delimiter whole, exactly the items come back, valid |
| MultipartSearch.BodyFound | headers/httplib.h:6292-6302 | when the delimiter is in the window, exactly the bytes before its first occurrence are handed over and those behind it kept, unless the receiver refuses |
| MultipartSearch.BodyMissing | headers/httplib.h:6304-6315 | otherwise bytes handed over and retained are the received ones, with at most one delimiter length retained |
| MultipartSearch.FeedIsBodyFeed | headers/httplib.h:6159-6353 | while the body state lasts a sequence of calls takes fragments as that state does, and goes on behind the delimiter |
| MultipartSearch.StreamingSearch | headers/httplib.h:6159-6353 | for any delimiter, receiver, bytes and fragments, calls that start in the body state hand over the prefix before the first occurrence and go on exactly behind it; without an occurrence they hand over all but at most one delimiter length |
| MultipartCuts.OpeningLost | headers/httplib.h:6169-6175 | fragments of any text, none of which holds a whole opening delimiter, leave the parser as it began |
| MultipartCuts.OnlyAtStart | headers/httplib.h:6567-6585 | with no opening inside header lines or content, the opening delimiter occurs in front of each item and nowhere else in it |
| MultipartCuts.CutBody | headers/httplib.h:6159-6353 | however such a body is cut, it is accepted, and exactly the items from the first one on whose opening lies whole in one fragment are reported, valid; without one nothing is reported |
| MultipartPositions.NextDelimiter | headers/httplib.h:6567-6585 | behind a delimiter of a serialized body the next one comes no earlier than the empty line before the next content, and behind the last there is none |
| MultipartLate.RoundLate | headers/httplib.h:6165-6352 | a parser that stands later in the body than the parts it has announced stays late in every round, or has a wrong part for good, or refuses |
| MultipartDelimited.DelimitedLost | headers/httplib.h:6286-6318 | when a content holds the delimiter the parser cuts it there, and however the body arrives it never reports the items |
| MultipartMissed.FeedWaiting | headers/httplib.h:6159-6353 | when the start of the body is gone or comes in pieces, no later opening, not even one inside a header line or a content, makes the parser report the items |
| MultipartMissed.NothingToRead | headers/httplib.h:6159-6353 | the body of an empty list, a closing delimiter only, is never a valid one to read |
| MultipartMissed.RoundTripIff | headers/httplib.h:6159-6353 | for every list of items with legal header lines, every receiver that takes them and every cut, the items come back, valid, if and only if there are any, no content holds the delimiter, and the opening delimiter arrives in one fragment |
| MultipartProvider.ContentProvider.CallItemProvider | headers/httplib.h:10373-10376 | the item's provider is called with the number of bytes it has written itself; its writes reach the sink in order and its `done` ends its item only |
| MultipartProvider.ContentProvider.CallItem | headers/httplib.h:10354-10388 | one step of a provider item: opening before its first call, closing CRLF after its last |
| MultipartProvider.ContentProvider.Call | headers/httplib.h:10348-10396 | one call performs the first of the calls still to come and leaves the others, whatever the offset was made of |
| MultipartProvider.TextMeans | headers/httplib.h:10359-10371 | the bytes a provider writes are its pieces put together in order |
| MultipartProvider.WriteMultipartChunked | headers/httplib.h:5932-5952 | the writer's loop over this provider puts out the framed operations of all calls until one is refused or the body ends, and success means exactly that even over a stream that may fail |
| MultipartProvider.StreamingEqualsBatch | headers/httplib.h:10341-10397 | the upload runs to its end if and only if every provider answers and ends no unfinished call on an empty write; then its payload is the serialized body of all items |
| MultipartProvider.StreamedUpload | headers/httplib.h:10341-10397 | the chunked reader gets that body and leaves what follows unread |
| MultipartProvider.UploadRoundTrip | headers/httplib.h:8494-8530 | parsed from any fragments, the upload arrives as its items if and only if there are any, no content holds the delimiter and the opening delimiter arrives in one fragment |
| Streams.SocketStream.Read | headers/httplib.h:7584-7644 | returned bytes, unread buffer and remaining wire are together the old buffer and wire; zero only at the end; an error changes nothing |
| Streams.SocketStream.ReadMany | headers/httplib.h:7584-7644 | any sequence of read sizes hands out the stream in order without loss or repetition |
| Streams.WriteData | headers/httplib.h:5695-5707 | short writes are repeated until all is written, or a prefix is when the stream fails |
| Streams.BodyReceiver.Out | headers/httplib.h:8437-8446 | bytes are taken up to the limit and refused beyond it |
| Streams.ReadContentWithLength | headers/httplib.h:5343-5372 | delivers exactly the first `len` bytes and leaves the rest, or a prefix of them when it fails |
| Lines.LineReader.Append | headers/httplib.h:3722-3738 | the byte is added to whichever buffer holds the line |
| Lines.LineReader.GetLine | headers/httplib.h:3667-3720 | the line returned is exactly what was consumed from the stream, up to CRLF, the end or 32768 bytes |
| Lines.LineFound | headers/httplib.h:3667-3720 | a CRLF within the limit ends the line at its first occurrence |
| Lines.LineCut | headers/httplib.h:3667-3720 | without one, the end of the stream ends the line; an empty stream has none |
| Lines.LineTooLong | headers/httplib.h:3667-3720 | without one in 32768 bytes, reading fails after exactly these |
| HeaderBlocks.WriteHeaders | headers/httplib.h:5668-5693 | one line per field and an empty line; the length returned is that of the block if and only if the stream took all of it |
| HeaderBlocks.ReadHeaders | headers/httplib.h:5285-5341 | lines without CRLF are skipped, too long or illegal ones refused, the empty line ends the block |
| HeaderBlocks.HeaderRoundTrip | headers/httplib.h:5285-5693 | for legal fields with short enough lines, reading a written block consumes exactly it, and gives the same fields if and only if no value holds a percent escape outside the two exempt fields |
| HeaderGrammar.WireBlockRead | headers/httplib.h:5285-5341 | a block of legal fields with any padding is consumed exactly and gives its fields in order, values trimmed and decoded unless exempt |
| HeaderGrammar.WireBlockRefused | headers/httplib.h:5322-5338 | behind any such fields a line that is too long, without a colon or with an illegal name refuses the block |
| HeaderGrammar.WireBlockCut | headers/httplib.h:5285-5341 | a block cut short anywhere is refused |
| ChunkSizes.FromIToHex | headers/httplib.h:3226-3236 | lower-case hexadecimal without leading zeros |
| ChunkSizes.SizeRead | headers/httplib.h:5437-5446 | a written size line reads back as its size, for every 64-bit size below the largest |
| Chunked.ChunkedSink.WriteOp | headers/httplib.h:5829-5861 | one chunk per non-empty write; an empty write only clears the flag; the offset counts the payload |
| Chunked.ChunkedSink.DoneOp | headers/httplib.h:5866-5922 | last chunk, trailer fields and empty line, once the sink has not failed |
| Chunked.WriteContentChunked | headers/httplib.h:5820-5953 | the text of all operations of the calls the loop makes, over any schedule of short writes and also over a failing stream when it succeeds; a shutdown leaves a prefix of them and counts as success |
| Chunked.LastOpDecides | headers/httplib.h:5829-5922 | after a write the loop goes on if and only if it was not empty, and after the end of the body never, whatever came before |
| ChunkedReader.ReadContentChunked | headers/httplib.h:5421-5519 | over any schedule of short reads: accepts exactly what the grammar on values accepts within the limit, with the same payload, trailers and rest; over a failing stream an accepted body still has its whole payload |
| ChunkedReader.ReadTrailers | headers/httplib.h:5469-5519 | trailer lines up to the empty line; unparsable ones are ignored |
| ChunkedRoundTrip.ChunkedRoundTripIff | headers/httplib.h:5421-5953 | whatever was done with the sink, the reader gets all of it and leaves nothing if and only if some operation ended the body and only empty writes followed |
| ChunkedRoundTrip.ChunkedRoundTrip | headers/httplib.h:5421-5953 | in front of any other bytes: exactly the payload, every later byte unread, and the trailer as written if and only if no value holds a percent escape |
| ChunkedPrefixes.PrefixRead | headers/httplib.h:5475-5493 | of the text of any operations that end the body exactly these prefixes are accepted: the whole, and those that end inside or right behind the line of the last chunk; each with all the payload, nothing left and, if it is not the whole, no trailer |
| ChunkGrammar.SizeLineRead | headers/httplib.h:5437-5446 | a size line with white space, sign, base mark, leading zeros, either letter case and an extension reads as the number the C library makes of it |
| ChunkGrammar.WireBodyRead | headers/httplib.h:5421-5519 | a body of any such chunks, with or without a trailer section, is accepted with its payload, its legal trailer fields in order, and the rest of the stream unread |
| ChunkGrammar.WireBodyRefused | headers/httplib.h:5437-5513 | behind any chunks a size line without a number, the largest size, a chunk without its line break or a trailer line that is too long refuses the body |
| ChunkedCalls.AllExecuted | headers/httplib.h:5932-5952 | providers whose calls keep the loop going have all their operations performed |
| ChunkedCalls.CompletedIff | headers/httplib.h:5932-5952 | for any calls: the loop succeeds with a terminated body if and only if the first call that does more than write is answered and ends the body, and those before it are answered and none ends on an empty write; the calls behind it are not made |
| ChunkedCalls.ProviderReadIff | headers/httplib.h:5421-5953 | exactly these providers, whatever their calls, reach the reader with all they wrote and nothing left over |
| ChunkedCalls.EmptyWriteStops | headers/httplib.h:5833 | a first call of writes ending on an empty one is reported as success and leaves a body the reader refuses |
| ThreadPool.StepInv | headers/httplib.h:1065-1125 | every critical section, notification, wake-up or job end keeps the pool's invariant |
| ThreadPool.ReachableState | headers/httplib.h:1065-1125 | in every reachable state: jobs started once, in order of acceptance; the queue within the bound the pool was made with; with anybody asleep, no more jobs queued than ready workers and pending notifications |
| ThreadPool.TakesWithRoom | headers/httplib.h:1065-1080 | in every reachable state a pool takes a job, last in the queue and with a notification, if and only if it has no bound or fewer jobs queued; otherwise nothing changes |
| ThreadPool.NoLostWakeUp | headers/httplib.h:1065-1125 | a queued job always has a step that brings it forward while a worker is left |
| ThreadPool.NobodySleepsAgain | headers/httplib.h:1072-1086 | after the broadcast nobody sleeps, in any continuation |
| ThreadPool.DrainIsFinite | headers/httplib.h:1072-1125 | with nothing enqueued, runs after the broadcast are bounded by the work left |
| ThreadPool.DrainGoesOn | headers/httplib.h:1072-1125 | and can go on until every worker has left |
| ThreadPool.JoinedMeansDone | headers/httplib.h:1072-1092 | once all workers have left without a late job: every accepted job is finished if and only if there was a worker or no job |
| ThreadPool.JoinAfterRun | headers/httplib.h:1055-1092 | the same for every run of a pool with n workers |
| Listener.MoveInv | headers/httplib.h:8699-8765 | every move of the accept loop or a worker keeps each accepted socket in exactly one place |
| Listener.ClosedExactlyOnce | headers/httplib.h:8699-8765 | in every run no socket is closed twice; at the return of the listener each accepted one has been closed once, except, in a pool without workers, those handed to the pool |
| ClientSocket.StepInv | headers/httplib.h:9523-9653 | every critical section keeps: a non-zero in-flight count names the holder of the request mutex as owner |
| ClientSocket.OwnerHoldsMutex | headers/httplib.h:9590-9624 | in every reachable state a non-zero in-flight count is owned by the thread that holds the request mutex, and a zero one by nobody |
| ClientSocket.AssertsNeverFail | headers/httplib.h:9449-9470 | in every interleaving of requests, nested sends and stops, all ownership assertions hold |
| ClientSocket.NobodyElseCloses | headers/httplib.h:9590-9637 | during a request no step of another thread closes or replaces its descriptor |
| ClientSocket.ClosedAfterEnd | headers/httplib.h:9619-9637 | the socket is closed when a request ends if and only if it was closed, the request closes it, or some stop met a request in flight and no send has begun behind it |
| ClientSocket.StopClosesAtEnd | headers/httplib.h:11116-11139 | a stop during a request that starts no nested one leaves the socket closed at its end |
| ClientSocket.StopCloses | headers/httplib.h:11116-11139 | in every run: once a stop has happened and no send has begun since, an open socket is shut down, and it is closed whenever no request is in flight |
| ClientSocket.RequestCloses | headers/httplib.h:9626-9637 | a socket closed in the middle or at the end of a request stays closed until a send begins |
| ClientSocket.StopInFlight | headers/httplib.h:11116-11133 | a stop that meets a request in flight shuts its connection down but leaves the descriptor to it |
| ClientSocket.SendBegins | headers/httplib.h:9540-9611 | a send goes on with a socket that looks alive, or has a descriptor that was never in use before, or has none and is not counted |
| ClientSocket.StopForgotten | headers/httplib.h:9542-9548 | a run in which a stop before a redirect leaves an open socket behind |
| RangeHeader.MakeRangeHeader | headers/httplib.h:7243-7266 | the unit and the ranges separated by comma and blank |
| RangeHeader.ParseRangeHeader | headers/httplib.h:6088-6143 | all pieces are valid ranges that fit, and there is one; otherwise the header is refused |
| RangeHeader.ParsedAreValid | headers/httplib.h:6088-6143 | whatever text arrives, only non-empty lists of open, suffix or ordered ranges come out |
| RangeHeader.RangeHeaderRoundTrip | headers/httplib.h:6088-7266 | parsing a written list gives the list if and only if it is not empty and all its ranges are open, suffix or bounded in order; otherwise it is refused |
| RangeHeader.PieceMeans | headers/httplib.h:6107-6134 | digits around a dash, some of them missing perhaps, are the range they spell, unless both are missing, one does not fit or they are in the wrong order |
| RangeHeader.NoPiece | headers/httplib.h:6107-6121 | a piece without a dash, or with anything but digits before or behind its first one, is no range |
| RangeHeader.HeaderMeans | headers/httplib.h:6101-6137 | the header is the list of its pieces, if it names bytes, has two characters behind the unit and a piece among them, and every piece is a range; otherwise it is refused |
| Ranges.RangeError | headers/httplib.h:6587-6668 | rewrites the ranges in place and refuses exactly the lists that are too long, leave the content, do not ascend or overlap more than twice; a refusal leaves a rewritten prefix |
| Ranges.NormalizedMeaning | headers/httplib.h:6621-6650 | rewriting keeps exactly the bytes a range asks for, and the result is usable if and only if there are any and it is not a suffix longer than the content |
| Ranges.NormalizedFits | headers/httplib.h:6621-6644 | no position leaves the signed size type |
| Ranges.OverlapsReach | headers/httplib.h:6657-6667 | comparing with the furthest last position finds exactly the overlaps with some earlier range |
| Ranges.AtMostThreeTimes | headers/httplib.h:6587-6668 | accepted ranges select at least one byte and at most three times the content |
| Ranges.AcceptedIff | headers/httplib.h:6602-6660 | rewritten ranges are accepted if and only if there are at most 1024, each lies in the content, they start in ascending order, and at most two share a byte with an earlier one |
| RangeBodies.Provide | headers/httplib.h:804-838 | a faithful provider: the next bytes of its content, in pieces of any size, advancing the sink's offset by what it wrote |
| RangeBodies.WriteContent | headers/httplib.h:5710-5758 | calls the provider until the window is written, over short writes; a server shutting down may stop at a prefix and still report success |
| RangeBodies.OffsetAndLength | headers/httplib.h:6670-6679 | the assertions hold exactly for a range inside the content, and give its first position and its length |
| RangeBodies.RawRange | headers/httplib.h:6670-6679 | of the ranges a request can carry, exactly the bounded ones inside the content pass the assertions; without them an open or suffix range has an empty window |
| RangeBodies.RangeSink.ProcessMultipartRangesData | headers/httplib.h:6696-6738 | one generator, three readings: string, length and stream receive the same multipart/byteranges body, the stream less the token bytes it did not take; a range outside the content trips an assertion |
| RangeBodies.ApplyRanges | headers/httplib.h:8896-8941 | for any ranges the announced length is that of the body for status 206 and of the whole content otherwise, with Content-Range for a single range |
| RangeBodies.ApplyRangesToBody | headers/httplib.h:8966-8991 | a body in a string is replaced by its excerpt or by the generated body for status 206, and left alone otherwise |
| RangeBodies.WriteContentWithProvider | headers/httplib.h:8351-8382 | whatever the status, the bytes sent are the body of the ranges less exactly the token bytes not taken, unless a range outside the content trips an assertion |
| RangeBodies.Serve | headers/httplib.h:9257-9267 | from the ranges as requested and the status: refused exactly when the check refuses them, stopped by an assertion only for ranges outside the content, and otherwise announced and sent as stated |
| RangeBodies.RenderedLength | headers/httplib.h:6755-6777 | the generated body is as long as its ranges and their framing |
| RangeBodies.ContentLengthIff | headers/httplib.h:8896-8941 | over the requested ranges and the status: no assertion is tripped and the announced length is that of the body if and only if there are no ranges, or the status is successful and is 206 or refuses or the rewritten ranges cover the content, or it is not successful and the ranges are inside the content and cover it |
| RangeBodies.BodyBound | headers/httplib.h:6587-6797 | a body of accepted ranges is at most three times the content plus the framing |
| RangeReadBack.FieldMeans | headers/httplib.h:6681-6694 | an independent reader of Content-Range gets first position, last position and complete length |
| RangeReadBack.SingleRangeMeans | headers/httplib.h:8896-8991 | the body of an answer with a single range is exactly the bytes its field announces |
| RangeReadBack.RenderedIsBody | headers/httplib.h:6696-6738 | the generated body is a multipart body with a part for each range |
| RangeReadBack.RangesReadBack | headers/httplib.h:6696-6738 | parsed from any fragments it gives, for each range in order, the type and exactly the bytes that its Content-Range announces |
| Redirects.Client.Send | headers/httplib.h:9523-9533 | one send with everything it causes: answer, request and reply as left by reference, error, and all requests issued; the repetition after a closed TLS peer starts from what the failed attempt has left, and the assertion before it holds |
| Redirects.Client.SendOnce | headers/httplib.h:9535-9653 | one attempt: a connection or none, default headers added, the exchange, and a reason for a failure without one |
| Redirects.Client.HandleRequest | headers/httplib.h:9664-9757 | one exchange with the site or, naming it, with its proxy, its reply read behind what the response object holds; then a redirect or an authentication retry of what that left |
| Redirects.Client.Redirect | headers/httplib.h:9762-9849 | a location, resolved against the site, is followed by this client or by a new one without default headers; the next request has one redirect less and after See Other is a GET without headers or text but with its content provider; the reply records the location; a failure leaves request and reply alone |
| Redirects.BeginsWith | headers/httplib.h:9664-9700 | a call with a path and a connection begins by issuing the request it was given, completed by the default headers |
| Redirects.SentExtends | headers/httplib.h:5970-5980 | every further request, on any site, has the content provider of the original, and repeats its method and text or is a GET without text |
| Redirects.AfterRedirect | headers/httplib.h:9785-9848 | over the parts of the parsed location: the next request goes to its scheme, host and port, each of them the old one where it is missing, and to its path and query, with one redirect less and the same content provider; See Other makes it a GET, unless it was a GET or HEAD, with the default headers only, or none on another site, and without a body if and only if there is no provider; any other status keeps method, body and headers |
| Redirects.LeadsTo | headers/httplib.h:9787-9846 | a location that names scheme, host and port of a site leads there from any site, and one that names none stays |
| Redirects.NotFollowed | headers/httplib.h:9762-9840 | a redirect without redirects left, without a location, with one that cannot be taken apart, or to TLS without support, is an error after one request |
| Redirects.Unanswered | headers/httplib.h:9535-9700 | a call without a reply fails without a response: as a connection error with nothing issued when there is no connection or no path, and otherwise as a read error after one request |
| Redirects.FoundAt | headers/httplib.h:5982-5996 | the result of a followed redirect is the reply to the further request, with the location that led there |
| Redirects.AfterChallenge | headers/httplib.h:9720-9750 | the request after a challenge is the same with one try more, the answer in Authorization after 401 and in Proxy-Authorization after 407, and every other header with its value or the default |
| Redirects.ChallengeResult | headers/httplib.h:9741-9755 | an answered challenge has the further reply as its result, or the challenge if no reply comes |
| Redirects.AuthorityMeans | headers/httplib.h:10204-10212 | the authority of a site is its host, in brackets if it holds a colon, and its port in decimal digits |
| Redirects.ChunksUnannounced | headers/httplib.h:5974-5980 | after See Other a provider without a length sends its chunks again, and Transfer-Encoding is there if and only if it is a default header and the site is the same |
| Redirects.PlainReply | headers/httplib.h:9696-9757 | a reply that is neither a redirect to follow nor a challenge to answer is returned after one request |
| Redirects.StaleHeaders | headers/httplib.h:9523-9533 | the headers of a repeated call are those the failed one has read, and behind them those of the reply: a name the former have hides the latter |
| RedirectScripts.MostIsBestChain | headers/httplib.h:9717-9757 | without closed connections the longest script is the greatest product over the ways to split the redirects between the first chain and the rest: links of the chain times one more than the longest script behind it |
| RedirectScripts.MostWithoutTries | headers/httplib.h:9523-9533 | without authentication it has one reply more than redirects, or, with closed connections, 2^(redirects + 2) - 2 replies |
| RedirectBounds.SentBound | headers/httplib.h:9523-9849 | every call ends, and issues no more requests than the longest script for its redirects and authentication tries left has replies |
| RedirectBounds.WithoutAuthentication | headers/httplib.h:946 | without credentials at most one request more than redirects left, twenty-one for a fresh request, if no TLS peer seems to close; otherwise at most 2^(redirects + 2) - 2 |
| RedirectBounds.EndlessRedirects | headers/httplib.h:9762-9768 | a server that only redirects, to any sites, makes a call issue one request for each redirect and one more, and report the exceeded count |
| RedirectBounds.EndlessChallenges | headers/httplib.h:9723-9755 | a server that only challenges makes a call issue one request for each try and one more, and answer with the challenge |
| BusyServer.BoundReached | headers/httplib.h:9523-9849 | for every number of redirects and tries, with and without closed connections, some world makes a call issue exactly as many requests as the bound says |
| PathParams.PathParamsMatcher.Compile | headers/httplib.h:7718-7774 | cuts the pattern into fragments and names, and fails exactly on a repeated name |
| PathParams.PathParamsMatcher.Match | headers/httplib.h:7776-7827 | the answer and, by name, the values captured up to the end or the first mismatch |
| PathParams.PatternPieces | headers/httplib.h:7718-7774 | a pattern is the instance of its own pieces in which each parameter stands for itself; names hold no slash and every marker starts a parameter |
| PathParams.MatchIff | headers/httplib.h:7776-7827 | where no fragment has a byte behind a NUL, a path matches with certain values if and only if they hold no slash and the path is the pattern with these values, up to one slash behind a last parameter |
| PathParams.RouteMatching | headers/httplib.h:7718-7827 | a pattern matches exactly its instances, with exactly their values, if and only if no fragment of it has a byte behind its first NUL |
| PathParams.NulFreePattern | headers/httplib.h:7718-7774 | a pattern without NUL bytes has no such fragment |
| PathParams.NulPatternMatchesMore | headers/httplib.h:7796-7800 | an example: a compiled pattern with a byte behind a NUL and a path it matches that is no instance |
| Paths.IsValidPath | headers/httplib.h:3319-3370 | no NUL, no backslash, and at no component more parents than names before it |
| Paths.ValidStaysBelow | headers/httplib.h:3319-3370 | that is so if and only if walking along the path from any directory but the root never leads outside it, not even on the way |
| Paths.ComponentsAre | headers/httplib.h:3319-3370 | a slash separates components, a text without one is a component, and nothing is none |
| Query.EncodeQueryParam | headers/httplib.h:3395-3419 | unreserved bytes kept, others as percent and two capital hexadecimal digits |
| Query.EncodeDecode | headers/httplib.h:3395-3527 | decoding with plus as blank is the inverse of encoding on every byte string |
| Query.PlainDecode | headers/httplib.h:3473-3527 | decoding with plus as blank changes nothing if and only if there is no plus sign and no valid escape |
| Query.ParamsToQueryStr | headers/httplib.h:5998-6013 | pairs in the order of the map, values encoded, keys not |
| Query.ParseQueryText | headers/httplib.h:6015-6037 | distinct pieces with a key are added to the sorted map behind their equals |
| Query.PieceMeans | headers/httplib.h:6022-6036 | a piece is cut at its first equals sign, both sides decoded with plus as blank; without one it is a key, and without a key it is nothing |
| Query.LessMeans | headers/httplib.h:6034-6035 | keys are ordered by the first byte in which they differ, a proper beginning first |
| Query.EmplacedMeans | headers/httplib.h:6034-6035 | a pair enters behind all pairs with the same or a smaller key and in front of all others |
| Query.QueryRoundTrip | headers/httplib.h:5998-6037 | parameters come back unchanged if and only if no pair is repeated and every key is non-empty, does not start with a blank and holds no ampersand, equals sign, plus sign or valid escape |
| Base64.Base64Encode | headers/httplib.h:3284-3317 | the encoding by groups of three octets, although the accumulator keeps 32 bits only |
| Base64.EncodedLength | headers/httplib.h:3284-3317 | four characters for every started group of three octets |
| Base64.SextetsOf | headers/httplib.h:3296-3305 | the low bits of the truncated accumulator give the right sextets at every shift |
| Base64.Base64RoundTrip | headers/httplib.h:3284-3317 | a text decodes, strictly, to the input if and only if it is the encoder's output |

## Left out

* Real sockets, `poll`, name resolution, timeouts, clocks, memory-mapped files: a stream is a byte sequence with short reads and writes that make progress, and may fail.
* TLS, certificates, digest computation, and the zlib, Brotli and zstd compressors: only the plain compressor is modelled, and in `Redirects` whether a challenge can be read and what answers it are functions left open.
* `std::regex`: the Content-Disposition pattern is an equivalent prefix matcher, the pattern that takes a Location header apart is a function left open (a port number too large for an integer throws in the code), and regular-expression routes and URL parsing are not modelled. Character classes are those of the "C" locale.
* Header and parameter maps: headers are lists in the order in which they are written or read; the order of a multimap is modelled for query parameters only, and lookups there are by insertion order in part headers.
* Callbacks are scripts or predicates quantified over: the part receiver is any predicate on the calls so far, a content provider any sequence of sink operations, so a callback that throws is not covered.
* Several requests on one connection: each request builds a fresh stream object, so bytes buffered for the next request are lost in the code and not part of the model.
* Setters, the method overloads, the forwarding client, status and MIME tables, logging, and the benchmark programs.
- MultipartMissed.RoundTripIff: names and types that cannot be written in a header line, and header lines too long to be read, are outside.
- MultipartGrammar.GrammarRead: text before the opening delimiter or behind the closing one, and a later header line of more than 8192 bytes (whose fate depends on the cut) are not in the grammar.
- MultipartCuts.CutBody: which items are reported from a body with an opening inside a header line or a content is not stated, only that they are not all of them.
- ChunkedReader.ReadContentChunked: of a stream that fails behind the last chunk the trailer fields are stated only if the trailer section was read to its end.
- HeaderBlocks.WriteHeaders: which bytes a stream with short writes has lost is not stated, only that the length returned shows it; the library uses it on its buffer stream.
- RangeBodies.WriteContentWithProvider: of a stream that fails, or a server that shuts down during several ranges, the bytes sent are not stated.
- RangeBodies.RawRange: what a provider does when it is asked for bytes beyond its content, as happens without assertions, is its own.
- RangeBodies.ApplyRanges: the multipart Content-Type header and the random boundary are parameters.
- ThreadPool.ReachableState: the pool, the accept loop and the client socket are state machines on values, since a verified method has no other threads; the mutexes are the steps themselves, and a thread that dies while holding one is not modelled.
- Listener.ClosedExactlyOnce: the accept loop's errors, back-off and the socket options it sets are left out.
- ClientSocket.AssertsNeverFail: the client's destructor and its race with requests are left out, as is a proxy's own connect exchange.
- Redirects.Client.Send: request and reply objects passed by reference are values in and out; a content provider is a name and a length; the headers a written request has gained are a function left open, and the separate parameter map of a request is not modelled.
- Redirects.Client.HandleRequest: closing the connection afterwards is part of `ClientSocket`; bodies of replies, which a repeated call also appends to what is there, are not modelled, and a request that cannot be written counts as one without a usable reply.
- Query.QueryRoundTrip: reading into a map that already holds parameters is modelled by the method, while the round trip starts from an empty one.
- PathParams.PathParamsMatcher.Match: the cleared regular-expression matches of the request are not modelled.
- Paths.IsValidPath: symbolic links and the file system itself are not modelled.
- Base64.Base64Encode: the alphabet is given by a table built from character ranges instead of a literal.
