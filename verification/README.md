# A verified model of the epoll web server

The server is a C++17 program with one event loop per worker. This project models its hand-written
stateful parts in Dafny, in the form they have in the source (mutable buffers, linked arrays, a node
pool, loops over them), ties each to a specification on plain values, and proves properties of the
specifications over all inputs and all runs.

`dafny verify dfyconfig.toml` checks everything.

## What is modelled

**Requests.** `HttpMachine` is the thirteen-state machine as a function on values, `HttpGrammar` the
language it should accept, written as a syntax tree and its text. `HttpAcceptance` and `HttpSoundness`
are the two directions, `HttpTheorems` what follows: the machine completes exactly on inputs that begin
with a message of the grammar, fails only where no continuation could make one, and reads a serialised
request back. `HttpOrder` says which inputs and streams are read alike in whatever order the hash table is
walked. `HttpSlices` says what a flat buffer, three indices and some slices mean, and that the
slices stay in order and apart; `HttpRequestObject` is the request object itself, handlers and indices and all,
proved to run the machine. `Sequences` holds what several modules need of sequences without repetition.

**Connections.** `HttpStream` reads a whole byte stream at once. `FileTransfer` says what one round of sending
comes to and when a file gets through whole. `ConnectionObject` is the read, parse, dispatch and compact loop and
the file transfer, with the kernel as a script of results and handlers as arbitrary choices. However the bytes are cut into reads and the events are interleaved, what is dispatched
is a prefix of what the one-shot reference reads, and all of it unless the last request asked for a file; what is
sent is a prefix of the files asked for. Without files, hang-ups and errors a stream whose requests fit the buffer is
dispatched to its end once the socket has been readable more often than it had nothing to read.

**Workers.** `LruLinks` and `LruCache` are the connection table: a doubly linked list and a free list
threaded through arrays, refining a bounded sequence of distinct keys. `WorkerSpec` is the table with the
per-address counters as a step system, `WorkerObject` the event loop that refines it.

**JSON.** `JsonText` takes text apart into tokens, `JsonTree` builds linked nodes from them, `JsonTheorems`
proves the round trip and the shape of what is built from any input, `JsonLookup` the lookups.
`JsonParserObject` is the arena parser on its pool and the documents with their ownership, `JsonArena` their
lifetimes.

**Smaller parts.** `JsSimulator` is the JavaScript copy of the request machine and where it agrees with the
original; `UrlCoding`, `Multipart`, `RateLimit` and `RouterObject` are percent-decoding, upload extraction,
the rate limiter and dispatch.

## Where the code falls short of its purpose

Each of these is stated in the model as the code has it, with the exact condition under which the code does
what is expected of it and with an input on which it does not.

- Two spellings of Content-Length in one request: which of them counts, and so where the next request of the
  stream begins, depends on the order in which the hash table is walked exactly when all are readable and two
  differ (`OrderShowsExactlyOnConflict`, `RunOrderExactly`, `StreamOrderExactly`; the request of `TwoSpellings` is
  complete at its blank line under one order and waits for a body under another).
- A request whose Content-Length cannot be read can no longer be completed once the carriage return of its
  blank line has been read, but the machine reports the error one byte later (`Verdicts`; `UnreadableLate` has such
  a request).
- Every read and every write event refreshes a connection's time without moving it in the list
  (`src/network/Worker.cpp:384` and `:199`), so the list is not always sorted by time, contrary to the comment at
  `src/network/Worker.cpp:219`. The sweep is complete exactly when the expired connections stand together at the
  tail (`SweepCompleteExactly`), as they always do under a monotone clock when a refresh finds only connections
  seen at that very time ahead (`EverySweepIsComplete`). The loop, sweeping every second, can leave an idle
  connection alone for as long as the one behind it sends a byte now and then (`WorkerObject.IdleClientSurvives`).
- A JSON member with an empty key and a non-empty string for its value is stored under that string, without a value;
  a string or number that is the whole document is stored without its value. The round trip holds exactly for
  all other trees (`RoundTripExactly`; `EmptyKeyIsLost`, `RootNumberIsLost`). An empty object answers to the empty
  key and an empty array to index 0 (`LookUpKey`, `LookUpIndex`).
- A number written with an exponent is stored as two, of which the second stays: {"a":1e5} holds a 5
  (`LastNumberCounts`).
- Releasing living JSON documents succeeds exactly in the reverse order of their making (`ReleaseOrderExactly`;
  `OlderFirstFails`).
- The JavaScript machine parts from the parser exactly at a Content-Length without digits or below zero
  (`LockstepExactly`; `UnreadableParts` has one without digits).
- A route is chosen by the order of the hash table exactly when a key without a route of its own matches
  wildcards with different handlers (`OrderFreeExactly`; `OverlapDependsOnOrder`).
- Upload data comes back exactly when it does not contain the delimiter (`UploadExactly`; `DelimiterCutsData`).

## Conventions

A byte is a `char`; header names are lowered as ASCII. Hash tables are walked in an order given by an oracle,
and every result holds for all orders. `time(nullptr)`, `recv`, `sendfile`, `accept4`, `epoll_ctl` and
`epoll_wait` are arbitrary values or scripts of results. `std::stoul` is written out for 64-bit numbers: blanks, sign,
digits, anything after them ignored. A C++ exception is a result that says so. A `string_view` into the request
buffer is an offset and a length; a view into a JSON body is the text it shows. Where it helps the reader, one
long method of the source is several here, called in the source's order. A `hide` statement at the head of a
proof keeps definitions it does not need from the solver.

## Model

| member | source | states |
|---|---|---|
| HttpTheorems.CompletesExactlyOnMessages | src/server/http/HttpRequest.cpp:15-336 | the machine reaches Complete on an input if and only if a message of the grammar stands at its front |
| HttpTheorems.MessageRead | src/server/http/HttpRequest.cpp:15-336 | it stops exactly at that message's end, with every field the matching text, and no later byte matters |
| HttpTheorems.AcceptedIsMessage | src/server/http/HttpRequest.cpp:15-336 | what a completed run consumed is the text of a message, and the fields are its meaning |
| HttpTheorems.Verdicts | src/server/http/HttpRequest.cpp:87-336 | for every input: complete, hopeless or extendable, each exactly when the grammar says so; the one case in which an error is noticed a byte late |
| HttpTheorems.OneMessageAtTheFront | src/server/http/HttpRequest.cpp:87-336 | the language is prefix-free and unambiguous |
| HttpAcceptance.MessageAccepted | src/server/http/HttpRequest.cpp:87-336 | completeness: the run over any message and any continuation, field by field |
| HttpSoundness.TrackRun | src/server/http/HttpRequest.cpp:87-336 | soundness: after any input the machine stands where some partial message of the grammar puts it |
| HttpMachine.RunCut | src/server/http/HttpRequest.cpp:15-26 | parsing in pieces equals parsing at once, wherever the input is cut |
| HttpMachine.RunStopsAt | src/server/http/HttpRequest.cpp:17-19 | bytes behind the point where the machine stopped are never consulted |
| HttpTheorems.OrderShowsExactlyOnConflict | src/server/http/HttpRequest.cpp:215-242 | the hash table's order shows exactly when two readable spellings of Content-Length differ |
| HttpTheorems.OneReadingSuffices | src/server/http/HttpRequest.cpp:215-242 | with one reading among the spellings the announced length does not depend on the order |
| HttpOrder.RunOrderExactly | src/server/http/HttpRequest.cpp:15-242 | two orders can leave the machine in different states on an input exactly when the header block at its blank line has two readable lengths that differ and none that is unreadable |
| HttpOrder.StreamOrderExactly | src/network/Worker.cpp:446-504 | a stream holds the same requests in every order exactly when no request in it can be completed below a header block of that kind |
| HttpOrder.TwoSpellings | src/server/http/HttpRequest.cpp:215-242 | a request that is complete at its blank line under one order and awaits a body under another, so that the stream is read differently |
| HttpOrder.UnreadableLate | src/server/http/HttpRequest.cpp:210-240 | a request that is hopeless one byte before the machine reports it |
| HttpText.StoulOfPlain | src/server/http/HttpRequest.cpp:231-236 | plain decimal text is read as its number below 2^64 and fails from there on |
| HttpTheorems.RequestRoundTrip | src/server/http/HttpRequest.cpp:102-336 | a request serialised as in section 2.1 of RFC 9112 is read back field for field, and reading stops at its end |
| HttpSlices.StepMeans | src/server/http/HttpRequest.cpp:73-336 | one handler's assignments to indices and slices mean one step of the machine, and keep every slice within the handled bytes |
| HttpSlices.StepKeepsOrder | src/server/http/HttpRequest.cpp:73-336 | every handler keeps the slices of URL, protocol, header names, header values and body in order and disjoint, and every stored name equal to what its slice shows |
| HttpSlices.NotedIsApart | src/server/http/HttpRequest.cpp:254-300 | a header stored now, name and value, is clear of every header stored before; a repeated name keeps the slice of its first occurrence |
| HttpSlices.StepIsSafe | src/server/http/HttpRequest.cpp:73-336 | meaning, bounds and order are kept together by each step, from any fields that have them |
| HttpSlices.NamesKept | src/network/Worker.cpp:407-441 | bytes written behind the handled ones change none of the stored names |
| HttpSlices.ReadingKept | src/network/Worker.cpp:407-441 | bytes written behind the handled ones change nothing that has been read |
| HttpRequestObject.HttpRequest.Parse | src/server/http/HttpRequest.cpp:15-26 | from any state the loop runs the machine over the unhandled bytes; indices and slices stay in bounds; once a header block is read the content type is noted, and without a header for it the old one stays |
| HttpRequestObject.HttpRequest.HandleChar | src/server/http/HttpRequest.cpp:87-336 | the handler of the current state does what the value-level step says to every field |
| HttpRequestObject.HttpRequest.ViewsAreSafe | src/server/http/HttpRequest.cpp:87-336 | in every valid state all views lie within the handled bytes, stand in the order of the message's parts and do not overlap, and each header's key is the text its view shows |
| HttpRequestObject.HttpRequest.WalkHeaders | src/server/http/HttpRequest.cpp:215-242 | the walk over the headers finds the announced length or stops at the first that cannot be read; the content type is the value of a header of that name, of the last one met, if the walk meets one, and the old one else |
| HttpRequestObject.HttpRequest.TypeIsShown | src/server/http/HttpRequest.cpp:238-241 | in every valid state past the header block the content type shows the value of a header named content-type in any case of letters, if there is one |
| HttpRequestObject.HttpRequest.Compact | src/network/Worker.cpp:491-497 | the unhandled bytes move to the front and the request starts afresh |
| HttpRequestObject.HttpRequest.NextRequest | src/server/http/HttpRequest.cpp:59-71 | all fields are those of a fresh request except the content type, which is kept |
| HttpRequestObject.HttpRequest.Reset | src/server/http/HttpRequest.cpp:34-57 | back to a new connection's fields, transfer and speed counters included, but for the content type |
| ConnectionObject.TypeOfMessage | src/server/http/HttpRequest.cpp:215-242 | for a message with one Content-Type line, whatever the case of its name, what a handler is shown is that line's value |
| HttpStream.ParseAllOfStream | src/network/Worker.cpp:446-504 | messages back to back are read as themselves, then whatever follows |
| HttpStream.ParseAllIsGrammatical | src/network/Worker.cpp:446-504 | every stream splits into the messages read and a rest in which none begins |
| HttpStream.BooksAgree | src/network/Worker.cpp:439-504 | balanced books: the reference reads the dispatched requests first and the rest from the buffer |
| HttpStream.BooksAreClosed | src/network/Worker.cpp:396-510 | at rest, failed or full, what was dispatched is all the reference will ever read |
| ConnectionObject.Connection.DispatchedAreFirst | src/network/Worker.cpp:382-511 | at any time the dispatched requests are the first ones of the one-shot reference on everything received |
| ConnectionObject.Connection.DispatchedAreAll | src/network/Worker.cpp:382-511 | they are all of them when no transfer is running or has left bytes waiting |
| ConnectionObject.Connection.WithoutFilesAll | src/network/Worker.cpp:382-511 | they are all of them in every state, closed or not, in which the last request did not ask for a file |
| ConnectionObject.ServeStream | src/network/Worker.cpp:152-215 | for any cutting of any stream into reads, any events and any answers of the kernel: without file transfers exactly the requests of the bytes received are dispatched; and of the whole stream, if every request fits, once it was readable more often than the socket had nothing to read, without hang-ups and errors; each request with its Content-Type line's value |
| ConnectionObject.ServeAtOnce | src/network/Worker.cpp:382-511 | when the socket never has to wait, one call serves the whole stream |
| ConnectionObject.Connection.FullMeansTooLarge | src/network/Worker.cpp:398-405 | a full buffer on an open connection that is not sending, the case answered with 413, never begins a request that would have fitted |
| ConnectionObject.Connection.SentAreAsked | src/network/Worker.cpp:518-577 | the bytes sent are the files asked for, in order, each whole but perhaps the last |
| ConnectionObject.Connection.HandleRequest | src/network/Worker.cpp:382-511 | bytes are neither lost nor invented; nothing is read or dispatched while a file is being sent; the account stays balanced |
| ConnectionObject.Connection.Pipeline | src/network/Worker.cpp:446-504 | pipelined requests are dispatched until none is complete, one is malformed or one starts a transfer |
| ConnectionObject.Connection.ContinueSendFile | src/network/Worker.cpp:518-577 | offset and remaining add up to the file, the bytes sent are its prefix, a finished transfer sent all of it once; the connection is closed exactly after a socket error or for a client below 5 kB/s over 5 s, measured since the last check |
| ConnectionObject.Connection.SendWhileTaken | src/network/Worker.cpp:522-546 | the loop sends exactly what the script of results says, and ends |
| FileTransfer.PushedExactly | src/network/Worker.cpp:522-546 | a round of sending takes results as long as they take bytes and the file is not out; it sends what they offer, up to the end of the file, and leaves the rest of them |
| FileTransfer.BrokenExactly | src/network/Worker.cpp:532-545 | the socket is given up exactly when an error, or a call that takes nothing, comes before the file is out; not for being full |
| FileTransfer.SentWhole | src/network/Worker.cpp:518-577 | however often the socket is full, a file gets through whole when no call fails, the calls offer enough, the client keeps up and the socket is writable once more often than full |
| ConnectionObject.Connection.SendOut | src/network/Worker.cpp:171-212 | under these conditions, whatever else the events say, the connection stays open, the rest of the file is put on the wire and the transfer is over; nothing is dispatched meanwhile |
| ConnectionObject.Connection.OnEvent | src/network/Worker.cpp:171-212 | a hang-up closes; a readable event uses up the first arrival there is room for, its bytes joining those received, an error or the end closing; a writable one goes on with the transfer; nothing else happens. Without files a readable event brings the dispatched requests to the end of the stream or comes to a pause |
| ConnectionObject.Connection.Live | src/network/Worker.cpp:152-215 | after any sequence of events: no byte lost, the dispatched requests are the first of the reference, and all of it unless the last one asked for a file that is still being sent or has left bytes waiting; the wire holds the files asked for, in order; without files, hang-ups and errors all that will ever come is dispatched after more readable events than pauses |
| LruLinks.PromotedTable | include/common/LRUCustom.h:29-59 | unlinking a slot and linking it first keeps lists, free slots and map in order, and moves its entry to the front |
| LruLinks.RemovedKeeps | include/common/LRUCustom.h:134-149 | giving a slot back keeps used and free slots a partition and the map exact |
| LruLinks.InsertedKeeps | include/common/LRUCustom.h:124-132 | taking a slot does, too |
| LruLinks.PartitionSizes | include/common/LRUCustom.h:173-174 | used and free slots together are all slots, so no free slot means full |
| LruCache.LRU.Get | include/common/LRUCustom.h:74-87 | refines moving the key to the front |
| LruCache.LRU.GetWithoutMove | include/common/LRUCustom.h:88-96 | refines refreshing the key in place |
| LruCache.LRU.MakeRecent | include/common/LRUCustom.h:150-163 | refines moving the key to the front |
| LruCache.LRU.Put | include/common/LRUCustom.h:97-133 | refines insertion at the front with the last entry dropped from a full table; live keys keep their slots |
| LruCache.LRU.Remove | include/common/LRUCustom.h:134-149 | refines deletion |
| LruCache.LRU.Full | include/common/LRUCustom.h:173-174 | exactly when the sequence has the table's capacity |
| LruCache.LRU.OldestKey | include/common/LRUCustom.h:175-178 | the last key of the sequence |
| LruCache.LRU.GetLastActiveTime | include/common/LRUCustom.h:165-171 | the recorded time of a key, 0 without one |
| WorkerSpec.CountsAreRight | src/network/Worker.cpp:252-374 | in every reachable state each address is counted as often as it has live entries |
| WorkerSpec.LimitHolds | src/network/Worker.cpp:324-332 | under a fixed limit no address has more live clients than that |
| WorkerSpec.AcceptExactly | src/network/Worker.cpp:296-374 | whom an accepted connection brings in and throws out: nobody at the limit; else the oldest from a full table, even when registering fails, and the new client stands first if it succeeds |
| WorkerSpec.RoomIsMade | src/network/Worker.cpp:334-343 | room is made before a client is registered, so insertion never evicts |
| WorkerSpec.CloseCounts | src/network/Worker.cpp:283-293 | closing any descriptor, present or not, keeps the counters right |
| WorkerSpec.SweepIsPrefix | src/network/Worker.cpp:222-242 | the sweep ends, and closes exactly the longest run of expired clients at the tail, none within the timeout |
| WorkerSpec.SweepCompleteExactly | src/network/Worker.cpp:217-242 | it closes every expired client exactly when they stand together at the tail |
| WorkerSpec.ByTimeSweepsAll | src/network/Worker.cpp:217-242 | so it does when times never increase towards the tail |
| WorkerSpec.MoveKeepsTime | include/common/LRUCustom.h:150-163 | moving to the front keeps the list by time under a monotone clock |
| WorkerSpec.InsertKeepsTime | include/common/LRUCustom.h:97-133 | inserting does |
| WorkerSpec.RemoveKeepsTime | include/common/LRUCustom.h:134-149 | removing does |
| WorkerSpec.RefreshKeepsTimeExactly | include/common/LRUCustom.h:88-96 | refreshing in place does exactly when every client ahead was seen just now |
| WorkerSpec.EverySweepIsComplete | src/network/Worker.cpp:217-242 | in every run under a monotone clock in which refreshes in place find only clients just seen ahead, each sweep closes every expired client |
| WorkerObject.Worker.CloseConnection | src/network/Worker.cpp:252-294 | refines the close step |
| WorkerObject.Worker.AcceptClient | src/network/Worker.cpp:296-374 | refines the accept steps of any script of results, interruptions included |
| WorkerObject.ArrivalsSplit | src/network/Worker.cpp:301-321 | every arrival before a call that fails for good is taken, in order; interruptions are not |
| WorkerObject.LastTouch | src/network/Worker.cpp:384-493 | a client last looked at has that time, one last served stands first with that time, one last shut is gone |
| WorkerObject.HangupCloses | src/network/Worker.cpp:180-184 | a hang-up takes its client out of the table, and no other |
| WorkerObject.ReadySplit | src/network/Worker.cpp:166-213 | ready descriptors are dealt with one after another, none left out, each under the configuration then in force |
| WorkerObject.LastConfigHolds | src/network/Worker.cpp:512-516 | the configuration in force is the last one given |
| WorkerObject.Worker.IdleSweep | src/network/Worker.cpp:225-241 | refines the sweep, and ends |
| WorkerObject.Worker.WakeUp | src/network/Worker.cpp:222-242 | one wake-up: if the clock is past the last check, by any gap, exactly the expired clients at the tail are closed and the check is noted; otherwise nobody is closed for silence |
| WorkerObject.Worker.StartWorker | src/network/Worker.cpp:124-245 | the event loop refines the run of the step system over all wake-ups, with a configuration that may change between any two descriptors, and ends with every address counted right; the first wake-up of each new second closes exactly the expired clients at the tail, and one at which the clock has not moved closes nobody for silence |
| WorkerObject.IdleClientSurvives | src/network/Worker.cpp:152-242 | a run of the loop with a sweep every second in which, for any number of seconds, an idle client is not closed |
| JsonText.LexLayout | src/common/Json/JsonParser.cpp:54-160 | tokens spelled out with anything skipped between them are read back as themselves |
| JsonTheorems.PrintedIsStored | src/common/Json/JsonParser.cpp:40-163 | a printed tree is stored in one node per value and one per empty container, and reads back as what the parser keeps of it |
| JsonTheorems.RoundTripExactly | src/common/Json/JsonParser.cpp:40-163 | it reads back as itself exactly without strings under empty keys and without a string or number for root |
| JsonTheorems.KeptExactly | src/common/Json/JsonParser.cpp:91-101 | what is kept is the tree itself exactly when no member with an empty key has a non-empty string |
| JsonTheorems.LastNumberCounts | src/common/Json/JsonParser.cpp:116-145 | of two numbers in one member's value the second is stored |
| JsonTheorems.StrayBracketIsNothing | src/common/Json/JsonParser.cpp:103-110 | a closing bracket too many changes nothing |
| JsonTheorems.EmptyKeyIsLost | src/common/Json/JsonParser.cpp:91-101 | a member with an empty key and any non-empty string comes back under that string, without a value |
| JsonTheorems.RootNumberIsLost | src/common/Json/JsonParser.cpp:40-163 | a number that is the whole document comes back without its digits |
| JsonTheorems.EveryInputGrowsAForest | src/common/Json/JsonParser.cpp:43-161 | for every input: links lead forward inside the document, no node has two links to it, only open containers are stacked, below the current node |
| JsonLookup.LookUpKey | src/common/Json/JsonDocument.cpp:65-80 | a lookup by key finds the first member of that name and nothing else |
| JsonLookup.LookUpIndex | src/common/Json/JsonDocument.cpp:82-99 | a lookup by index finds that item and nothing past the end |
| JsonParserObject.JsonParser.Parse | src/common/Json/JsonParser.cpp:40-163 | fails exactly when too few nodes are left and then restores the pool index; else stores what the specification builds, whatever the pool held; nodes in use stay as they were |
| JsonParserObject.JsonParser.Turn | src/common/Json/JsonParser.cpp:54-160 | one turn of the loop applies one token and moves past it |
| JsonParserObject.JsonParser.GetNode | src/common/Json/JsonParser.cpp:21-38 | the next node, cleaned, or none |
| JsonParserObject.JsonParser.Release | src/common/Json/JsonParser.cpp:164-171 | fails exactly when the mark lies beyond the nodes in use |
| JsonParserObject.JsonDocument.Destroy | src/common/Json/JsonDocument.cpp:19-25 | an owner gives its nodes back, a copy nothing |
| JsonParserObject.JsonDocument.MoveFrom | src/common/Json/JsonDocument.cpp:27-31 | ownership passes on; the source keeps none |
| JsonParserObject.JsonDocument.MoveAssign | src/common/Json/JsonDocument.cpp:33-45 | what was owned is given back first; assigning to itself changes nothing |
| JsonParserObject.JsonDocument.CopyFrom | src/common/Json/JsonDocument.cpp:47-50 | copies own nothing |
| JsonParserObject.JsonDocument.CopyAssign | src/common/Json/JsonDocument.cpp:52-63 | as a move assignment, but the source keeps its ownership |
| JsonParserObject.JsonDocument.ByKey | src/common/Json/JsonDocument.cpp:65-80 | the loop finds the node the specification finds, in the pool, and ends |
| JsonParserObject.JsonDocument.ByIndex | src/common/Json/JsonDocument.cpp:82-99 | likewise by index |
| JsonArena.LastInFirstOut | src/common/Json/JsonDocument.cpp:14-63 | over any program of parsing, letting the youngest go, moving, copying and assigning to the youngest: living documents stay intact, each node range has one owner, and no release fails |
| JsonArena.ReleaseOrderExactly | src/common/Json/JsonParser.cpp:164-171 | releases succeed exactly in the reverse order of making |
| JsonArena.OlderFirstFails | src/common/Json/JsonParser.cpp:164-171 | two documents, the older released first: the second release fails |
| JsSimulator.LockstepExactly | www/view/test_features.js:277-437 | on tame input the simulator and the parser agree in state, start and current index after every byte exactly when the content length is readable |
| JsSimulator.LockstepOnPlain | www/view/test_features.js:277-437 | so they agree throughout where every content length is plain digits |
| JsSimulator.UnreadableParts | www/view/test_features.js:354-372 | a content length of x is refused by the parser and not by the simulator |
| JsSimulator.LengthsAgreeExactly | www/view/test_features.js:354-372 | at the blank line both read the same length exactly when it is a number and not negative |
| JsSimulator.NumbersOf | www/view/test_features.js:355-358 | what `parseInt` of the trimmed text and `std::stoul` make of the same text below 2^53 |
| JsSimulator.GenerateFsmSteps | www/view/test_features.js:257-471 | one step for the start, one for every byte read, and an error step exactly when the text ends too early |
| UrlCoding.DecodeInverts | include/server/http/HttpUtils.h:171-201 | decoding undoes percent-encoding of every byte string that escapes at least the percent and plus signs |
| UrlCoding.PlainExactly | include/server/http/HttpUtils.h:171-201 | a text decodes to itself exactly without plus signs and readable escapes |
| UrlCoding.LooseEscapes | include/server/http/HttpUtils.h:177-192 | what the stream extraction makes of a lone digit, a blank and a sign in an escape |
| UrlCoding.Decoded | include/server/http/HttpUtils.h:171-201 | decoding never lengthens |
| UrlCoding.UrlDecode | include/server/http/HttpUtils.h:171-201 | the loop computes the decoding |
| Multipart.UploadExactly | include/server/http/HttpUtils.h:64-115 | a well-formed single part gives back its quoted name, and its data exactly when it does not contain the delimiter, whatever it ends with |
| Multipart.DelimiterCutsData | include/server/http/HttpUtils.h:64-115 | data that holds the delimiter does not come back |
| Multipart.WithoutBoundary | include/server/http/HttpUtils.h:64-123 | without a boundary the whole body is the file, under the name in its header or the default name |
| Multipart.WithoutPart | include/server/http/HttpUtils.h:64-116 | with a boundary that encloses no part with a blank line it is the file under the default name |
| Multipart.BarePart | include/server/http/HttpUtils.h:88-114 | headers ended by two bare line feeds are told from the data behind them, which loses one line feed at its end |
| Multipart.StrippedExactly | include/server/http/HttpUtils.h:106-113 | exactly one line break of either kind goes from the end |
| Multipart.Find | include/server/http/HttpUtils.h:68-104 | the first occurrence from an index on, or none |
| Multipart.HandleFileUpload | include/server/http/HttpUtils.h:51-168 | the name and data saved, or the refusal of a file of another kind |
| Multipart.BaseName | include/server/http/HttpUtils.h:125-129 | the name behind the last slash of either kind |
| Multipart.Extension | include/server/http/HttpUtils.h:132-147 | the name from its last point on, in lower case, and nothing exactly when there is no point |
| RateLimit.PassedExactly | src/server/http/Router.cpp:69-90 | an address that asks n times in a second is let through min(n, max(L, 1)) times |
| RateLimit.PassedBounded | src/server/http/Router.cpp:69-90 | over k seconds in a row at most k times the limit |
| RateLimit.AdmittedExactly | src/server/http/Router.cpp:69-90 | a request is let through exactly when fewer than max(L, 1) of its address came before it in its second |
| RateLimit.WindowCounts | src/server/http/Router.cpp:69-83 | an address's window counts its requests in the second of the last one |
| RateLimit.Limiter.Check | src/server/http/Router.cpp:69-90 | one request updates its address's window alone |
| RouterObject.OrderFreeExactly | src/server/http/Router.cpp:168-208 | the choice depends on the table's order exactly when wildcards with different handlers match a key without a route of its own |
| RouterObject.OverlapDependsOnOrder | src/server/http/Router.cpp:168-208 | one wildcard inside another with handlers of their own: the order chooses |
| RouterObject.PrefixFreeChoice | src/server/http/Router.cpp:168-208 | with no wildcard prefix of another: exact match, else the one matching wildcard, else the fallback, in any order |
| RouterObject.RouteServesItsMethod | src/server/http/Router.cpp:28-53 | a route serves requests of its own method only, with its own path or, with a wildcard, one that starts like it |
| RouterObject.MethodsAreNamed | src/server/http/HttpRequest.cpp:102-120 | a method is read from exactly the word its routes are registered under |
| RouterObject.Router.Dispatch | src/server/http/Router.cpp:60-215 | rate limit, preflight, decoding and choice, in that order |

## Left out

- Sockets, epoll registration, affinity, linger, partial sends of response headers and the draining reads of a closing connection: kernel effects without influence on the state modelled here.
- `ServeFile`: path canonicalisation, `stat`, `open` and MIME types; only the fields that start a transfer are kept, and which file is served is an arbitrary choice.
- `NetworkServer`: threads, signals and configuration reload; `UpdateConfig` is one assignment.
- Response texts, logging, CORS headers, students' averages.
- LruCache.LRU.GetLastActiveTime: times are unbounded integers here, while the source truncates the clock to 32 bits.
- ConnectionObject.Connection.ContinueSendFile: the speed is compared without the rounding of a floating-point division.
- ConnectionObject.Connection.DispatchedAreAll: states nothing while a file is being sent or bytes wait behind a finished transfer, because the source parses those only when new bytes arrive.
- JsonParserObject.JsonDocument.Destroy: a release that throws ends the process in the source, because destructors do not throw; here it is a result and the model goes on.
- JsonParserObject.JsonDocument.MoveAssign: likewise, because the source's assignment is noexcept; a copy assignment that throws is a result as well, as in the source.
- Multipart.HandleFileUpload: a target file that cannot be opened, and the clock and descriptor put before the name it is saved under.
- JsSimulator.GenerateFsmSteps: the text describing each step.
- HttpRequestObject.HttpRequest.NextRequest: the content type is not part of being fresh, because the source does not clear it.
- The connection and the worker's table are modelled as two systems; a request object inside a table slot is represented there by its client address.
- JsonParserObject.JsonParser.Parse: bodies are as long as the type `int` of the source's index allows; overflow beyond that is not modelled.
- JsonDocument::ToString and the value of a null document: a view that was never set and an empty one read the same here, as they do there.
- JsSimulator.LockstepExactly: content lengths from 2^53 on, where doubles round, and text beyond ASCII are outside its condition.
- RateLimit.Limiter.Check: the counter is an unbounded integer.
- `GetHeader`, HTML, CSS, the rest of the JavaScript, benchmarks, build files, the uploaded SQL file and the balancer, which is a comment.
