# grpcbackend: a verified model

This project models the parts of the grpcbackend C++ library in which bytes, callbacks and threads meet,
and proves what they are for. Six components are modelled, and a smaller seventh:

* **JSON codec** (`picojson.h`, built with 64-bit integers). `Cursor` is the one-byte-pushback input.
  `JsonStrings`, `JsonNumbers`, `JsonValues`, `JsonParse` and `JsonPrint` say what each parsing and
  printing routine does to the text in front of it; `JsonParser` and `JsonPrinter` are the routines
  themselves, moving the cursor and writing to an output, proved to do exactly that. `JsonGrammar` says what JSON
  texts are and denote, without a parser; `JsonLiterals` and `JsonAccepts` prove that the parser accepts exactly
  those, and `JsonRoundTrip` that what is printed is one of them, laid out in one way, so that parser and printer
  undo each other.
* **Websocket writer** (`ws_connection`). `WsWriter` holds the queue, the `done` flag and the operations
  issued; `WsRuns` is the step system of all threads and completions.
* **JSON-RPC** (`json_rpc.cpp`). `JsonRpc` and `JsonRpcRuns` fold answers that arrive in any order into
  one reply; `JsonRpcServer` is the dispatcher with the objects of calls and batches; `JsonRpcMessages` goes
  from the text of a message to the text of its reply.
* **Router** (`router.cpp`). `RouteRegex` gives the emitted regular expressions a meaning, `RouteCompile`
  is the compiler, `RouteMeaning` proves that the two agree; `Router` and `RouterRuns` are dispatch, the
  copy-on-write snapshots and the middleware chain.
* **Websocket hub** (`hub.cpp`). `HubViews` is the index of groups as a value, `Hub` the heap objects.
* **URIs and forms** (`uri.cpp`). `Uri` holds the loops, `UriForms` the proof that they agree with each
  other and with an encoder. `Searches` is what they share with the router, and
  `HexDigits` what they share with the JSON codec.
* **HTTP bodies** (`http_connection`). `HttpBody` holds the response, the stream helper and the body reader,
  `HttpRuns` whole runs of them.

Where the source updates objects in place the model is a class whose methods are proved equal, in their
effect on the abstract state, to a function; what the source promises is then proved of that function, for
all inputs or for all runs.

Conventions. A string is a sequence of characters, one for each byte; where a claim needs it, bytes are required to be below 256. A `double`
is its 64-bit pattern, and `strtod`, `printf` for doubles and the locale's decimal point are the
parameters of a `Platform`. Objects are sequences of fields, strictly sorted by key in unsigned byte
order. Shifts and masks are written as divisions and remainders. Exceptions are results (`Threw`,
`Raised`, `None`). A lock held across a routine makes it one step; what the completion queue runs for one
connection runs one at a time.

Where the code does not do what one might expect, the model follows the code; the exact condition is proved,
and a run or an input that fails it is given:

* `JsonRoundTrip.RoundTrip`: an integer printed without a newline is read back if and only if no number
  character follows (`DigitsRunTogether`);
* `WsRuns.WritesDoneExactly`: the one way in which a write starts on a finished connection (`WritesDoneHappens`);
* `JsonRpcRuns.OneReply`: a batch is replied to once if and only if the last answer is the first to complete
  it (`RepliesTwice`);
* `HubViews.AgreesExactly`: the two sides of the hub's index agree if and only if neither `close_all` nor a
  late `on_connect` has left something behind (`ClosedDisagrees`, `ConnectedTwiceOver`);
* `HttpRuns.HeadSentOnce`: status and headers are sent once if and only if `end` is not given a body while the
  calls before it leave a head (`HeadSentTwice`);
* `HttpRuns.CalledOnceExactly`: reading the body calls back once if and only if its end has not been seen before.

## Model

| member | source | states |
|---|---|---|
| Cursor.Input.Getc | grpcbackend_cpp/include/grpcbackend/picojson.h:646-659 | the next byte, or -1 at the end, and the cursor state afterwards; the pushed-back position is the old one |
| Cursor.Input.Ungetc | grpcbackend_cpp/include/grpcbackend/picojson.h:660-662 | the text in front of the cursor is again what it was before the last byte was taken |
| Cursor.Input.SkipWs | grpcbackend_cpp/include/grpcbackend/picojson.h:674-682 | passes exactly the four kinds of white space, and counts the lines passed |
| Cursor.Input.Expect | grpcbackend_cpp/include/grpcbackend/picojson.h:683-690 | skips white space, then takes the character if it is the one expected and leaves it otherwise |
| Cursor.Input.Match | grpcbackend_cpp/include/grpcbackend/picojson.h:691-699 | takes the longest common prefix of text and pattern, and reports whether that is the whole pattern |
| Cursor.MatchingIs | grpcbackend_cpp/include/grpcbackend/picojson.h:691-699 | what is taken is the longest common prefix of text and pattern |
| Cursor.Input.Cur | grpcbackend_cpp/include/grpcbackend/picojson.h:663-670 | the logical position; the consumed byte is passed without being counted as a line |
| Cursor.Run | grpcbackend_cpp/include/grpcbackend/picojson.h:637-700 | every sequence of cursor operations keeps the invariant: position inside the text, line number one more than the newlines passed |
| Cursor.UngetcUndoesGetc | grpcbackend_cpp/include/grpcbackend/picojson.h:646-662 | after any operations, ungetc undoes exactly the last getc, twice is the same as once, and at the end of input both are harmless |
| JsonStrings.QuadHexValue | grpcbackend_cpp/include/grpcbackend/picojson.h:702-721 | four digits are accepted if and only if all are hexadecimal, with their positional value |
| JsonStrings.HexValueIs | grpcbackend_cpp/include/grpcbackend/picojson.h:708-717 | a digit of either case has the value of its place in the table of that case, and nothing else is a digit |
| JsonStrings.UnitIs | grpcbackend_cpp/include/grpcbackend/picojson.h:702-721 | four characters are a UTF-16 unit of some value if and only if they are digits of either case that write it |
| JsonStrings.CodePointDecodes | grpcbackend_cpp/include/grpcbackend/picojson.h:723-762 | an escape is accepted if and only if it is a scalar value, alone or as a surrogate pair (section 7 of RFC 8259); lone surrogates are rejected; the bytes are that scalar's UTF-8 |
| JsonStrings.Utf8Correct | grpcbackend_cpp/include/grpcbackend/picojson.h:745-760 | the emitted bytes are the encoding section 3 of RFC 3629 defines, in the shortest form |
| JsonStrings.DecodedNotLonger | grpcbackend_cpp/include/grpcbackend/picojson.h:764-803 | a decoded string is shorter than the bytes consumed for it, closing quote included |
| JsonLiterals.LiteralExactly | grpcbackend_cpp/include/grpcbackend/picojson.h:764-803 | over all texts: a string literal is accepted, with its bytes and the place to stop, if and only if it consists of plain characters that are no control character, one-letter escapes of section 7 of RFC 8259, UTF-16 units and surrogate pairs, up to a quote |
| JsonLiterals.PieceReads | grpcbackend_cpp/include/grpcbackend/picojson.h:773-799 | each such piece, before any text, is read as the bytes it stands for |
| JsonLiterals.EscapedPiece | grpcbackend_cpp/include/grpcbackend/picojson.h:514-542 | exactly what is printed for each byte: a letter escape if it has one, the slash included, four lower-case digits for other control characters and DEL, itself otherwise |
| JsonLiterals.StringRoundTrip | grpcbackend_cpp/include/grpcbackend/picojson.h:544-549 | a printed string is read back as itself and reading stops behind its quote |
| JsonNumbers.DecimalRead | grpcbackend_cpp/include/grpcbackend/picojson.h:472-476 | strtoimax of the printed form of any int64, both extremes included, is that int64 |
| JsonNumbers.NoLeadingZero | grpcbackend_cpp/include/grpcbackend/picojson.h:472-476 | a printed integer has no zero in front |
| JsonNumbers.NumberRunOf | grpcbackend_cpp/include/grpcbackend/picojson.h:841-859 | number characters are all collected, with the locale's decimal point for each period, whatever follows them |
| JsonValues.PutLookup | grpcbackend_cpp/include/grpcbackend/picojson.h:997-1001 | storing a field changes the value of its key and of no other |
| JsonValues.PutSorted | grpcbackend_cpp/include/grpcbackend/picojson.h:997-1001 | the object stays sorted, without a key twice |
| JsonValues.PutAllLookup | grpcbackend_cpp/include/grpcbackend/picojson.h:997-1001 | of several members with one key the last decides |
| JsonValues.PutAllInOrder | grpcbackend_cpp/include/grpcbackend/picojson.h:599-612 | storing fields in key order rebuilds the object they came from |
| JsonValues.LessTotal | grpcbackend_cpp/include/grpcbackend/picojson.h:594-599 | byte order of keys is total and irreflexive |
| JsonValues.LessExactly | grpcbackend_cpp/include/grpcbackend/picojson.h:594-599 | the order of keys is the lexicographic order of unsigned bytes |
| JsonValues.LessTransitive | grpcbackend_cpp/include/grpcbackend/picojson.h:594-599 | byte order of keys is transitive |
| JsonParse.ParseValue | grpcbackend_cpp/include/grpcbackend/picojson.h:861-913 | terminates on every text, through all mutual recursion, and never gives back more than it was given |
| JsonParse.DiscardAgrees | grpcbackend_cpp/include/grpcbackend/picojson.h:951-1055 | whenever building a value does not throw, the null context gives the same verdict and stops at the same place |
| JsonParse.FiniteNeverThrows | grpcbackend_cpp/include/grpcbackend/picojson.h:972-975 | parsing throws on no text if the reader of doubles yields finite values |
| JsonParse.ContextsAgree | grpcbackend_cpp/include/grpcbackend/picojson.h:951-1055 | then both contexts accept the same texts and stop at the same cursor, on failure too |
| JsonParse.ParsedWellFormed | grpcbackend_cpp/include/grpcbackend/picojson.h:951-1001 | every parsed value has sorted objects without repeated keys, at every depth |
| JsonAccepts.AcceptsExactly | grpcbackend_cpp/include/grpcbackend/picojson.h:861-1001 | over all texts: parsing yields a value and a rest if and only if the text is white space, a text of the grammar that denotes that value, and that rest; a number ends where no number character follows, and a later member of one key replaces an earlier one |
| JsonAccepts.IntegerExactly | grpcbackend_cpp/include/grpcbackend/picojson.h:891-900 | strtoimax takes a text if and only if it is a signed decimal numeral in range, with its positional value |
| JsonAccepts.InfiniteThrows | grpcbackend_cpp/include/grpcbackend/picojson.h:902-908 | a number that strtod makes infinite: building a value throws, the null context accepts it |
| JsonRoundTrip.PrintedExactly | grpcbackend_cpp/include/grpcbackend/picojson.h:559-629 | every byte printed for a value without doubles, at every depth and in both modes: no white space but, in pretty mode, a line for each element and entry with two blanks for each level, and a blank behind each colon |
| JsonRoundTrip.TreeDenotes | grpcbackend_cpp/include/grpcbackend/picojson.h:566-629 | what is printed is a text of the grammar that denotes the value |
| JsonRoundTrip.BodyRoundTrip | grpcbackend_cpp/include/grpcbackend/picojson.h:566-629 | printed at any depth, compact or indented, and followed by any text that does not continue a number, a value is read back and reading stops at its end |
| JsonRoundTrip.RoundTrip | grpcbackend_cpp/include/grpcbackend/picojson.h:551-629 | for every well-formed value without doubles, both print modes and every suffix: parsing yields the value and stops behind it (before the pretty newline) if and only if the value is not a bare integer followed by a number character |
| JsonRoundTrip.DigitsRunTogether | grpcbackend_cpp/include/grpcbackend/picojson.h:841-899 | the printed 1 with a 2 behind it is read as 12 |
| JsonRoundTrip.TextInjective | grpcbackend_cpp/include/grpcbackend/picojson.h:551-629 | two values that print alike are the same value |
| JsonRoundTrip.ReprintedMeansTheSame | grpcbackend_cpp/include/grpcbackend/picojson.h:861-913 | whatever text a value was parsed from, printing and parsing it again gives that value |
| JsonParser.ReadQuadHex | grpcbackend_cpp/include/grpcbackend/picojson.h:702-721 | the loop over four digits yields their value or -1 and leaves the cursor as specified |
| JsonParser.ReadCodePoint | grpcbackend_cpp/include/grpcbackend/picojson.h:723-762 | the branches over a surrogate pair and the length of the encoding do what CodePoint says, to the cursor too |
| JsonParser.ReadSecondHalf | grpcbackend_cpp/include/grpcbackend/picojson.h:734-738 | what is consumed of the second half of a pair in every case of failure |
| JsonParser.ReadString | grpcbackend_cpp/include/grpcbackend/picojson.h:764-803 | the string loop refines StringBody: same verdict, same bytes, same place |
| JsonParser.ReadNumberText | grpcbackend_cpp/include/grpcbackend/picojson.h:841-859 | the loop collects exactly the run of number characters, with the locale's decimal point |
| JsonParser.ReadNumber | grpcbackend_cpp/include/grpcbackend/picojson.h:886-907 | an int64 if strtoimax takes the whole run without overflow, otherwise a double if strtod does, otherwise failure |
| JsonParser.ReadWord | grpcbackend_cpp/include/grpcbackend/picojson.h:865-874 | null, true and false are read whole or refused |
| JsonParser.ReadValue | grpcbackend_cpp/include/grpcbackend/picojson.h:861-913 | dispatch on the first character refines ParseValue, in both contexts |
| JsonParser.ReadArray | grpcbackend_cpp/include/grpcbackend/picojson.h:805-820 | refines ParseArray, the empty array and the missing bracket included |
| JsonParser.ReadItems | grpcbackend_cpp/include/grpcbackend/picojson.h:813-819 | the do-while loop over the items yields the items in order |
| JsonParser.ReadObject | grpcbackend_cpp/include/grpcbackend/picojson.h:822-839 | refines ParseObject |
| JsonParser.ReadMembers | grpcbackend_cpp/include/grpcbackend/picojson.h:829-838 | the loop that stores members as it reads them yields all members put into an empty object, later ones over earlier ones |
| JsonParser.ReadMember | grpcbackend_cpp/include/grpcbackend/picojson.h:830-836 | one key, colon and value, or the place where it fails |
| JsonParser.ReadKey | grpcbackend_cpp/include/grpcbackend/picojson.h:830-833 | a quoted key and a colon, or the place where it fails |
| JsonPrinter.PrintString | grpcbackend_cpp/include/grpcbackend/picojson.h:544-549 | appends the quoted string and nothing else |
| JsonPrinter.PrintEscaped | grpcbackend_cpp/include/grpcbackend/picojson.h:514-547 | the loop over the bytes appends the escape of each in order |
| JsonPrinter.PrintIndent | grpcbackend_cpp/include/grpcbackend/picojson.h:559-564 | a newline and two spaces for each level |
| JsonPrinter.PrintItems | grpcbackend_cpp/include/grpcbackend/picojson.h:576-584 | the loop over an array appends its items with commas and indentation |
| JsonPrinter.PrintMembers | grpcbackend_cpp/include/grpcbackend/picojson.h:599-612 | the loop over an object appends its members in key order |
| JsonPrinter.PrintValue | grpcbackend_cpp/include/grpcbackend/picojson.h:566-629 | appends the text of the value at that depth, with the newline of the outermost level |
| JsonPrinter.Print | grpcbackend_cpp/include/grpcbackend/picojson.h:555-557 | the text of a value that the round-trip laws are about |
| JsonRpcRuns.ReplyCount | grpcbackend_cpp/src/util/json_rpc.cpp:120-131 | a batch has been answered once for each answer that arrived when every call had one |
| JsonRpcRuns.OneReply | grpcbackend_cpp/src/util/json_rpc.cpp:120-131 | there has been exactly one reply if and only if the last answer was the first to complete the batch |
| JsonRpcRuns.RepliesTwice | grpcbackend_cpp/src/util/json_rpc.cpp:120-131 | a batch of one call that answers twice is replied to twice |
| JsonRpcRuns.BatchRepliesOnce | grpcbackend_cpp/src/util/json_rpc.cpp:115-147 | if every call answers once, in any order, the reply function is called once, at the last answer and never before, with the specified text |
| JsonRpcRuns.OrderIrrelevant | grpcbackend_cpp/src/util/json_rpc.cpp:115-147 | all orders of the answers end in the same state and the same reply |
| JsonRpcRuns.WholeBatch | grpcbackend_cpp/src/util/json_rpc.cpp:133-147 | the same when some calls are answered while the batch is dispatched and the others later |
| JsonRpcRuns.RunContinues | grpcbackend_cpp/src/util/json_rpc.cpp:120-131 | answers in two groups have the effect of all of them in one |
| JsonRpcRuns.RepliesTell | grpcbackend_cpp/src/util/json_rpc.cpp:120-131 | over every run of answers, an answer after which every call has one sends the reply that tells the latest answer of each, and any other sends nothing |
| JsonRpc.ResponseMembers | grpcbackend_cpp/src/util/json_rpc.cpp:19-41 | a response has version, the request's id and either a result or an error, and no other members (section 5 of JSON-RPC 2.0) |
| JsonRpc.ErrorMembers | grpcbackend_cpp/src/util/json_rpc.cpp:32-35 | an error has code and message, data unless it is null, and no other members |
| JsonRpc.RefusalMembers | grpcbackend_cpp/src/util/json_rpc.cpp:95-101 | a refusal is an error response without an id |
| JsonRpc.DispatchedAre | grpcbackend_cpp/src/util/json_rpc.cpp:145-175 | dispatching brings, in the order of the calls, exactly the answers that are there when the registered functions return, and error -32601 for each method without one |
| JsonRpcRuns.AllNotifications | grpcbackend_cpp/src/util/json_rpc.cpp:123-129 | a batch of notifications is answered with an empty array, unlike section 6 of JSON-RPC 2.0 |
| JsonRpcRuns.BatchReplyParsed | grpcbackend_cpp/src/util/json_rpc.cpp:114-147 | end to end: the reply text parses to an array with exactly one object per request that has an id, in request order, with its id and its answer |
| JsonRpcServer.Batch.HandleResult | grpcbackend_cpp/src/util/json_rpc.cpp:120-131 | the loop that collects the results and replies does what HandleResult says, to the result map and to the replies |
| JsonRpcServer.Batch.Answer | grpcbackend_cpp/src/util/json_rpc.cpp:14-42 | respond and error of one context of a batch are one step of the run |
| JsonRpcServer.Server.RegisterMethod | grpcbackend_cpp/src/util/json_rpc.cpp:159-164 | throws and changes nothing if and only if the name is taken |
| JsonRpcServer.Server.HandleCall | grpcbackend_cpp/src/util/json_rpc.cpp:166-175 | the function registered under the method is called and its answer is taken; an unknown method is answered with error -32601 |
| JsonRpcMessages.MessageAnswered | grpcbackend_cpp/src/util/json_rpc.cpp:90-175 | from text to text: for every message that is a batch, whatever was sent before and whichever calls answer at once or later in whatever order, exactly one more text is sent once all have answered, and it parses to the answers in the order of the calls, each with its id; a call answered at once has the answer of the function registered under its method |
| JsonRpcMessages.SingleTold | grpcbackend_cpp/src/util/json_rpc.cpp:103-113 | a call outside a batch sends one text, which parses to its response, if it has an id and answers, and nothing otherwise |
| JsonRpcMessages.RefusalTold | grpcbackend_cpp/src/util/json_rpc.cpp:94-102 | the text sent for a message that is no request parses to an error response of that code and message |
| JsonRpcServer.Server.DispatchBatch | grpcbackend_cpp/src/util/json_rpc.cpp:145-147 | the loop over the contexts amounts to the run of the answers given at once, up to a call without a method |
| JsonRpcServer.Call.Answer | grpcbackend_cpp/src/util/json_rpc.cpp:14-42 | respond and error of a call outside a batch, at once or later, send the response, and nothing for a notification |
| JsonRpcServer.Server.CallSingle | grpcbackend_cpp/src/util/json_rpc.cpp:103-113 | a single call is replied to at once exactly if it has an id and is answered at once; otherwise it is handed back open; without a method the process ends |
| JsonRpcServer.Server.CallBatch | grpcbackend_cpp/src/util/json_rpc.cpp:115-147 | a new batch holds the requests in order and has run what was answered at once, up to a call without a method |
| JsonRpcServer.Server.HandleMessage | grpcbackend_cpp/src/util/json_rpc.cpp:90-157 | for every text: parse error, single call, batch, batch with an element that is no object, or invalid request, with the replies sent in each case and how the call ends |
| WsWriter.WsConnection.QueueResponse | grpcbackend_cpp/src/handler.cpp:51-60 | enqueues and starts a write exactly if the queue was empty |
| WsWriter.WsConnection.SendCb | grpcbackend_cpp/src/handler.cpp:26-49 | removes the front, starts the next write before acting on a CLOSE, finishes at most once, and runs the callback unless it returns early |
| WsWriter.WsConnection.OnMessage | grpcbackend_cpp/src/handler.cpp:114-132 | a client CLOSE finishes the call if nothing has; another message is handed on and reading continues |
| WsWriter.WsConnection.SendMessage | grpcbackend_cpp/src/handler.cpp:139-146 | enqueues the message with its callback unless done |
| WsWriter.WsConnection.Close | grpcbackend_cpp/src/handler.cpp:148-153 | enqueues a CLOSE unless done |
| WsWriter.WsConnection.OnConnect | grpcbackend_cpp/src/handler.cpp:95-112 | the reply is queued after whatever the application's own handler sent |
| WsRuns.WriterInvariant | grpcbackend_cpp/src/handler.cpp:26-132 | in every reachable state: completed messages followed by the queue are all that was enqueued, in order; at most one write is outstanding and it is the front; an open connection with a non-empty queue is writing; Finish was issued once if done and not at all otherwise, after on_disconnect; on_disconnect ran once for each CLOSE either way; the callbacks run are those of the completed messages in order; the application was told exactly the messages the client sent while the connection was open, in order, each before the next read; one read is outstanding while reading goes on and none afterwards |
| WsRuns.ConnectIsRun | grpcbackend_cpp/src/handler.cpp:95-112 | on_connect is the run in which the application sends what it likes and then the reply is queued behind it |
| WsRuns.WritesDoneExactly | grpcbackend_cpp/src/handler.cpp:33-60 | from any reachable state a step issues a write on a finished connection if and only if it is the late enqueue, into an empty queue, of a sender that tested `done` earlier |
| WsRuns.WritesDoneHappens | grpcbackend_cpp/src/handler.cpp:139-146 | a run in which that happens |
| WsRuns.AtomicSafety | grpcbackend_cpp/src/handler.cpp:33-60 | if testing `done` and enqueueing are one step, no write is ever issued on a finished connection, over all runs of client CLOSE, close and repeated close |
| WsRuns.Drains | grpcbackend_cpp/src/handler.cpp:26-49 | each completion of an open connection without a CLOSE in its queue moves one message and starts the next |
| WsRuns.EverythingWritten | grpcbackend_cpp/src/handler.cpp:26-60 | after as many completions as the queue is long, everything enqueued has been written |
| Uri.DecodeExactly | grpcbackend_cpp/src/uri.cpp:37-66 | decoding yields a text if and only if it is what the coded text means: a percent sign with two hexadecimal digits of either case stands for the byte they write, every other character for itself (section 2.1 of RFC 3986) |
| Uri.ThrowsExactly | grpcbackend_cpp/src/uri.cpp:37-66 | it throws if and only if some percent sign is not followed by two hexadecimal digits |
| Uri.UrlDecode | grpcbackend_cpp/src/uri.cpp:53-66 | the loop over offsets, with its test of the remaining length and the NUL behind the end, computes Decode and throws exactly when that fails |
| Uri.UrlEncode | grpcbackend_cpp/src/uri.cpp:68-84 | the loop computes the encoding of every byte in order |
| Uri.EncodeMeans | grpcbackend_cpp/src/uri.cpp:68-84 | letters, digits and four marks stand for themselves, every other byte is a percent sign and its two lower-case digits |
| Uri.DecodeEncode | grpcbackend_cpp/src/uri.cpp:53-84 | decoding what was encoded gives back every byte string (section 2.1 of RFC 3986) |
| Uri.ParseFormdata | grpcbackend_cpp/src/uri.cpp:86-102 | the loop, offsets always in range, yields the decoded entries of the form or throws |
| Uri.ParseUri | grpcbackend_cpp/src/uri.cpp:5-35 | throws exactly on a resource without a leading slash; path, query, file name and extension are cut at the first `?`, the last slash and the last dot |
| Uri.ParseQuery | grpcbackend_cpp/src/uri.cpp:11-23 | the loop that goes on with npos as its offset terminates and yields the pairs of the query |
| Uri.NextQueryComponent | grpcbackend_cpp/src/uri.cpp:14-15 | substr with the wrapped length npos - offset still cuts at the end of the text |
| Uri.NextComponent | grpcbackend_cpp/src/uri.cpp:90-91 | position and text of the next component |
| Uri.SplitComponent | grpcbackend_cpp/src/uri.cpp:17-20 | key and value of a component, cut at its first equals sign |
| Uri.FileName | grpcbackend_cpp/src/uri.cpp:28-30 | what follows the last slash |
| Uri.Extension | grpcbackend_cpp/src/uri.cpp:31-33 | what follows the last dot, if there is one |
| UriForms.LoopsAgree | grpcbackend_cpp/src/uri.cpp:5-102 | for every path and every text behind it the form parser equals url_decode over the query of the URI |
| UriForms.QueryExactly | grpcbackend_cpp/src/uri.cpp:8-24 | the query has the pairs of the non-empty components behind the first question mark, in order, and none without one |
| UriForms.ComponentsAre | grpcbackend_cpp/src/uri.cpp:12-23 | the components are the texts between the ampersands |
| UriForms.PairExactly | grpcbackend_cpp/src/uri.cpp:17-20 | a component is cut at its first equals sign; without one it is a key with an empty value |
| UriForms.FailsExactly | grpcbackend_cpp/src/uri.cpp:86-102 | decoding the entries fails if and only if some key or value cannot be decoded |
| UriForms.FormRoundTrip | grpcbackend_cpp/src/uri.cpp:37-102 | any list of byte-string pairs, encoded and joined, is what the form parser gives back, empty keys, empty values and duplicates included |
| RouteRegex.MatchExact | grpcbackend_cpp/src/http/router.cpp:255-255 | the backtracking matcher finds a match if and only if there is one, and what it finds is one |
| RouteRegex.CaptureCount | grpcbackend_cpp/src/http/router.cpp:263-263 | every match has as many captures as the expression has capturing groups |
| RouteCompile.ParseRoute | grpcbackend_cpp/src/http/router.cpp:311-341 | the loop over non-empty segments yields one part for each |
| RouteCompile.PartExactly | grpcbackend_cpp/src/http/router.cpp:315-337 | a segment is a parameter if and only if it is `{name}` or `:name`, an expression if and only if it is `{name:expression}`, and a literal otherwise |
| RouteCompile.RouteSpelled | grpcbackend_cpp/src/http/router.cpp:311-341 | the parts of a route are spelled by the texts between its runs of slashes, in order |
| RouteCompile.EscapeText | grpcbackend_cpp/src/http/router.cpp:348-353 | replacing the special characters one after another equals escaping each character once |
| RouteCompile.EscapeRound | grpcbackend_cpp/src/http/router.cpp:350-353 | one more round of replacement escapes exactly one more character and disturbs none done before |
| RouteCompile.BuildRouteRegex | grpcbackend_cpp/src/http/router.cpp:343-376 | the loop yields the text of the expression and the keys in order |
| RouteMeaning.EscapedReads | grpcbackend_cpp/src/http/router.cpp:347-355 | an escaped literal, read as a regular expression, is the literal's characters |
| RouteMeaning.BuiltReads | grpcbackend_cpp/src/http/router.cpp:343-376 | the emitted text is a regular expression, namely that of the route |
| RouteMeaning.KeysCounted | grpcbackend_cpp/src/http/router.cpp:356-371 | it has one capturing group for each key |
| RouteMeaning.RouteMeans | grpcbackend_cpp/src/http/router.cpp:311-376 | it matches a path with given captures if and only if the path is a slash and segments joined by slashes that equal each literal, are non-empty and without slash at each parameter, and the captures are the parameters' segments |
| RouteMeaning.CapturesUnique | grpcbackend_cpp/src/http/router.cpp:263-273 | there is only one choice of captures, and one for each key |
| RouteMeaning.KeyHolds | grpcbackend_cpp/src/http/router.cpp:356-371 | the key and the capture at one place belong to one part of the route: its name and its segment |
| RouteMeaning.LastKey | grpcbackend_cpp/src/http/router.cpp:356-371 | the key of the last part of a name is the last key of that name |
| Router.RouterObject.Route | grpcbackend_cpp/src/http/router.cpp:41-64 | for each method and each route of the handler a compiled entry is appended, and the snapshot is replaced |
| Router.RouterObject.RouteVerb | grpcbackend_cpp/src/http/router.cpp:49-58 | the inner loop over the routes appends their entries in order |
| Router.RouterObject.CompileRoute | grpcbackend_cpp/src/http/router.cpp:50-55 | one route compiled |
| Router.RouterObject.UseMiddleware | grpcbackend_cpp/src/http/router.cpp:66-79 | the middleware is inserted behind those of its position |
| Router.RouterObject.DebugMode | grpcbackend_cpp/src/http/router.cpp:81-94 | the flag is set in a new snapshot |
| Router.DoRouting | grpcbackend_cpp/src/http/router.cpp:239-285 | the search loop yields the first entry that matches, with its captures added to the parameters on the connection, the failed size check, or not found |
| Router.EntryMatches | grpcbackend_cpp/src/http/router.cpp:255-273 | a compiled entry matches exactly the paths its route describes, the size check passes, and the captures are the path's segments |
| Router.FirstFit | grpcbackend_cpp/src/http/router.cpp:251-285 | dispatch chooses the first route that fits the path, with each parameter holding the segment of the last part of its name and other parameters unchanged; not found if no route fits |
| Router.ParamsAre | grpcbackend_cpp/src/http/router.cpp:271-273 | a parameter holds the capture of the last key of its name |
| Router.ParamKept | grpcbackend_cpp/src/http/router.cpp:257-273 | a parameter that no key names is what it was |
| Router.CapturesHold | grpcbackend_cpp/src/http/router.cpp:263-273 | the captures of a path put its segments into the parameters |
| Router.SegmentsUnique | grpcbackend_cpp/src/http/router.cpp:263-273 | with no user expression but at the end of a route a path has one choice of segments, so the parameters are determined by the path |
| Router.ApplyBuilt | grpcbackend_cpp/src/http/router.cpp:41-124 | every update keeps all entries compiled from their own routes |
| Router.ParsedTailLast | grpcbackend_cpp/src/http/router.cpp:311-341 | a route with its pattern at the end, if any, meets the condition under which captures are unique |
| RouterRuns.InsertedStable | grpcbackend_cpp/src/http/router.cpp:74-74 | inserting keeps the chain sorted and changes no position but its own, where the new one is last |
| RouterRuns.Request.MwHelperGlobal | grpcbackend_cpp/src/http/router.cpp:127-136 | the chain of continuations over the global middleware, each passing on any number of connections, its own or others |
| RouterRuns.Request.MwHelperLocal | grpcbackend_cpp/src/http/router.cpp:138-147 | the same over a route's middleware, ending in its handler |
| RouterRuns.Request.DoRoute | grpcbackend_cpp/src/http/router.cpp:239-298 | dispatch and the chain of the chosen route |
| RouterRuns.AtMostOnce | grpcbackend_cpp/src/http/router.cpp:127-165 | if no middleware calls next twice, a request enters the global middleware in order, up to one that does not call it; otherwise it is dispatched to the first route that fits the path they leave, enters that route's middleware in the same way, and is handled at most once, with the path's segments in the parameters; the size check never fails |
| RouterRuns.EachOnce | grpcbackend_cpp/src/http/router.cpp:127-165 | if each calls it once, all are entered in order and the handler is reached once, unless no route fits |
| RouterRuns.RoutesRegistered | grpcbackend_cpp/src/http/router.cpp:41-64 | in every configuration the table holds under each method exactly the routes registered under it, in the order of the calls, each with its own uri, middleware and handler |
| RouterRuns.SettingsAre | grpcbackend_cpp/src/http/router.cpp:81-124 | each setting has the value it was given last |
| RouterRuns.NoUpdateLost | grpcbackend_cpp/src/http/router.cpp:41-124 | under every interleaving of threads that lock, load, copy, change and store, the snapshot is what all stored updates make, in order |
| RouterRuns.RequestSeesOneConfiguration | grpcbackend_cpp/src/http/router.cpp:149-165 | a request is dispatched to the first fitting route of those registered when it began, rewritten paths included, whatever is stored meanwhile |
| RouterRuns.ChainStable | grpcbackend_cpp/src/http/router.cpp:66-79 | in every configuration the middleware is sorted by position, and at each position in the order of the calls to use |
| HubViews.StepKeeps | grpcbackend_cpp/src/websocket/hub.cpp:18-164 | every operation but the on_connect of a connection in a group keeps membership implying the attribute, and all but close_all keep the converse |
| HubViews.ConnectKeepsExactly | grpcbackend_cpp/src/websocket/hub.cpp:28-43 | on_connect keeps membership implying the attribute if and only if the connection is in no group but the default one |
| HubViews.NamedExactly | grpcbackend_cpp/src/websocket/hub.cpp:18-164 | over all runs, membership implies the attribute if and only if no on_connect has left a membership behind |
| HubViews.AttributesAre | grpcbackend_cpp/src/websocket/hub.cpp:18-164 | over all runs, a connection's attribute names the group it was connected or moved to last, if it has not been disconnected since, and there are exactly the default group and those added |
| HubViews.GroupsHold | grpcbackend_cpp/src/websocket/hub.cpp:18-164 | over all runs, the members of a group are the connections located there by the calls, but for what was left behind |
| HubViews.AgreesExactly | grpcbackend_cpp/src/websocket/hub.cpp:18-164 | over all runs, the groups are the inverse image of the attributes if and only if nothing is left behind: no membership by on_connect, and no attribute by close_all of a connection not connected, disconnected or moved since |
| HubViews.GroupsDisjoint | grpcbackend_cpp/src/websocket/hub.cpp:18-164 | over all runs that connect a connection only while its attribute names no group, no connection is in two groups, and membership implies that its attribute names the group |
| HubViews.IndexAgrees | grpcbackend_cpp/src/websocket/hub.cpp:28-164 | over those runs and without close_all each group holds exactly the connections whose attribute names it |
| HubViews.ClosedDisagrees | grpcbackend_cpp/src/websocket/hub.cpp:18-26 | after close_all a connection that was a member is in no group but its attribute names one |
| HubViews.ConnectedTwiceOver | grpcbackend_cpp/src/websocket/hub.cpp:28-111 | a connection put into a group before on_connect is in two groups |
| Hub.AskedOnce | grpcbackend_cpp/src/websocket/hub.cpp:18-26 | while membership implies the attribute, close_all asks each connection at most once |
| Hub.HubObject.OnConnect | grpcbackend_cpp/src/websocket/hub.cpp:28-43 | any connection gets a new attribute and joins the default group; membership still implies the attribute if and only if the connection is in no other group |
| Hub.HubObject.OnDisconnect | grpcbackend_cpp/src/websocket/hub.cpp:60-82 | it leaves the group its attribute names and the attribute names none; others are untouched |
| Hub.HubObject.SetConnectionGroup | grpcbackend_cpp/src/websocket/hub.cpp:90-111 | it moves to the group, from wherever it was; an unknown group changes nothing |
| Hub.HubObject.GetConnectionGroup | grpcbackend_cpp/src/websocket/hub.cpp:113-122 | the group the attribute names, or the empty name |
| Hub.HubObject.AddGroup | grpcbackend_cpp/src/websocket/hub.cpp:124-136 | an empty group under a new name; an existing one is kept with its members |
| Hub.HubObject.GetGroupConnections | grpcbackend_cpp/src/websocket/hub.cpp:173-185 | the members of the group, none if it does not exist |
| Hub.HubObject.Broadcast | grpcbackend_cpp/src/websocket/hub.cpp:138-150 | every member of the group is sent the message once, and no other connection anything |
| Hub.HubObject.CloseGroup | grpcbackend_cpp/src/websocket/hub.cpp:166-171 | every member is asked to close once, and stays a member |
| Hub.HubObject.CloseAll | grpcbackend_cpp/src/websocket/hub.cpp:18-26 | each connection is asked to close once for every group it is in, the groups are emptied, the attributes stay |
| HttpBody.HttpConnection.SetStatus | grpcbackend_cpp/src/handler.cpp:258-262 | the code is set, and the message unless it is empty |
| HttpBody.HttpConnection.SetHeader | grpcbackend_cpp/src/handler.cpp:264-278 | the first header of that name is replaced, or one is added |
| HttpBody.Replaced | grpcbackend_cpp/src/handler.cpp:267-277 | exactly the first header of the name takes the value; with none of that name the header is appended |
| HttpBody.HeaderIsSet | grpcbackend_cpp/src/handler.cpp:264-278 | set_header changes the values of its own name only: the first is replaced if that is asked for and there is one, otherwise there is one more |
| HttpBody.HttpConnection.SendBody | grpcbackend_cpp/src/handler.cpp:346-377 | the message written carries status and headers only if none was written before; before the request body is read the callback is refused at once and the message written all the same |
| HttpBody.HttpConnection.WriteDone | grpcbackend_cpp/src/handler.cpp:367-375 | a completed write, well or not, counts as headers sent and frees the lock |
| HttpBody.HttpConnection.End | grpcbackend_cpp/src/handler.cpp:431-469 | finishes without a message exactly if headers were sent and the body is empty; the callback is refused as for send_body |
| HttpBody.Stream.Read | grpcbackend_cpp/src/handler.cpp:413-415 | the bytes read and those left are those there were; the stream fails exactly when fewer than asked for were left |
| HttpBody.StreamSender.HandleSend | grpcbackend_cpp/src/handler.cpp:405-420 | the next chunk is sent, or the callback is run once the stream or a write has failed |
| HttpBody.StreamSender.SendDone | grpcbackend_cpp/src/handler.cpp:367-420 | a completed write releases the lock and continues with the next chunk |
| HttpBody.BodyReader.Read | grpcbackend_cpp/src/handler.cpp:290-318 | a read is started; if the end has been seen, the callback is run before |
| HttpBody.BodyReader.ReadDone | grpcbackend_cpp/src/handler.cpp:306-333 | a message is added to the buffer and another read started; the end runs the callback |
| HttpRuns.HeadSentOnce | grpcbackend_cpp/src/handler.cpp:346-469 | over all runs, status and headers are in no message but the first if and only if end was not given a body after the first message while the calls before it left a head |
| HttpRuns.HeadHeld | grpcbackend_cpp/src/handler.cpp:258-278 | over all runs, the head the response holds is what set_status and set_header made since a body after the first message last reset it |
| HttpRuns.HeadSentTwice | grpcbackend_cpp/src/handler.cpp:346-469 | a status, a body and an end with a body: the status is sent twice |
| HttpRuns.ContentsConserved | grpcbackend_cpp/src/handler.cpp:346-469 | over all runs the messages carry the bodies given, in order |
| HttpRuns.MessagesAre | grpcbackend_cpp/src/handler.cpp:346-469 | over all runs there is one message for each body, with that body, but none for an empty end after the first message; finished means end was called, and busy that an operation is outstanding |
| HttpRuns.HeadChosen | grpcbackend_cpp/src/handler.cpp:258-278 | the first message has the head as it was set up to then |
| HttpRuns.ResponseWhole | grpcbackend_cpp/src/handler.cpp:346-469 | any number of bodies and an end without one: head once and first, contents concatenated; an ended response has its head |
| HttpRuns.ChunksAre | grpcbackend_cpp/src/handler.cpp:413-415 | a body of n bytes is n / 65536 + 1 chunks, all but the last of 65536 bytes, the last of n % 65536 |
| HttpRuns.StreamConserved | grpcbackend_cpp/src/handler.cpp:401-425 | however the writes go, the messages are those of the first chunks of the body, one more than writes have succeeded, the head in the first only; the callback is run once, as soon as a write fails or that of the last chunk succeeds |
| HttpRuns.StreamWhole | grpcbackend_cpp/src/handler.cpp:401-425 | what has been sent is always a prefix of the body; if no write fails it is the body, in exactly n / 65536 + 1 messages |
| HttpRuns.BodyCollected | grpcbackend_cpp/src/handler.cpp:320-338 | the callback is run once, at the end of the request and not before, with the concatenation of what came in |
| HttpRuns.CalledOnceExactly | grpcbackend_cpp/src/handler.cpp:290-338 | by the time the end arrives the callback has been run once if and only if the end had not been seen when reading began; otherwise it is run at once, the code reads on, and it is run again |

## Left out

JSON

- Doubles: conversion and printing are parameters, so the round trip is stated for values without them.
- The value a failed parse leaves half filled in the output, and the text of the syntax error with its line.
- operator== of values (it compares integers through doubles); values are compared by structure here.
- deny_parse_context, parsing from a stream, and the allocation of values.
- The width of the line counter and of the recursion: both are unbounded here.

JSON-RPC

- JsonRpcServer.Server.HandleMessage: what is left of the process after a `noexcept` accessor has met a missing method, which ends it, is not described beyond the replies sent before.
- The handlers' own code: a handler either answers at once or later, in either case with a value; is_batched, prefer_sync and the context pointer are passed through and not modelled.
- The reply to a text that cannot be parsed has no id (section 5 of JSON-RPC 2.0 wants a null one), and an empty batch is never replied to; the model does what the code does.
- Two threads inside handle_result at once: each call is one step.

Websocket writer

- The stream itself: a write, a read and Finish are events that are issued and, for the first two, may complete; the `ok` of a completion is ignored, as in the code.
- Handlers that send on the same connection from within on_disconnect, which runs while the queue is locked.
- on_disconnect once, nothing after a CLOSE, the reply first: the code promises none of these.
- Routines run by the completion queue for one connection (completions, messages) are one step each.

Router

- Regular expressions of the user, other than `.*` (which serve_dir appends), and std::regex as such: the emitted subset has its own semantics, on paths without line terminators.
- ttl::string is not part of this model: split is taken to drop empty segments and replace to replace every occurrence from left to right.
- serve_dir on a route without a slash at its end: the segment is then a literal with a pattern glued to it, which the compiler takes as a literal, as the code does.
- Router.RouterObject.Route: requires user expressions to be `.*`, as do RouteVerb and CompileRoute, because the meaning of others is that of std::regex.
- Router.RouterObject.RouteVerb: requires the same.
- Router.RouterObject.CompileRoute: requires the same.
- RouterRuns.AtMostOnce: a middleware that calls next several times is covered by the methods, not by this lemma.
- Exceptions from handlers and middleware, the error, status and debug headers written on failure, and the handlers supplied with the library.
- notfound and error: they store like the other updates; they are updates of the step system but have no method of their own.

Hub

- Which handler is told about a connection, and handlers that call back into the hub from within on_disconnect (the index is not meant to survive that).
- The mutexes of the groups, and the variants of broadcast and get_group_connections that start from a connection.
- Expiry of the weak pointer in an attribute: the hub never drops a group.

URIs

- The character type is unsigned here; the order of an unordered multimap is that of insertion.

HTTP bodies

- HttpBody.HttpConnection.SendBody: requires that no write is outstanding, which the write lock ensures; before the request body is read the code unlocks early and then once more, and what this does to the lock is not modelled, nor is what a second call to the callback does (End: the same).
- HttpBody.StreamSender.HandleSend: requires that the request body was read, because otherwise the helper deletes itself while its own write goes on.
- HttpBody.BodyReader.Read: reading after the end unlocks the read lock twice and frees the buffer twice; how often the callback is run is modelled, what it is then given is not.
- Write hints, the order in which blocked threads get the lock, lower-casing of header names, and callbacks that throw.
- A stream that has failed before sending starts: the callback is run at once with success and nothing is sent (HandleSend), and the runs start from a stream that has not.
- Content in the very first message of a request, which the code does not hand to read_body.

Elsewhere

- server.cpp, completion queues and gRPC; file systems, mime types, zip archives, logging, dates and listings; the debug client and the example application.
