# Verified models of the gesture-controlled robot project

A Dafny model of the parts of this repository that carry the hardest behaviour, with proofs about
all inputs and all runs. `dafny verify dfyconfig.toml` checks everything.

| part | modules |
|---|---|
| SCOP broker (`scopserver.cpp`) | `Broker` (the state machine and its commands), `BrokerRuns` (the invariant of all runs), `BrokerTheorems` (what callers can rely on), `EarlyReply` and `Misreads` (runs that break weaker assumptions), `CommandTexts` and `CommandEffects` (every command from its text to its effect), `BrokerHeap` (the doubly linked list and the server's loops, proved to make the steps of the state machine) |
| Typed messages (`scopxml.cpp`, `python/scopxml.py`) | `Vertex` (values, texts, the C++ parser), `VertexGrammar` (all texts that it accepts), `VertexHeap` (linked vertices), `PyVertex` (the Python printer and parser, and how the two work together), `PortsAgree` (what both parsers read alike) |
| Frames and the client library (`scoplib.*`) | `Wire` (headers, partial reads), `WireLaws` (the bytes of headers and integers), `EndToEnd` (client, wire, broker and server together), `NamelessCallers` (callers that nothing can disturb) |
| MochiKit.Async | `Deferreds` (the fold), `DeferredHistory` (what must hold between and during firings), `Async` (the code on a store of Deferreds), `DeferredTheorems`, `ChainRules` (the way of values and errors along a chain), `DeferredList`, `ListOnStore` (a list over Deferreds of the store) |
| MochiKit.Iter, Signal, Color, DOM | `Tee`, `Signals`, `SignalLaws` and `SignalHeap`, `Color`, `Html` and `HtmlReader` (a reader that gets the tree back) |
| JSON from MochiKit to simplejson | `JsonPrinter`, `JsonDecoder` (the decoder as functions), `JsonLoops` (its loops), `JsonGrammar`, `JsonComplete` and `JsonSound` (all texts that it accepts), `JsonErrors`, `JsonSpelling` (all ways to write a value), `JsonRoundTrip` |
| Recogniser | `CircularBuffer`, `Features`, `FeatureLaws` (the features read off the frames), `SlidingWindow` |
| Arithmetic | `Geometry` and `Sensors` (axis-angle rotations, Transform), `Combi` |
| Shared | `Text`, `RealArith` |

Code that works by changing things is a class or a method with loops, proved against a function; the
theorems are about that function. Code made of expressions is functions. The Deferreds are entries of
one store, a sequence of records in a class field, and a reference to one is its index; the vertices,
the client list and the Idents of Signal are objects.

Where the code does not do what its documentation or a first reading suggests, the model follows the
code, and a lemma says exactly when the expected property holds:

- A broker caller is stranded for good if its server sent a reply too many before
  (`BrokerTheorems.MissedIffEarly`, `EarlyReply.EarlyReplyStrands`). That replies do not exceed calls at the end
  is not enough; they must never have been ahead (`BrokerTheorems.WaitersBounded`).
- `scop_rpc` returns the oldest unread message, and ignores the flag that tells calls from replies. It takes a
  message for its reply if one was unread or reached the server before the call did, or else a call that is
  forwarded to it before the reply; in no other case (`EndToEnd.FirstReadIsReplyIff`, with runs for both in
  `Misreads.StaleMessageIsMisread` and `Misreads.CrossedCallsAreMisread`). A client without a name and an interest
  is safe (`NamelessCallers.NamelessCallIsAnswered`).
- Python's long integers cannot be sent (`PyVertex.PyRoundTrip`), and Python reads negative acknowledgements
  as large positive numbers (`Wire.IntRoundTrip`).
- `serializeJSON` takes an object with a numeric `length` for an array (`JsonRoundTrip.DecodeSerialized`).
- Disconnecting by source, signal, object and function from within a signal can overlook a connection
  (`Signals.SweptStep`, `Signals.ShadowedExample`).
- A tee of one reader never drops anything (`Tee.BufferIsMinimal`).
- `normalise` is not idempotent (`Sensors.NormalisedTwice`), and `get_delta` depends on the starting values of
  Ranges (`Features.DeltaIsSpan`).

## Model

| member | source | states |
|---|---|---|
| `Broker.WithoutIsFilter` | resources/scop_1.5.1/scopserver.cpp:529-540 | `clear` removes exactly the clients whose name or interest is the endpoint, keeps the others in their order, and leaves none that a query would count |
| `Broker.DeliverPosts` | resources/scop_1.5.1/scopserver.cpp:472-501 | a send posts once to each matching client that is not waiting in an RPC and whose connection lives, to nobody else |
| `Broker.DeliverKeeps` | resources/scop_1.5.1/scopserver.cpp:472-494 | a send drops exactly the clients whose post failed and keeps all others in their order |
| `Broker.ScanEndpointOf` | resources/scop_1.5.1/scopserver.cpp:446-464 | the endpoint of any command is scanned back exactly, for every endpoint that is not empty, has no '!' and no leading blank |
| `Broker.CallIffQueryReportsOne` | resources/scop_1.5.1/scopserver.cpp:335-399 | a call by a client that is not waiting is forwarded, with the trimmed arguments, exactly when a query for its endpoint would report 1; otherwise the caller gets the error text and nothing changes |
| `CommandTexts.HoldsCString` | resources/scop_1.5.1/scopserver.cpp:860-906 | a message is the C string up to its first NUL |
| `CommandTexts.Splits` | resources/scop_1.5.1/scopserver.cpp:446-464 | every text that begins with a command word has blanks, an endpoint without '!', and behind a '!' blanks and a message |
| `CommandTexts.ScansTo` | resources/scop_1.5.1/scopserver.cpp:446-464 | the endpoint of every such text is scanned back, and none is found exactly when it is empty |
| `CommandTexts.BodyIs` | resources/scop_1.5.1/scopserver.cpp:459-464 | the message behind the '!' is taken without its leading blanks |
| `CommandTexts.Dispatch` | resources/scop_1.5.1/scopserver.cpp:824-857 | each of the sixteen words selects its command, whatever follows; `list` does so unless the text goes on to `listen` |
| `CommandTexts.InvalidIff` | resources/scop_1.5.1/scopserver.cpp:824-857 | a text is no command exactly when it begins with none of the words |
| `CommandEffects.Acknowledges` | resources/scop_1.5.1/scopserver.cpp:472-501 | on every newest-first list a send writes the message once to each client with the endpoint as name or interest that waits for nothing and whose connection lives; with an acknowledgement it then writes one integer, the number of those clients, and without one none; only clients whose connection failed are dropped |
| `CommandEffects.MessageSends` | resources/scop_1.5.1/scopserver.cpp:442-470 | in every run `message x! m` does that without acknowledgement, for every way to write it; without an endpoint it is ignored |
| `CommandEffects.VerifySends` | resources/scop_1.5.1/scopserver.cpp:442-470 | in every run `verify x! m` writes the number of clients reached to the sender, last; without an endpoint it writes -1 and nothing else |
| `CommandEffects.EmitSends` | resources/scop_1.5.1/scopserver.cpp:426-440 | in every run `emit m` sends to the sender's source hint and acknowledges likewise; without a hint it writes -1 and nothing else |
| `CommandEffects.QueryCounts` | resources/scop_1.5.1/scopserver.cpp:503-527 | in every run `query x` writes the number of clients with that name or interest and changes nothing |
| `CommandEffects.CookieIsSent` | resources/scop_1.5.1/scopserver.cpp:575-605 | `get-cookie x` sends the cookie of the newest client of that name, if there is one and it has one |
| `CommandEffects.ListIsSent` | resources/scop_1.5.1/scopserver.cpp:228-256 | `list` sends one text to the sender and changes nothing |
| `CommandEffects.DumpParts` | resources/scop_1.5.1/scopserver.cpp:236-255 | that text holds, for every other client in list order, name or `Unnamed`, interest and hint, each ended by '!' |
| `CommandEffects.RegisterNames` | resources/scop_1.5.1/scopserver.cpp:626-643 | `register x` sets the sender's name, and nothing else changes or is written |
| `CommandEffects.ListenSets` | resources/scop_1.5.1/scopserver.cpp:607-624 | `listen x` sets the sender's interest, and nothing else changes or is written |
| `CommandEffects.ListenerHears` | resources/scop_1.5.1/scopserver.cpp:472-494 | in every run, who listens to x and waits for no reply is posted the `message x! m` that follows |
| `CommandEffects.CookieIsSet` | resources/scop_1.5.1/scopserver.cpp:565-573 | `set-cookie v` keeps v exactly when it is shorter than 4096 characters |
| `CommandEffects.HintIsSet` | resources/scop_1.5.1/scopserver.cpp:557-563 | `set-source-hint v` sets the sender's hint alone |
| `CommandEffects.ClearDrops` | resources/scop_1.5.1/scopserver.cpp:542-555 | `clear x` drops exactly the clients with that name or interest, in order, and writes nothing |
| `CommandEffects.OthersAreQuiet` | resources/scop_1.5.1/scopserver.cpp:826-855 | `log`, `reconfigure`, `terminate` and what is no command change and write nothing |
| `CommandEffects.CallForwards` | resources/scop_1.5.1/scopserver.cpp:335-399 | in every run `call x! m` is refused with the error text, without effect, exactly when the sender waits already, there is no endpoint or not exactly one client answers to it; otherwise that client gets the marked message, the sender waits for the number that client had free, and that number is taken |
| `CommandEffects.ReplyAnswers` | resources/scop_1.5.1/scopserver.cpp:401-424 | in every run `reply m` takes the sender's next number, posts m to the client that waits for it and ends its wait, or posts nothing; nothing else changes |
| `CommandEffects.ConnectAdds` | resources/scop_1.5.1/scopserver.cpp:124-133 | a new client stands in front with the next id, no names, no wait and both numbers at 1 |
| `CommandEffects.CloseRemoves` | resources/scop_1.5.1/scopserver.cpp:813-820 | a closed connection takes exactly its client off the list |
| `BrokerRuns.OrderedRun` | resources/scop_1.5.1/scopserver.cpp:174-183 | in every run the list is sorted newest first by ids that are below the next id |
| `BrokerRuns.InvRun` | resources/scop_1.5.1/scopserver.cpp:335-424 | the invariant of all runs: a client's counters are one more than the calls forwarded to it and the replies it sent, and who waits for reply k of a server is the author of the k-th call forwarded to it |
| `BrokerRuns.OneWaiterPerReply` | resources/scop_1.5.1/scopserver.cpp:393-395 | in no reachable state do two connected clients wait for the same reply of the same server |
| `BrokerRuns.NextReplyIsFor` | resources/scop_1.5.1/scopserver.cpp:401-424 | who waits for a connected server's next reply is fixed by the history of forwarded calls alone |
| `BrokerRuns.KthReply` | resources/scop_1.5.1/scopserver.cpp:401-424 | a server's k-th reply is posted to exactly the client whose call was the k-th forwarded to it, if there was one and it is still connected, and otherwise to nobody |
| `BrokerTheorems.FreshId` | resources/scop_1.5.1/scopserver.cpp:124-133 | the id of a new connection exceeds the id of every client of any earlier time of the run |
| `BrokerTheorems.CountersFitInt` | resources/scop_1.5.1/scopserver.cpp:113-121 | every id and counter is at most one more than the number of events, so a run of fewer than 2^31 - 1 events never overflows an int |
| `BrokerTheorems.StillWaiting` | resources/scop_1.5.1/scopserver.cpp:401-424 | one step ends the wait of a connected caller only by the reply with its number from its server |
| `BrokerTheorems.ReplyReleases` | resources/scop_1.5.1/scopserver.cpp:401-424 | after reply k of a server nobody waits for reply k of it |
| `BrokerTheorems.MissedIffEarly` | resources/scop_1.5.1/scopserver.cpp:393-424 | the reply a caller waits for has already gone by exactly when the server had sent it before the call was forwarded |
| `BrokerTheorems.AnsweredInTime` | resources/scop_1.5.1/scopserver.cpp:401-424 | a caller whose reply has not gone by is posted that reply, and its wait ends |
| `BrokerTheorems.StrandedForever` | resources/scop_1.5.1/scopserver.cpp:401-420 | a caller whose reply has gone by waits for as long as it stays connected, over every continuation, and is never posted a reply of that server |
| `BrokerTheorems.WaitersInWindow` | resources/scop_1.5.1/scopserver.cpp:393-395 | while a server has never sent more replies than calls were forwarded to it, every waiter's number lies between its counters: rpc_next_reply <= rpc_to_seq < rpc_next_call |
| `BrokerTheorems.WaitersBounded` | resources/scop_1.5.1/scopserver.cpp:393-424 | for such a server the waiters number at most the calls minus the replies, and when all calls are answered nobody waits for it |
| `BrokerTheorems.OnlyCallsAndTheReply` | resources/scop_1.5.1/scopserver.cpp:335-494 | while a client waits and sends nothing, all that is written to it is a call forwarded to it or the reply it waits for, one message at a time |
| `BrokerTheorems.WaitsUntilFirstWrite` | resources/scop_1.5.1/scopserver.cpp:401-424 | over every continuation in which nothing is written to a blocked caller, it goes on waiting for the same reply |
| `EarlyReply.EarlyReplyStrands` | resources/scop_1.5.1/scopserver.cpp:401-424 | it is not enough that replies do not exceed calls now: a concrete run with one call and one reply whose caller waits for a reply that has gone by |
| `BrokerHeap.Server.constructor` | resources/scop_1.5.1/scopserver.cpp:60 | the server starts with an empty list and next id 1 |
| `BrokerHeap.Server.AddClient` | resources/scop_1.5.1/scopserver.cpp:174-183 | the list stays well formed in both directions, with the new client in front and the rest untouched |
| `BrokerHeap.Server.RemoveClient` | resources/scop_1.5.1/scopserver.cpp:185-205 | exactly that node leaves the doubly linked list; the others keep their order and their links are repaired in both directions |
| `BrokerHeap.Server.CountClients` | resources/scop_1.5.1/scopserver.cpp:207-217 | following the next pointers counts every connected client once |
| `BrokerHeap.Server.CountMatches` | resources/scop_1.5.1/scopserver.cpp:516-524 | the scan of a query finds as many clients as the list has matching ones |
| `BrokerHeap.Server.FindTarget` | resources/scop_1.5.1/scopserver.cpp:363-390 | the scan of a call yields a target exactly when one client matches, and then that client |
| `BrokerHeap.Server.FindWaiter` | resources/scop_1.5.1/scopserver.cpp:408-414 | the scan of a reply yields the first client waiting for that server and number, or null |
| `BrokerHeap.Server.CallRpc` | resources/scop_1.5.1/scopserver.cpp:335-399 | `rpc_call` on the heap makes the transition of the state machine, outputs included |
| `BrokerHeap.Server.ReplyRpc` | resources/scop_1.5.1/scopserver.cpp:401-424 | `rpc_reply` on the heap makes the transition of the state machine |
| `BrokerHeap.Server.SendAll` | resources/scop_1.5.1/scopserver.cpp:472-494 | the loop that removes nodes while it walks the list visits every client once and makes the transition of the state machine |
| `BrokerHeap.Server.DoSendTo` | resources/scop_1.5.1/scopserver.cpp:472-501 | `do_send` makes the transition of the state machine, its acknowledgement included, whose number is that of the clients reached (CommandEffects.Acknowledges) |
| `BrokerHeap.Server.Send` | resources/scop_1.5.1/scopserver.cpp:442-470 | `message` and `verify`, syntax errors included |
| `BrokerHeap.Server.ClearAll` | resources/scop_1.5.1/scopserver.cpp:529-540 | the removing loop of `remove_all` leaves the list without the matching clients |
| `BrokerHeap.Server.SetField` | resources/scop_1.5.1/scopserver.cpp:557-643 | registration, listening, cookie and source hint change that one field of that client only |
| `BrokerHeap.Server.DumpState` | resources/scop_1.5.1/scopserver.cpp:228-256 | `list` reports every client but the asking one, in list order |
| `BrokerHeap.Server.GetCookie` | resources/scop_1.5.1/scopserver.cpp:575-605 | the first client of that name answers with its cookie, if it has one |
| `BrokerHeap.Server.ProcessCommand` | resources/scop_1.5.1/scopserver.cpp:809-858 | the dispatch by command prefix makes the transition of the state machine for every text; CommandTexts.Dispatch and the lemmas of CommandEffects say what that is for each command |
| `BrokerHeap.Server.Turn` | resources/scop_1.5.1/scopserver.cpp:724-794 | one turn of the main loop on the linked list is one step of the state machine, so all theorems about runs hold of the program |
| `EndToEnd.HopKeepsText` | resources/scop_1.5.1/scoplib.cpp:60-70 | a text without NUL shorter than 2^31 arrives as itself, whatever follows it in the stream |
| `EndToEnd.Markers` | resources/scop_1.5.1/scoplib.cpp:75-173 | what the library makes of every text: behind `scop-rpc-call ` stands a request, `scop-rpc-error` is no result, every other text is a result and no request |
| `EndToEnd.StructReplyIntact` | resources/scop_1.5.1/scoplib.cpp:77-159 | a structured reply comes back as an equal vertex and is never taken for the error text or for an incoming call |
| `EndToEnd.StructRequestIntact` | resources/scop_1.5.1/scoplib.cpp:161-173 | a structured request reaches its server as an equal vertex |
| `EndToEnd.CallWaits` | resources/scop_1.5.1/scopserver.cpp:335-399 | a call to a uniquely matched endpoint is posted to that client, and its caller then waits for the reply with the number of that call |
| `EndToEnd.OnlyCallsUntilTheReply` | resources/scop_1.5.1/scopserver.cpp:335-494 | from the server's taking of a call until its reply, the caller is written nothing but calls forwarded to it, and nothing at all exactly when nobody calls it |
| `EndToEnd.RequestArrives` | resources/scop_1.5.1/scoplib.cpp:140-173 | a structured call reaches the one client that answers to the endpoint as an equal vertex with the same method and argument |
| `EndToEnd.ReadsFirst` | resources/scop_1.5.1/scoplib.cpp:72-100 | a read takes exactly the first message that stands in the socket, so `scop_rpc` returns the oldest unread write |
| `EndToEnd.FirstReadIsReplyIff` | resources/scop_1.5.1/scoplib.cpp:102-125 | over any run: when a reply has been posted, the caller's socket holds what was unread when the server took the call, then the calls forwarded to it since, then the reply; so the reply is what `scop_rpc` reads if and only if nothing was unread at transmission, nothing was written until the server had the call, and no call was forwarded after it |
| `EndToEnd.TextCall` | resources/scop_1.5.1/scoplib.cpp:102-138 | the whole exchange for plain texts over any run in between, over frames in both directions: behind earlier writes the target finds the call with its arguments but for leading blanks; undisturbed, the caller finds exactly the frame of its reply, and `scop_rpc` returns it unchanged exactly when it is not the error text and does not begin like a call |
| `NamelessCallers.NamelessCallIsAnswered` | resources/scop_1.5.1/scoplib.cpp:102-125 | a condition that the caller can check: without a name and an interest, waiting for nothing, with nothing unread and no command under way, a caller is undisturbed in every run, and its socket holds the reply alone |
| `EndToEnd.StructuredCall` | resources/scop_1.5.1/scoplib.cpp:140-184 | the same for structures: the target finds a request with the same method and argument, and the reply decodes to the vertex the server sent |
| `EndToEnd.FirstWriteIsReplyIff` | resources/scop_1.5.1/scopserver.cpp:335-494 | what the server first writes to a caller after taking its call is the reply exactly when it is not a call forwarded to it |
| `Misreads.StaleMessageIsMisread` | resources/scop_1.5.1/scopserver.cpp:472-494 | a concrete run in which nobody ever calls the caller, and a message that the server handled before the call is what `scop_rpc` returns |
| `Misreads.PlainCallIsAnswered` | resources/scop_1.5.1/scoplib.cpp:102-125 | a concrete run that meets all conditions of the theorem, and whose caller finds its reply alone |
| `Misreads.CrossedCallsAreMisread` | resources/scop_1.5.1/scopserver.cpp:335-399 | a concrete run in which two clients call each other at once, and each finds the other's call before its reply |
| `Vertex.ExtractIff` | resources/scop_1.5.1/scopxml.cpp:214-226 | method and argument are found exactly in lists of two, the method only when the first is a string |
| `Vertex.HexRoundTrip` | resources/scop_1.5.1/scopxml.cpp:324-342 | every nibble survives its hex character |
| `Vertex.ParsePrinted` | resources/scop_1.5.1/scopxml.cpp:449-552 | parsing at any offset of any text returns the printed vertex and stops exactly at its end: integers, arbitrary strings and bytes, nested lists |
| `Vertex.RoundTrip` | resources/scop_1.5.1/scopxml.cpp:344-362 | a whole printed vertex is read back and consumed completely |
| `Vertex.PrefixFree` | resources/scop_1.5.1/scopxml.cpp:375-440 | no printed vertex is a proper prefix of another, and different vertices print differently |
| `VertexGrammar.NumberAt` | resources/scop_1.5.1/scopxml.cpp:460-465 | `%d` and `atoi` read a number with blanks, a sign and leading zeros before it |
| `VertexGrammar.TreeAt` | resources/scop_1.5.1/scopxml.cpp:449-552 | every text of the grammar is read, wherever it stands, as what it means, and the parser stops at its end: numbers in any form, any character behind the type's name, anything behind the size, unknown hexadecimal digits counting -1 |
| `VertexGrammar.TreeOf` | resources/scop_1.5.1/scopxml.cpp:449-552 | whatever the parser accepts is a text of that grammar, read as what it means |
| `VertexGrammar.ParseIff` | resources/scop_1.5.1/scopxml.cpp:449-552 | the parser accepts exactly the texts of the grammar, each with its meaning and its end |
| `VertexHeap.Append` | resources/scop_1.5.1/scopxml.cpp:96-110 | appending to any list, packed or parsed, links the vertex at the end of the chain, and changes nothing on a vertex that is no list |
| `VertexHeap.PackPair` | resources/scop_1.5.1/scopxml.cpp:131-143 | a pair is a list of the two vertices in order, built on fresh links |
| `VertexHeap.VertexToString` | resources/scop_1.5.1/scopxml.cpp:375-440 | following the child pointers prints the value that the tree stands for |
| `VertexHeap.RequestToString` | resources/scop_1.5.1/scopxml.cpp:344-353 | a request prints as the pair of method name and argument, or integer 0 without an argument |
| `VertexHeap.StringToVertex` | resources/scop_1.5.1/scopxml.cpp:449-552 | the parser fails exactly when the text is not a vertex, and otherwise builds a fresh tree for the value read and reports how much it consumed |
| `VertexHeap.ParseElements` | resources/scop_1.5.1/scopxml.cpp:510-518 | the elements of a list are read one behind the other, as many as the size says, as disjoint trees |
| `VertexHeap.LinkElements` | resources/scop_1.5.1/scopxml.cpp:525-531 | the elements are chained from first to last without changing them |
| `VertexHeap.ExtractCall` | resources/scop_1.5.1/scopxml.cpp:214-226 | method and argument are read from a parsed request exactly when it is one |
| `VertexHeap.Transfer` | resources/scop_1.5.1/scopxml.cpp:344-447 | printing a tree and parsing it yields another, disjoint tree for the same value |
| `PyVertex.PyPrintIsPrint` | resources/scop_1.5.1/python/scopxml.py:63-97 | what Python sends for a value without long integers is what C++ prints for the same value |
| `PyVertex.CheckPrintable` | resources/scop_1.5.1/python/scopxml.py:56-61 | a byte string goes out as text exactly when all its characters are printable |
| `PyVertex.AppendHex` | resources/scop_1.5.1/python/scopxml.py:75-80 | binary data are appended as two hex digits for each byte |
| `PyVertex.DoVertexToString` | resources/scop_1.5.1/python/scopxml.py:63-97 | the recursive appends to the string list produce the text of the value, after whatever was there |
| `PyVertex.VertexToString` | resources/scop_1.5.1/python/scopxml.py:13-22 | the joined pieces are the text of the value |
| `PyVertex.ScanBinary` | resources/scop_1.5.1/python/scopxml.py:124-129 | the hex loop reads the bytes or fails on a short or bad text |
| `PyVertex.DoStringToVertex` | resources/scop_1.5.1/python/scopxml.py:99-144 | the parser, with its branches by tag, against its recursive specification |
| `PyVertex.ScanItems` | resources/scop_1.5.1/python/scopxml.py:134-139 | the loop over list elements reads as many as the size says, at advancing offsets |
| `PyVertex.PyParsePrinted` | resources/scop_1.5.1/python/scopxml.py:99-144 | Python reads every vertex that C++ prints, at any offset, and stops at its end |
| `PyVertex.PyParsePyPrinted` | resources/scop_1.5.1/python/scopxml.py:99-144 | Python reads its own texts back as equal values, at any offset |
| `PyVertex.FromToWire` | resources/scop_1.5.1/python/scopxml.py:63-144 | no Python value is changed by its form on the wire |
| `PyVertex.LongListLost` | resources/scop_1.5.1/python/scopxml.py:63-97 | a list with a long integer anywhere in it prints to a text that cannot be parsed |
| `PyVertex.PyRoundTrip` | resources/scop_1.5.1/python/scopxml.py:13-28 | a Python value survives printing and parsing exactly when it holds no long integer |
| `PyVertex.PyPrintBytes` | resources/scop_1.5.1/python/scopxml.py:63-97 | everything Python sends consists of single bytes |
| `PortsAgree.Agree` | resources/scop_1.5.1/python/scopxml.py:99-144 | Python and C++ read every text of the grammar with a blank before each size, blanks at most behind it, and no negative byte as the same value with the same end: blanks, signs and leading zeros included |
| `PortsAgree.StringTaken` | resources/scop_1.5.1/python/scopxml.py:114-119 | Python takes what there is of a string that is cut short and does not look at its closing tag |
| `PortsAgree.StringSent` | resources/scop_1.5.1/python/scopxml.py:72-80 | a string of the characters from blank to tilde is sent as it is, every other one as the upper-case digits of its bytes |
| `PortsAgree.IntSent` | resources/scop_1.5.1/python/scopxml.py:68-69 | an integer is sent exactly when 64 bits hold it |
| `Text.NumeralDigits` | resources/scop_1.5.1/python/scopxml.py:68-82 | numerals are written with the ten digits, most significant first, and a minus if negative |
| `Wire.HexRoundTrip` | resources/scop_1.5.1/python/scoplib.py:38-51 | k hex digits decode to the number modulo 16^k |
| `Wire.IntRoundTrip` | resources/scop_1.5.1/scoplib.cpp:790-805 | an acknowledgement of 32 bits is read back exactly by the C++ client, and by the Python client exactly when it is not negative |
| `Wire.ReadFrame` | resources/scop_1.5.1/python/scoplib.py:79-108 | reading a frame returns its message and leaves the rest of the stream untouched |
| `Wire.ReadCutFrame` | resources/scop_1.5.1/python/scoplib.py:79-131 | a frame that is cut anywhere reads as end of stream |
| `Wire.MessagesSent` | resources/scop_1.5.1/python/scoplib.py:79-131 | for every list of messages shorter than 2^31, with a cut frame or nothing behind them, repeated reads return exactly those messages in order |
| `WireLaws.DigitValues` | resources/scop_1.5.1/scoplib.cpp:776-788 | the sixteen digits have their values, and every other character counts as 0 |
| `WireLaws.EightDigits` | resources/scop_1.5.1/scoplib.cpp:685-690 | eight digits stand for their sum, each weighted by its power of 16, most significant first |
| `WireLaws.IntWritten` | resources/scop_1.5.1/scopserver.cpp:1129-1144 | an integer is written as the eight upper-case digits of its value, or of its value and 2^32 if it is negative |
| `WireLaws.HeaderWritten` | resources/scop_1.5.1/scoplib.cpp:620-653 | a header is `sCoP 010200 `, the eight digits of the length and a blank |
| `WireLaws.AcceptedIff` | resources/scop_1.5.1/scoplib.cpp:664-683 | exactly the headers with the magic and version 1.2 are accepted, whatever the last part of the version |
| `WireLaws.ReadIff` | resources/scop_1.5.1/scoplib.cpp:655-699 | a message is read exactly when an accepted header announces its length, below 2^31, and that much follows; what is left is exactly what stands behind it |
| `WireLaws.MessagesUntil` | resources/scop_1.5.1/scoplib.cpp:655-699 | a receiver takes every message up to the first thing that is none, and nothing behind it |
| `Wire.Socket.Read` | resources/scop_1.5.1/scoplib.cpp:753-774 | one read delivers a non-empty piece of what remains, at most what was asked for, at the given place of the buffer, and 0 only at the end |
| `Wire.FixedRead` | resources/scop_1.5.1/scoplib.cpp:753-774 | for every splitting into pieces, the loop fills the buffer with the next bytes of the stream, or fails exactly when there are too few |
| `Wire.ReadDigits` | resources/scop_1.5.1/scoplib.cpp:685-690 | the shifting loop computes the value of the hex digits |
| `Wire.WriteDigits` | resources/scop_1.5.1/scoplib.cpp:641-648 | the masking loop writes the hex digits of the number and touches nothing else |
| `Wire.WriteHeader` | resources/scop_1.5.1/scoplib.cpp:620-653 | the 21 characters of the header for every length |
| `Wire.ReadProtocol` | resources/scop_1.5.1/scoplib.cpp:655-699 | reading a message from a socket in pieces equals reading it from the whole stream |
| `Wire.ReceiveAll` | resources/scop_1.5.1/scoplib.cpp:655-699 | whatever the splitting, exactly the messages that were sent are received, in order, and then the end of the stream |
| `Deferreds.EvalMonotone` | code/libraries/mochikit/MochiKit/Async.js:148-195 | more known outcomes change nothing of a fold that did not wait for them |
| `Deferreds.EvalResumes` | code/libraries/mochikit/MochiKit/Async.js:171-177 | the outcome a fold was waiting for lets it go on from the pair behind the one that returned the Deferred |
| `Deferreds.EvalAppend` | code/libraries/mochikit/MochiKit/Async.js:137-146 | a pair added at the end goes on from where the fold stands: with the result, or behind the wait |
| `DeferredHistory.StepsInto` | code/libraries/mochikit/MochiKit/Async.js:168-195 | when a callback returns a Deferred, its owner is stuck on it, and everything else is as before |
| `DeferredHistory.Delivers` | code/libraries/mochikit/MochiKit/Async.js:171-177 | when a Deferred that is waited for ends, its outcome goes to the one Deferred that returned it, which stands again at the pair it had stopped before |
| `DeferredHistory.SameOutcomes` | code/libraries/mochikit/MochiKit/Async.js:69-196 | two histories with the same pairs and the same given results know the same outcomes, however their events interleaved |
| `Async.DeferredStore.New` | code/libraries/mochikit/MochiKit/Async.js:23-32 | a new Deferred is unfired, unpaused, unchained, with an empty chain |
| `Async.DeferredStore.Resback` | code/libraries/mochikit/MochiKit/Async.js:69-78 | giving a result to a paused Deferred stores it; giving it to an idle one runs its chain to the end or to a wait |
| `Async.DeferredStore.CallUser` | code/libraries/mochikit/MochiKit/Async.js:162-186 | one callback is shifted off and called with the result so far: it may return, throw or return a Deferred, and the result goes on as ChainRules.OutcomeIsTrace says |
| `Async.DeferredStore.RunPair` | code/libraries/mochikit/MochiKit/Async.js:160-187 | each turn of the loop consumes one pair and keeps the Deferred at the place its log says, or begins a wait, or resumes who waited |
| `Async.DeferredStore.ResumeWith` | code/libraries/mochikit/MochiKit/Async.js:171-177 | the closure passes the result on, unpauses and runs the chain of the Deferred that waited |
| `Async.DeferredStore.AddBoth` | code/libraries/mochikit/MochiKit/Async.js:113-118 | the closure is appended to the Deferred that is waited for, which runs it at once if it had fired |
| `Async.DeferredStore.Fire` | code/libraries/mochikit/MochiKit/Async.js:148-196 | the recursion of firings through nested Deferreds ends and leaves every Deferred in the state its history says |
| `Async.DeferredStore.AddCallbacks` | code/libraries/mochikit/MochiKit/Async.js:137-146 | throws exactly on a chained Deferred, changing nothing; otherwise the pair is recorded and the state of every Deferred is again what its history says |
| `Async.DeferredStore.Callback` | code/libraries/mochikit/MochiKit/Async.js:80-98 | throws exactly on a second result or on a Deferred; otherwise the result is recorded and all consequences are carried out |
| `Async.DeferredStore.Errback` | code/libraries/mochikit/MochiKit/Async.js:80-111 | the same with an error; what is no Error is wrapped |
| `DeferredTheorems.OutcomeIsFold` | code/libraries/mochikit/MochiKit/Async.js:69-196 | in every reachable state a Deferred has an outcome exactly when the left fold of its pairs over its given result has one, each returned Deferred standing for its own outcome; `fired` is 1 exactly for an Error, and the stored result and the empty chain agree with it |
| `ChainRules.OutcomeIsTrace` | code/libraries/mochikit/MochiKit/Async.js:148-187 | a chain has outcome v exactly when there are results from the first to v of which each follows from the one before: the errback is called on an Error, the callback on everything else; what it returns goes on, what it throws goes on as an error, wrapped if it is none, a returned Deferred stands for its outcome, and without a function the result passes unchanged |
| `ChainRules.GoesOn` | code/libraries/mochikit/MochiKit/Async.js:160-187 | what a function returns or throws passes by every pair without a function for it, and is what the next function for it is called with; an error goes to the next errback, past all callbacks, and the other way round |
| `ChainRules.LastCallDecides` | code/libraries/mochikit/MochiKit/Async.js:148-196 | in every reachable state, what the last function that was called makes of its argument is what the Deferred keeps: an uncaught exception as its failure, in slot 1 with `fired` 1, a value as its success, in slot 0 with `fired` 0 |
| `DeferredTheorems.OrderOfEventsIsIrrelevant` | code/libraries/mochikit/MochiKit/Async.js:69-196 | two runs with the same pairs for each Deferred and the same given results leave every Deferred in the same state: pairs before or after the firing, inner Deferred fired or not |
| `DeferredTheorems.WaitsForAReason` | code/libraries/mochikit/MochiKit/Async.js:188-195 | a paused Deferred waits for a chained one that was given no result or is paused itself |
| `DeferredList.AllResolved` | code/libraries/mochikit/MochiKit/Async.js:524-533 | when as many members have resolved as the list has, every position has |
| `DeferredList.FiresAtTheEnd` | code/libraries/mochikit/MochiKit/Async.js:523-539 | with both fire-on-one flags off, for every order of resolutions, the list fires exactly once, at the last, and entry i holds how member i ended |
| `DeferredList.FirstSuccess` | code/libraries/mochikit/MochiKit/Async.js:527-530 | with `fireOnOneCallback` the first success decides with its index and result, unless a failure did before with `fireOnOneErrback` |
| `DeferredList.FirstFailure` | code/libraries/mochikit/MochiKit/Async.js:529-530 | with `fireOnOneErrback` the first failure decides with its error, unless a success did before with `fireOnOneCallback` |
| `DeferredList.NoneDecides` | code/libraries/mochikit/MochiKit/Async.js:523-539 | with any flags, when no resolution decides alone the list fires at the last one, with every entry |
| `DeferredList.FiringStays` | code/libraries/mochikit/MochiKit/Async.js:526-534 | whatever resolves later, a list does not fire again or otherwise |
| `DeferredList.ListOfDeferreds.constructor` | code/libraries/mochikit/MochiKit/Async.js:493-519 | members resolved before construction call back during the loop, and the list is then what their resolutions say; an empty one fires at once unless `fireOnOneCallback` |
| `DeferredList.ListOfDeferreds.CbDeferred` | code/libraries/mochikit/MochiKit/Async.js:523-539 | records the entry, fires if this resolution decides, and consumes the error exactly when asked to |
| `DeferredList.GatherSuccess` | code/libraries/mochikit/MochiKit/Async.js:542-552 | when no member fails, `gatherResults` fires at the last resolution with a success for every member, in list order |
| `DeferredList.GatherFailure` | code/libraries/mochikit/MochiKit/Async.js:542-552 | the first failure fails the whole, whatever follows |
| `DeferredList.Gather` | code/libraries/mochikit/MochiKit/Async.js:544-550 | the results are taken out in list order |
| `ListOnStore.MemberHandsOver` | code/libraries/mochikit/MochiKit/Async.js:510-538 | until a member's chain has got to the list's pairs they stand in its chain; after that its chain goes on behind them with the result, or without an error that is consumed |
| `ListOnStore.ListOfOutcomes` | code/libraries/mochikit/MochiKit/Async.js:493-539 | a list over Deferreds of the store, with both fire-on-one flags off, that was told of exactly the members that have handed over their results (the hypothesis Reported), has fired exactly when every member has an outcome at the list's place, and entry i is then the fold of member i's own pairs, each returned Deferred standing for its outcome |
| `DeferredList.DeferredLock.Acquire` | code/libraries/mochikit/MochiKit/Async.js:457-466 | the lock is granted in the order of the requests, to one holder at a time |
| `DeferredList.DeferredLock.Release` | code/libraries/mochikit/MochiKit/Async.js:468-477 | a release hands the lock to the longest waiting request, or frees it; it throws exactly on a free lock |
| `Tee.ListMinMax` | code/libraries/mochikit/MochiKit/Base.js:1028-1041 | the result is an element that no other one beats; null exactly on an empty list |
| `Tee.Readers.constructor` | code/libraries/mochikit/MochiKit/Iter.js:385-403 | n readers stand before the first item, with an empty buffer |
| `Tee.Readers.Next` | code/libraries/mochikit/MochiKit/Iter.js:362-380 | in every interleaving, the k-th call of a reader yields the k-th item of the source or StopIteration, and positions, buffer, min and max stay what the schedule says |
| `Tee.KeepsWindow` | code/libraries/mochikit/MochiKit/Iter.js:371-378 | an item leaves the buffer exactly when the slowest of several readers has had it |
| `Tee.WidensWindow` | code/libraries/mochikit/MochiKit/Iter.js:366-370 | a new item enters the buffer at its end and moves only the fastest position |
| `Tee.BufferIsMinimal` | code/libraries/mochikit/MochiKit/Iter.js:362-380 | corollary of KeepsWindow and WidensWindow: the buffer holds exactly the items after the slowest reader up to the fastest, and `min` is the least position, if and only if there are at least two readers or nothing was read: a single reader keeps everything |
| `Signals.CalledIffDue` | code/libraries/mochikit/MochiKit/Signal.js:811-828 | while listeners connect and disconnect at will, exactly the observers are called that match and are connected when their turn comes, once each and in connection order, new ones included |
| `Signals.OnlyTheConnectedAreCalled` | code/libraries/mochikit/MochiKit/Signal.js:811-828 | a matching observer that was there before and is still connected in the end has been called; one disconnected before its turn has not |
| `Signals.LockedSteps` | code/libraries/mochikit/MochiKit/Signal.js:704-808 | while a signal is sent, every observer keeps its position and nobody is reconnected |
| `Signals.SweptStep` | code/libraries/mochikit/MochiKit/Signal.js:704-808 | acting during a signal and removing afterwards equals acting between signals, if and only if the action is not a disconnection by source, signal, object and function whose last match waits to be removed while an earlier one is connected |
| `Signals.SignalLeavesConnected` | code/libraries/mochikit/MochiKit/Signal.js:811-837 | after a signal the list holds exactly the connected observers in connection order, unlocked and clean; and it is as if the listeners had acted on an unlocked list, but for those exceptions |
| `Signals.IdleStep` | code/libraries/mochikit/MochiKit/Signal.js:659-739 | between signals every observer in the list is connected and listed once, whatever is connected or disconnected |
| `Signals.ShadowedExample` | code/libraries/mochikit/MochiKit/Signal.js:709-727 | the exception happens: disconnecting two equal connections twice removes both between signals, but only one from within a signal |
| `SignalLaws.DisconnectAllDrops` | code/libraries/mochikit/MochiKit/Signal.js:767-809 | `disconnectAll` takes exactly the observers of the source with one of the signals, or all of the source if none is named: at once between signals, marked in their places during one; the others keep their fields and order |
| `SignalLaws.DisconnectAllToDrops` | code/libraries/mochikit/MochiKit/Signal.js:742-764 | `disconnectAllTo` takes exactly the observers with the object and, unless it is null, the function, likewise |
| `SignalLaws.DisconnectDrops` | code/libraries/mochikit/MochiKit/Signal.js:728-737 | `disconnect(ident)` takes the one observer that is that Ident and no other |
| `SignalLaws.DisconnectFromDrops` | code/libraries/mochikit/MochiKit/Signal.js:709-727 | `disconnect` by source, signal, object and function takes the newest observer with these four and no other |
| `SignalLaws.ConnectAdds` | code/libraries/mochikit/MochiKit/Signal.js:622-676 | `connect` adds one connected observer at the end, with a new number and the given fields |
| `SignalLaws.DoneNext` | code/libraries/mochikit/MochiKit/Signal.js:817-828 | the listeners do what their turns say, one turn for each call, in order |
| `SignalLaws.ErrorsAreThrown` | code/libraries/mochikit/MochiKit/Signal.js:821-826 | a signal collects what its listeners threw, in the order of the calls |
| `SignalLaws.SignalSweeps` | code/libraries/mochikit/MochiKit/Signal.js:829-837 | after a signal exactly the observers are left that its listeners left connected, in order, and the list is unlocked and clean |
| `SignalHeap.Registry.Connect` | code/libraries/mochikit/MochiKit/Signal.js:622-676 | a fresh Ident is appended, connected |
| `SignalHeap.Registry.Disconnect` | code/libraries/mochikit/MochiKit/Signal.js:728-737 | the identical Ident is disconnected and removed, or left for later under the lock; true exactly when it was in the list |
| `SignalHeap.Registry.DisconnectFrom` | code/libraries/mochikit/MochiKit/Signal.js:709-727 | the last Ident with that source, signal, object and function is disconnected; true exactly when there is one |
| `SignalHeap.Registry.DisconnectEach` | code/libraries/mochikit/MochiKit/Signal.js:742-808 | both backward loops that splice while they run disconnect exactly the Idents that are meant and keep the others in order |
| `SignalHeap.Registry.SendLoop` | code/libraries/mochikit/MochiKit/Signal.js:811-828 | the loop over the list that its listeners mutate makes the calls, the errors and the changes of the specification |
| `SignalHeap.Registry.Send` | code/libraries/mochikit/MochiKit/Signal.js:811-845 | `signal`: afterwards the list is swept if it was dirty, no Ident outside the list is connected, and nothing, the one error or all errors are thrown |
| `SignalHeap.Registry.Sweep` | code/libraries/mochikit/MochiKit/Signal.js:830-837 | the splicing loop leaves the connected Idents in order |
| `SignalHeap.FindIdentical` | code/libraries/mochikit/MochiKit/Base.js:1054-1066 | the first position of the identical object, or -1 |
| `JsonPrinter.SerializeJSON` | code/libraries/mochikit/MochiKit/Base.js:857-964 | the recursive printer with its loops, against its specification; an object whose `length` is a number is printed as an array or fails on a missing element |
| `JsonPrinter.SerializeArrayLike` | code/libraries/mochikit/MochiKit/Base.js:911-922 | the array branch on such an object prints its elements 0 .. length - 1 or fails at the first missing one |
| `JsonPrinter.SerializeObject` | code/libraries/mochikit/MochiKit/Base.js:945-963 | members are printed in enumeration order with quoted keys, all or none |
| `JsonPrinter.QuoteLoop` | code/libraries/mochikit/MochiKit/Base.js:864-891 | the loop over the characters builds the escaped text of the whole string |
| `JsonRoundTrip.EscapeStep` | code/libraries/simplejson/simplejson/decoder.py:85-118 | each escape that the printer writes is read back as the character it stands for |
| `JsonRoundTrip.StringAt` | code/libraries/simplejson/simplejson/decoder.py:59-119 | the string scanner reads an escaped text, anywhere, and stops behind its closing quotation mark |
| `JsonRoundTrip.NumberAt` | code/libraries/simplejson/simplejson/scanner.py:47-54 | a printed integer is scanned as that integer wherever no digit, point or exponent follows |
| `JsonRoundTrip.ValueAt` | code/libraries/simplejson/simplejson/scanner.py:28-62 | a printed value is read back wherever it stands, and the scanner stops exactly at its end |
| `JsonRoundTrip.ItemsAt` | code/libraries/simplejson/simplejson/decoder.py:201-235 | the joined items are read back in order, up to the closing bracket |
| `JsonRoundTrip.MembersAt` | code/libraries/simplejson/simplejson/decoder.py:128-199 | the joined members are read back into the map of their keys, up to the closing brace |
| `JsonRoundTrip.DecodePrinted` | code/libraries/simplejson/simplejson/decoder.py:310-334 | decoding a printed text returns its value and consumes all input |
| `JsonRoundTrip.FaithfulIff` | code/libraries/mochikit/MochiKit/Base.js:911-922 | what is printed means the same value exactly when no object in it, at any depth, has a number under `length` |
| `JsonRoundTrip.DecodeSerialized` | code/libraries/mochikit/MochiKit/Base.js:857-964 | simplejson's decode of serializeJSON's text returns the value and consumes all input if and only if no object in it has a number under `length`; for every well-formed value |
| `JsonRoundTrip.SerializeInjective` | code/libraries/mochikit/MochiKit/Base.js:857-964 | such values with the same text are the same value |
| `JsonPrinter.ArrayLikeIff` | code/libraries/mochikit/MochiKit/Base.js:911-912 | an object is taken for an array exactly when it has a number under `length` |
| `JsonPrinter.ArrayLikePrinted` | code/libraries/mochikit/MochiKit/Base.js:911-922 | such an object is printed as the array of its members under the numerals 0 to length - 1, and fails exactly when one of them is missing or fails |
| `JsonComplete.PieceAt` | code/libraries/simplejson/simplejson/decoder.py:84-118 | every way to write a character in a string is read as that character: itself, the eight short escapes, \u with digits of either case, surrogate pairs |
| `JsonComplete.FloatAt` | code/libraries/simplejson/simplejson/scanner.py:47-54 | a fraction or an exponent is scanned with the whole number before it and kept as its text |
| `JsonComplete.TreeAt` | code/libraries/simplejson/simplejson/scanner.py:28-62 | every JSON value is scanned as what it means, wherever it stands, with any run of blanks, tabs, line feeds and carriage returns around every token in it |
| `JsonComplete.DecodeReads` | code/libraries/simplejson/simplejson/decoder.py:310-334 | decoding any text of the grammar, with such blanks around it, gives its meaning and consumes it all |
| `JsonSound.TreeOf` | code/libraries/simplejson/simplejson/scanner.py:28-62 | whatever the scanner accepts is a text of the grammar, read as what it means |
| `JsonSound.DecodeIff` | code/libraries/simplejson/simplejson/decoder.py:310-334 | the decoder accepts exactly the texts of the grammar, each as what it means |
| `JsonSpelling.DecodeSpelled` | code/libraries/simplejson/simplejson/decoder.py:128-235 | for every JavaScript value, every way to write it, any escapes and any blanks around any token, is decoded to that value and consumed whole |
| `JsonSpelling.PrinterSpells` | code/libraries/mochikit/MochiKit/Base.js:857-964 | what the printer writes is one of these ways: one blank behind a comma and no other |
| `JsonErrors.StringError` | code/libraries/simplejson/simplejson/decoder.py:66-116 | behind any good beginning of a string: its end, a control character, a backslash at the end, an unknown escape and a \u without four digits each give their error at that place |
| `JsonErrors.ListError` | code/libraries/simplejson/simplejson/decoder.py:213-233 | an item that is followed by neither comma nor bracket, and a comma without an item, give their errors at that place |
| `JsonErrors.EntryError` | code/libraries/simplejson/simplejson/decoder.py:147-165 | a key without a colon and a colon without a value give their errors at that place |
| `JsonErrors.DictError` | code/libraries/simplejson/simplejson/decoder.py:136-195 | an entry that is followed by neither comma nor brace, and a comma or brace without a key, give their errors at that place |
| `JsonErrors.ErrorPasses` | code/libraries/simplejson/simplejson/decoder.py:162-165 | an error inside a value is reported unchanged by all around it, except that a missing value is named by its place, or as no object at the top |
| `JsonErrors.Extra` | code/libraries/simplejson/simplejson/decoder.py:316-318 | what stands behind a value and its blanks is reported at its first character |
| `JsonErrors.NothingToDecode` | code/libraries/simplejson/simplejson/decoder.py:330-333 | a text of blanks, or one that begins with no value, holds no object |
| `JsonLoops.PyScanString` | code/libraries/simplejson/simplejson/decoder.py:59-119 | the chunk loop of `py_scanstring`, errors and their positions included |
| `JsonLoops.SkipFast` | code/libraries/simplejson/simplejson/decoder.py:154-160 | the two-look fast path stops at the next character that is no blank; the blanks are those of JsonGrammar, as DecodeIff shows |
| `JsonLoops.NextChar` | code/libraries/simplejson/simplejson/decoder.py:168-175 | the look behind a value finds the next character that is not blank |
| `JsonLoops.ObjectPair` | code/libraries/simplejson/simplejson/decoder.py:143-166 | key, colon and value of one pair, with the errors in between |
| `JsonLoops.JSONObject` | code/libraries/simplejson/simplejson/decoder.py:128-199 | the loop of `JSONObject` with its fast paths equals the plain grammar, errors and their positions included |
| `JsonLoops.JSONArray` | code/libraries/simplejson/simplejson/decoder.py:201-235 | the loop of `JSONArray` equals the plain grammar, errors and their positions included |
| `JsonLoops.ScanOnceAt` | code/libraries/simplejson/simplejson/scanner.py:28-62 | the scanner, with its branches for literals, numbers and constants, calling the loops |
| `JsonLoops.DecodeText` | code/libraries/simplejson/simplejson/decoder.py:310-334 | the body of `decode` is the recursive decoder, errors and their positions included, which accepts exactly the texts of JsonSound.DecodeIff |
| `CircularBuffer.Ring.constructor` | code/utils/Utils.java:124-131 | the buffer starts full of the initial frame |
| `CircularBuffer.Ring.Add` | code/utils/Utils.java:133-139 | the buffer agrees with the full history of frames, one longer |
| `CircularBuffer.Ring.Get` | code/utils/Utils.java:141-152 | item i of a window is item i of the last frames of the history, or null outside |
| `CircularBuffer.Ring.LastIsAdded` | code/utils/Utils.java:141-152 | corollary of Get: a window no longer than what was added holds no padding |
| `Features.LeastMeans` | code/recognise/Features.java:88-107 | the minimum of an axis is a lower bound of the window, and one of its values unless none is below 9999 |
| `Features.DeltaIsSpan` | code/recognise/Features.java:88-112 | the difference of the extremes is the largest distance between two coordinates of the window if and only if some coordinate is at most 9999 and some at least -9999; it is never less |
| `Features.Ranges.Delta` | code/recognise/Features.java:109-112 | `get_delta` on the arrays: the span of what was seen under exactly that condition |
| `Features.Ranges.Update` | code/recognise/Features.java:99-107 | the arrays hold the extent of everything seen |
| `FeatureLaws.DisplacedIff` | code/recognise/Features.java:48-60 | the displacement is never negative, and 0 exactly when all six coordinates end where they began |
| `FeatureLaws.DisplacementAddsUp` | code/recognise/Features.java:48-60 | each coordinate of either arm that moved by d adds d * d to what the others give, so a single movement by d gives d * d |
| `FeatureLaws.MirroredFeatures` | code/recognise/Features.java:11-60 | swapping the arms in every frame swaps their extents and leaves the displacement |
| `FeatureLaws.TranslatedDisplacement` | code/recognise/Features.java:48-60 | moving all frames by the same vector leaves the displacement |
| `FeatureLaws.ExtentsMean` | code/recognise/Features.java:88-107 | the extents of the left and the right arm are the extremes of their coordinates over the frames, with 9999 and -9999 counted among them, axis by axis |
| `Features.FromList` | code/recognise/Features.java:11-26 | the features of a list of frames, which FeatureLaws reads off the frames; none for an empty list |
| `Features.FromBuffer` | code/recognise/Features.java:28-46 | the features read from the ring buffer equal those of the plain list of the last frames |
| `SlidingWindow.ShortestIsLeast` | code/recognise/SlidingWindow.java:153-161 | the window chosen is the shortest of 50, 60, ... 350 available frames that the classifier accepts; none is chosen only if it accepts none |
| `SlidingWindow.EventsAreShortest` | code/recognise/SlidingWindow.java:149-162 | over every run and for every classifier, each recognised window is the shortest accepted one that begins no earlier than the last ended, and gestures times 50 never exceed the frames read |
| `SlidingWindow.EventsDisjoint` | code/recognise/SlidingWindow.java:151-161 | recognised windows share no frame and come in order |
| `SlidingWindow.RecognisedIff` | code/recognise/SlidingWindow.java:149-162 | nothing is missed: at a tenth frame a gesture is recognised exactly when some candidate window on the frames since the last one is accepted |
| `SlidingWindow.RecognisedWhen` | code/recognise/SlidingWindow.java:149-187 | frame by frame: at every tenth frame the least w of 50, 60, ..., 350 for which the classifier gives a command on the last w frames, none of them in the last recognised gesture, makes one event with that command; without one, and at every other frame, there is none |
| `SlidingWindow.StatusesCount` | code/recognise/SlidingWindow.java:119-130 | one status is sent for every frame that differs from the one before in being a dropout |
| `SlidingWindow.StatusesAlternate` | code/recognise/SlidingWindow.java:119-130 | the statuses sent alternate, beginning with a dropout, and the last one tells the state of the last frame |
| `SlidingWindow.Recogniser.Recognised` | code/recognise/SlidingWindow.java:168-187 | the classifier is asked about exactly the last frames that were added, and a gesture is emitted exactly when it names one |
| `SlidingWindow.Recogniser.TryWindows` | code/recognise/SlidingWindow.java:151-161 | the loop over window sizes stops at the shortest accepted one |
| `SlidingWindow.Recogniser.Turn` | code/recognise/SlidingWindow.java:105-163 | one turn of the loop on the ring buffer keeps emitted gestures and statuses what the full history says |
| `SlidingWindow.Run` | code/recognise/SlidingWindow.java:85-163 | the program on every finite sequence of frames emits what the plain history says |
| `Color.OnWheel` | code/libraries/mochikit/MochiKit/Color.js:519-540 | every colour that is not grey stands on the colour wheel at its computed hue, which lies in [0, 1) |
| `Color.HueOfWheel` | code/libraries/mochikit/MochiKit/Color.js:519-540 | the hue of a point of the wheel is its position |
| `Color.HsvOnWheel` | code/libraries/mochikit/MochiKit/Color.js:428-465 | wherever the switch over sextants has a case, or the colour is grey, it computes the colour of the wheel at that hue |
| `Color.HslOnWheel` | code/libraries/mochikit/MochiKit/Color.js:468-503 | the three shifted channel values are the colour of the wheel, for every hue that the wrapping by one turn can reach |
| `Color.RgbHsvRgb` | code/libraries/mochikit/MochiKit/Color.js:428-548 | hsvToRGB(rgbToHSV(c)) = c for every colour in [0,1], with hue, saturation and value in the unit interval |
| `Color.HsvRgbHsv` | code/libraries/mochikit/MochiKit/Color.js:428-548 | rgbToHSV(hsvToRGB(c)) = c for every hue in [0, 1) and positive saturation and value |
| `Color.RgbHslRgb` | code/libraries/mochikit/MochiKit/Color.js:468-595 | hslToRGB(rgbToHSL(c)) = c for every colour in [0,1], with hue, saturation and lightness in the unit interval |
| `Color.HslRgbHsl` | code/libraries/mochikit/MochiKit/Color.js:468-595 | rgbToHSL(hslToRGB(c)) = c for every hue in [0, 1), positive saturation and lightness strictly between 0 and 1 |
| `Geometry.MatrixIsRodrigues` | code/transform/Geometry.java:259-268 | the nine entries amount to the vector form of an axis-angle rotation |
| `Geometry.RotatedUnless` | code/transform/Geometry.java:246-271 | a point is rotated unless the angle lies within 0.00001 of 0 |
| `Geometry.AboutThird` | code/transform/Geometry.java:259-268 | the sense of the rotation about the third axis |
| `Geometry.RotationKeepsDots` | code/transform/Geometry.java:246-271 | about a unit axis, `rotatePoint` keeps all dot products, hence lengths and angles |
| `Geometry.RotationFixesAxis` | code/transform/Geometry.java:246-271 | it leaves its axis where it is |
| `Geometry.RotationUndone` | code/transform/Geometry.java:246-271 | rotating by the negated angle undoes a rotation |
| `Sensors.NormalisedMeans` | code/transform/Geometry.java:61-80 | the angle is multiplied by the axis' length; if the product reaches 0.00001 either way, axis times angle is the old axis; otherwise a tiny axis becomes the upright dropout, and any other stays |
| `Sensors.TurnsAdd` | code/transform/Geometry.java:82-98 | a quarter turn takes the first axis to the second; turns after each other add up |
| `Sensors.NormalisedIsUnit` | code/transform/Geometry.java:61-80 | `normalise` leaves a unit axis exactly when the angle was 1 or -1 before, or the rotation is (almost) none, or the axis had length 1 and the angle was tiny |
| `Sensors.RawIsUnit` | code/transform/Geometry.java:19-30 | built from raw data, every SixDOF has a unit axis, and axis times angle is the raw vector; a raw vector shorter than EPSILON becomes a dropout without rotation |
| `Sensors.NormalisedTwice` | code/transform/Geometry.java:61-80 | a second `normalise` spoils the axis unless the angle is 1 radian |
| `Sensors.SixDOF.constructor` | code/transform/Geometry.java:19-30 | the object built from raw data has a unit axis and the given place |
| `Sensors.SixDOF.Normalise` | code/transform/Geometry.java:61-80 | the fields after `normalise`, branch by branch |
| `Sensors.SixDOF.Rotate` | code/transform/Geometry.java:82-98 | place and axis are turned by the same rotation about the vertical |
| `Sensors.TurnKeepsDots` | code/transform/Geometry.java:82-98 | that rotation keeps all dot products |
| `Sensors.ProcessKeepsDistances` | code/transform/Transform.java:66-77 | processing a frame keeps the distance between the arms, and an arm's distance from the body becomes its distance from the origin |
| `Sensors.Process` | code/transform/Transform.java:66-77 | both arms are moved relative to the body and turned by the same bearing, and their axes stay unit vectors |
| `Combi.FallingIsBinomial` | resources/scop_1.5.1/examples/xml_server.cpp:33-34 | the product of the first loop is the binomial coefficient times k! |
| `Combi.Combi` | resources/scop_1.5.1/examples/xml_server.cpp:27-40 | `combi` is the binomial coefficient of Pascal's triangle, 0 outside; its variable is multiplied and then divided without remainder at every step, stays positive and never exceeds n (n - 1) ... (n - k + 1), which it reaches |
| `Html.EscapeIsMap` | code/libraries/mochikit/MochiKit/DOM.js:891-896 | the four sequential replacements equal one pass that maps each character to itself or its entity |
| `Html.UnescapeEscaped` | code/libraries/mochikit/MochiKit/DOM.js:891-896 | reading the entities back gives the original text, so escaping loses nothing |
| `Html.EscapedIsInert` | code/libraries/mochikit/MochiKit/DOM.js:891-896 | escaped text holds no '<', '>' or quotation mark |
| `Html.SortedIsOrdered` | code/libraries/mochikit/MochiKit/DOM.js:924-936 | the attributes come out sorted, each as often as it went in |
| `HtmlReader.SortKeyIs` | code/libraries/mochikit/MochiKit/DOM.js:927-936 | attributes are compared as arrays are, by their five strings joined with commas |
| `HtmlReader.AtMostIff` | code/libraries/mochikit/MochiKit/DOM.js:936 | strings are compared at the first character that differs, and a beginning comes first |
| `HtmlReader.LowerIs` | code/libraries/mochikit/MochiKit/DOM.js:923 | tags are written in lower case, letter by letter |
| `HtmlReader.AttributesAt` | code/libraries/mochikit/MochiKit/DOM.js:924-942 | a reader of the text gets every attribute back with its value, whatever characters the value has |
| `HtmlReader.NodeAt` | code/libraries/mochikit/MochiKit/DOM.js:904-960 | a reader gets every element, wherever it stands, with its tag, attributes, texts and children |
| `HtmlReader.ReadBack` | code/libraries/mochikit/MochiKit/DOM.js:899-901 | a reader of the whole text gets the tree back, for every tree of elements and texts in which no text is empty or next to another |
| `HtmlReader.Unseen` | code/libraries/mochikit/MochiKit/DOM.js:904-960 | comments and empty texts among other children leave no trace, and neighbouring texts read as one |
| `HtmlReader.SameText` | code/libraries/mochikit/MochiKit/DOM.js:899-901 | such trees with the same text are the same but for case and order of attributes |
| `Html.EmitTop` | code/libraries/mochikit/MochiKit/DOM.js:913-958 | one turn of the loop keeps emitted strings plus the rendering of the stack, and makes the stack smaller |
| `Html.EmitHTML` | code/libraries/mochikit/MochiKit/DOM.js:904-960 | the explicit stack terminates on every finite tree and appends exactly the strings of the recursive depth-first rendering |
| `Html.ToHTML` | code/libraries/mochikit/MochiKit/DOM.js:899-901 | the joined text is that of the recursive rendering |

## Left out

- Sockets, `select`, `fork`, signals, logging, host access control, privileges, command lines, configuration: the network is byte sequences, outputs per client, and a set of clients whose posts fail during a command.
- Broker.DeliverKeeps: the loop of `do_send` reads the next pointer of a node it has just deleted; the model saves it first, as `remove_all` does.
- Broker.ScanEndpointOf: where a command has no '!', the server goes on from a position that was never set; the model lets the text it reads there be arbitrary.
- BrokerTheorems.CountersFitInt: ids and counters are unbounded; the lemma bounds them by the number of events instead of wrapping them.
- `log`, `reconfigure` and `terminate` change nothing in the model; a run that ends is a finite run. The hint that `emit` passes by pointer is copied.
- C++ memory management, the reuse of socket numbers (a client is known by its id), and buffers sized by the input.
- VertexHeap.StringToVertex: a vertex text that is malformed is a failure in the model, where the C++ parser goes on with stale positions and skips unmatched closing tags; a tag longer than its buffer is one too. Sizes beyond int and integers beyond 32 bits in `<int>` are not wrapped.
- PyVertex.DoStringToVertex: a tag without '>', which Python's negative indices may still turn into a value, and a negative size are failures in the model.
- Doubles in typed messages, `pretty_print` indentation, the accessors for items of a list, packing of arrays and of three to five vertices, cookies as vertices, reading a list of clients.
- Wire.ReadMessage: a negative length is a failure; the shifts of the mask loops are written as divisions.
- The C and Java ports of SCOP.
- EndToEnd.StructuredCall: the caller's own disconnection during the call, and frames of 2^31 characters or more, are excluded by its requires. That `read` fails during the call is left out.
- Async.DeferredStore.CallUser: a callback is a function of its number and the value it is called with. What it does besides, to other Deferreds, is not modelled: it creates none, so a Deferred that it returns exists when its pair is added, and it neither fires nor extends others.
- Async.DeferredStore.AddCallbacks: every Deferred may be returned by one pair only. A chained Deferred cannot be re-used; returning it a second time throws or not depending on timing, and callbacks that act on their own Deferred re-enter its loop. Cancellers, `cancel` and `silentlyCancelled` are left out.
- DeferredList.ListOfDeferreds.constructor: members are given as resolutions; `ListOnStore` says what the members' own chains hand to the list, but the callbacks of a list and of its members do not run in one store.
- ListOnStore.MemberHandsOver: the call of the list's callback itself is not a step of the store.
- ListOnStore.ListOfOutcomes: that the callbacks tell the list of the members' results is a hypothesis, not a consequence of running them.
- `maybeDeferred`, XMLHttpRequest and timers are left out.
- DeferredList.DeferredLock.Release: a holder that acquires or releases from within the callback that grants it the lock.
- Signals.CalledIffDue: what listeners do is a finite script, one turn for each call; nested signals, the hooks `__connect__` and `__disconnect__`, DOM event listeners and `_unloadCache` are left out.
- Tee.Readers.Next: the source is a finite sequence.
- JsonPrinter.SerializeJSON: values with adapters, functions and undefined members; integers beyond 2^53, whose digits JavaScript rounds; other numbers.
- JsonRoundTrip.DecodeSerialized: objects on the Python side are maps, so the order of members is not compared.
- JsonLoops.PyScanString: lone or unmatched surrogates are an error in the model; blanks, signs and `0x` that Python's `int` accepts among the four digits of a \u escape are errors; `strict=False`, `str` input and `object_hook` are left out, and floats are kept as text. Characters are code points, so a pair of UTF-16 units in JavaScript is one character.
- Features.DeltaIsSpan: exact reals; floating-point rounding is left out here and in Color, Geometry and Sensors.
- SlidingWindow.Recogniser.Turn: the frame counter is unbounded, the classifier is any fixed function of the features, and the frame-rate log is left out.
- Color.HsvOnWheel: hues for which the switch assigns nothing.
- Color.HslOnWheel: hues more than two thirds of a turn outside [0, 1], which one turn does not bring back.
- Sensors.Process: the heading from `calcHeading` is any pair of sine and cosine.
- Sensors.SixDOF.Normalise: square root, sine and cosine are values with their defining laws; `calcHeading` and atan2 are left out, as are raw arrays that are too short.
- Combi.Combi: 32-bit overflow is left to the bound on the largest intermediate value.
- Html.EmitHTML: attributes are given as a list (the browser-specific filter of `attributeArray` is left out), tag names are lowered in ASCII, and the sort compares joined texts by code point.
- HtmlReader.ReadBack: trees with comments, or with texts that are empty or next to each other, are not read back as they were (HtmlReader.Unseen says what becomes of these nodes), nor are names that HTML cannot hold.
- PortsAgree.Agree: texts of the C++ grammar with another character than a blank before a size, with more than blanks behind it, or with pairs of digits that denote a negative byte are described for C++ alone.
- Neural, Markov and hybrid classifiers, the Tkinter and browser user interfaces, web.py, robot serial lines: thin or external.
