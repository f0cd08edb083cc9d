# crablib, verified

A Dafny model of the stateful cores of crablib: the timer heap of the run loop, the DNS worker protocol, the gap recovery
of the market-data example, the byte streams under HTTP and WebSocket connections, and the codecs beside them. Objects that
the library updates in place are classes with the same fields and loops; parsers are classes proved against automata;
protocols are step relations over all interleavings. `dafny verify dfyconfig.toml` checks everything.

How the modules fit together:

- `IntrusiveHeap`, `Timers`: the lazy heap with erase-anywhere, refined to a map from timers to deadlines, and safety
  and progress of every run of that map.
- `DnsProtocol`: owner thread and worker thread; each region under a lock is one step.
- `MarketData`, `MarketRecovery`, `MarketGate`, `MarketSource`, `MarketSystem`: the store of the gate refined to one
  increasing row of messages, the request and answer of a retransmission, the two programs as classes, and the whole
  system with an adversarial network.
- `Automaton`: parsers that take one symbol at a time; cutting the input into fragments never matters.
- `RingBuffer`, `BufferedSocket`, `ChunkedBody`, `BodyReader`, `BodyWriter`: from the queue of a socket through chunks to
  the body parser, end to end.
- `ResponseHeaders`, `ResponseParsing`, `ResponseRoundTrip`: the response head printed and read.
- `WebSocketMask`, `WebSocketHeader`, `WebSocketBody`, `WebSocketFrames`: masking by machine words, frame headers, frame
  bodies, and messages one after the other.
- `IntegerText`, `Utf8`, `Base64`, `UrlEncoding`, `QueryParsing`, `IntrusiveList`: the self-contained parts.

A `char` stands for one octet in the modules on text; the WebSocket modules use `bv8`. Parser states called `FAILED` and
results called `None` or `threw` stand for exceptions. Sockets are adversarial oracles that take or give any prefix.

What the proofs found out about the code:

- A long-polling client of the market-data source is woken one message late: the loop compares the exclusive end of the
  range with the last sequence number (`MarketSource.WokenOneMessageLate` says exactly when). The gate itself never waits
  like that, since it asks only for what lies in front of messages it has (`MarketSystem.PostponedIsAnswered`).
- The names handed to a DNS handler are a reference to the resolver's own vector. It keeps its value during the handler
  (`DnsProtocol.NamesStayDuringHandler`) unless the handler itself calls `resolve()`, and then every run can go on so that
  they change under it (`DnsProtocol.NamesChangeUnderHandler`).
- A close reason that is cut to fit may be cut in the middle of a character, and then the receiver drops all of it
  (`WebSocketFrames.TextReasonArrives` says exactly when, `WebSocketFrames.ReasonCutInTheMiddle` is one).
- The number parser accepts every `isspace()` character where the grammar above it says spaces and tabs
  (`IntegerText.AcceptedAsWritten` is the exact difference).
- The query parser does not end a pair at an `&` behind `%`, or behind `%` and one hex digit, and a value without a key
  left behind such an `&` runs into a later pair (`QueryParsing.AmpersandSeparatesIff` is the exact condition). It drops an
  `=` behind `%` and one hex digit in a value (`QueryParsing.EqualsIsLostIff`). Encoded input is not affected.
- The response parser takes a tab inside a header value or status text for a control character and refuses it
  (`ResponseRoundTrip.TabIsRefused`, `ResponseRoundTrip.TabInStatusTextIsRefused`), except behind a comma of a list, where it
  is skipped. Text arrives as it was printed if and only if it is without control characters, without spaces at its ends
  and, in a list, without commas (`ResponseRoundTrip.LineArrivesIffPlain`, `ResponseRoundTrip.StatusArrivesIffPlain`), which
  is why the round trip of the head is for such text.
- The response parser demands that chunked is applied last, but what it refuses is chunked behind other encodings, the
  order in which the header is printed (`ResponseRoundTrip.HeadIsRefused`; `HeadRoundTrip` is an if and only if).

## Model

| member | source | states |
|---|---|---|
| IntrusiveHeap.FrontIsExtremal | include/crab/intrusive_heap.hpp:40-44 | in a heap ordered by any strict weak order no element is above the front |
| IntrusiveHeap.SwapUp | include/crab/intrusive_heap.hpp:128-144 | one round of move_up keeps the heap ordered except above the element that moves |
| IntrusiveHeap.SwapDown | include/crab/intrusive_heap.hpp:103-127 | one round of move_down keeps the heap ordered except below the element that moves |
| IntrusiveHeap.GreaterChild | include/crab/intrusive_heap.hpp:107-117 | choosing the child that is not below the other makes it fit on top of both subtrees |
| IntrusiveHeap.LastToKeepsOrder | include/crab/intrusive_heap.hpp:62-67 | the last element put in the place of any erased one leaves the order intact everywhere but around that place |
| IntrusiveHeap.LastToKeepsElements | include/crab/intrusive_heap.hpp:62-64 | doing so removes exactly the erased element |
| IntrusiveHeap.ReplaceAt | include/crab/intrusive_heap.hpp:97-102 | an ordered heap in which one element is exchanged is ordered around it, so that sifting one way suffices |
| IntrusiveHeap.Heap.Front | include/crab/intrusive_heap.hpp:40-44 | returns a member to which no member is greater |
| IntrusiveHeap.Heap.Insert | include/crab/intrusive_heap.hpp:46-53 | adds exactly the node, keeps order and back-indices; a node already in this heap or in another one is refused and nothing changes |
| IntrusiveHeap.Heap.Erase | include/crab/intrusive_heap.hpp:54-69 | removes exactly the node wherever it is, keeps order and back-indices, index 0 afterwards; absent nodes change nothing |
| IntrusiveHeap.Heap.PopFront | include/crab/intrusive_heap.hpp:70-82 | removes exactly the front and keeps order and back-indices |
| IntrusiveHeap.Heap.Adjust | include/crab/intrusive_heap.hpp:97-102 | restores order and indices when one element may be out of place in either direction |
| IntrusiveHeap.Heap.MoveUp | include/crab/intrusive_heap.hpp:128-144 | the sift loop restores the heap when only the way up is in doubt, and ends |
| IntrusiveHeap.Heap.MoveDown | include/crab/intrusive_heap.hpp:103-127 | the sift loop restores the heap when only the way down is in doubt, and ends |
| TimerSpec.HistoryGivesDeadlines | include/crab/network.hxx:254-274 | in every run a timer has a deadline exactly if its last arming was neither cancelled nor fired since, and it is that arming's |
| TimerSpec.FiresOnlyWhenDue | include/crab/network.hxx:95-109 | in every run a handler runs only for an armed timer whose deadline has come |
| TimerSpec.NoFiringWithoutRearming | include/crab/network.hxx:95-109 | in every run between two firings, or a cancel and a firing, of a timer there is a call of once |
| TimerSpec.QuietMeansNothingDue | include/crab/network.hxx:112-120 | in every run process_timer reports nothing only when no armed timer is due |
| TimerSpec.BurstIsBounded | include/crab/network.hxx:90-121 | calling process_timer again and again fires at most once per set timer |
| Timers.HeapPredIsStrictWeakOrder | include/crab/network.hpp:40-42 | the comparison of fire times is a strict weak order, as the heap demands |
| Timers.RescheduleShrinks | include/crab/network.hxx:95-101 | each round of the rescheduling loop leaves fewer set timers with a fire time that has come |
| Timers.RunLoopLinks.OnceAt | include/crab/network.hxx:254-266 | sets the deadline and nothing else, also where only moved_fire_time is written and the heap is left alone |
| Timers.RunLoopLinks.Once | include/crab/network.hxx:238-252 | the deadline is now plus the delay, clamped at both ends instead of overflowing |
| Timers.RunLoopLinks.Cancel | include/crab/network.hxx:272-274 | removes the deadline of exactly this timer |
| Timers.RunLoopLinks.Surface | include/crab/network.hxx:95-110 | a surfaced timer fires exactly if its deadline has come; otherwise it is put back with its deadline and no deadline changes |
| Timers.RunLoopLinks.SkipStale | include/crab/network.hxx:93-111 | the loop ends, with a due timer taken out or with the earliest fire time in the future |
| Timers.RunLoopLinks.ProcessTimer | include/crab/network.hxx:90-121 | fires a timer if and only if some deadline has come, the fired one is due and no longer set, all others keep their deadlines; otherwise the sleep is right |
| Timers.RunLoopLinks.SleepTime | include/crab/network.hxx:111-120 | the sleep ends after the earliest fire time, by at most one millisecond, or is the caller's cap |
| DnsProtocol.StepKeepsInv | include/crab/network.hxx:324-393 | every step of owner, worker and run loop keeps the protocol invariant |
| DnsProtocol.HandlerAnswersLastResolve | include/crab/network.hxx:349-393 | in every interleaving a handler call answers the last resolve(), not cancelled or answered before, with the names of that very call |
| DnsProtocol.NoHandlerWithoutResolve | include/crab/network.hxx:365-393 | in every interleaving at most one handler call per resolve(), and none after cancel() until the next resolve() |
| DnsProtocol.WorkerStaysAway | include/crab/network.hxx:329-377 | while the owner writes the request without the lock, and once the watcher has been called, the worker does not touch the resolver |
| DnsProtocol.NamesStayDuringHandler | include/crab/network.hxx:365-368 | the names stay as delivered until the handler ends, unless it calls resolve() |
| DnsProtocol.NamesChangeUnderHandler | include/crab/network.hxx:365-381 | every run in which a handler is running goes on, before the handler ends, to a state in which its argument is to other names; once it has called resolve() the rest of resolve() and the worker are enough |
| DnsProtocol.WorkShrinks | include/crab/network.hxx:324-357 | every step of worker or run loop leaves less of them to do |
| DnsProtocol.WorkIsBounded | include/crab/network.hxx:324-357 | in every run worker and run loops take no more steps in a row than there is work |
| DnsProtocol.OpenRequestHasAStep | include/crab/network.hxx:324-357 | as long as a request is open some step toward its handler is possible |
| DnsProtocol.NothingIsLeftOpen | include/crab/network.hxx:324-393 | in every run that ends with no step of worker or run loop possible and all handlers ended, each call of resolve() was followed by its handler, a cancel() or another resolve() |
| MarketData.KeepIsIncreasing | examples/md_gate.cpp:147-184 | what the simple gate holds stays strictly increasing, so that no number is held twice |
| MarketData.KeepAdvances | examples/md_gate.cpp:147-184 | the number waited for never goes back, and advances exactly when its message comes |
| MarketData.AddMessageIsWellFormed | examples/md_gate.cpp:147-184 | messages stay contiguous; chunks stay contiguous, not empty, in order, with gaps between them and in front |
| MarketData.AddMessageRefines | examples/md_gate.cpp:147-184 | the two-level store always spells out what the simple gate holds |
| MarketData.StoreIsIncreasing | examples/md_gate.cpp:147-184 | no number is stored twice, and `messages` is the longest contiguous prefix |
| MarketData.StoreIsCanonical | examples/md_gate.cpp:147-184 | the same messages are always stored in the same chunks |
| MarketRecovery.RequestIsFirstGap | examples/md_gate.cpp:193-206 | there is a request exactly if something is missing, and it is exactly the first missing interval |
| MarketRecovery.AddAllRefines | examples/md_gate.cpp:207-222 | an answer applied to the store is an answer applied to the simple gate |
| MarketRecovery.AnswerFillsItsRange | examples/md_gate.cpp:207-222 | an answer removes exactly its range from the missing numbers, at whatever time it comes |
| MarketRecovery.ResponseIsRange | examples/md_tcp_source.cpp:162-183 | an answer with messages is exactly the range asked for, in order, given exactly when the range is stored |
| MarketRecovery.RoundShrinksMissing | examples/md_tcp_source.cpp:118-124 | request, cap and answer remove exactly the capped range from what is missing, and at least one number |
| MarketRecovery.UncappedAnswerMergesChunk | examples/md_gate.cpp:156-166 | an answer that was not cut merges the first chunk into the continuous stream |
| MarketGate.MDGate.AddMessageFromAnySource | examples/md_gate.cpp:147-184 | the deques after a message are the store of the model |
| MarketGate.MDGate.BroadcastRetransmission | examples/md_gate.cpp:193-206 | asks if and only if the connection is idle and something is missing, for the first gap |
| MarketGate.MDGate.OnFastQueueChanged | examples/md_gate.cpp:134-146 | all queued messages are added in order, then the gap is asked for |
| MarketGate.MDGate.OnHttpClientData | examples/md_gate.cpp:207-222 | all answered messages are added in order, then the next gap is asked for |
| MarketSource.MDSourceApp.Generate | examples/md_tcp_source.cpp:48-66 | messages are numbered 1, 2, 3 and so on |
| MarketSource.MDSourceApp.Respond | examples/md_tcp_source.cpp:162-183 | create_response with no index out of range, whatever is asked |
| MarketSource.MDSourceApp.OnRequest | examples/md_tcp_source.cpp:112-130 | an accepted request gets exactly its capped range, is refused, or waits, each exactly when it should |
| MarketSource.MDSourceApp.OnFastQueueChanged | examples/md_tcp_source.cpp:139-161 | messages are appended without a hole; every woken client gets exactly its range, the others go on waiting |
| MarketSource.WokenOneMessageLate | examples/md_tcp_source.cpp:152 | a waiting client could be answered if and only if the last message is the last of its range |
| MarketSource.WokenLateExample | examples/md_tcp_source.cpp:112-161 | calls of the application that end with a client waiting for message 2 when message 2 is there |
| MarketSystem.StepKeepsInv | examples/md_gate.cpp:134-234 | every step of source, gate and network keeps the system invariant and loses nothing the gate holds |
| MarketSystem.GateHoldsPiecesOfTheStream | examples/md_gate.cpp:147-184 | in every run with lost, repeated and reordered deliveries and disconnects, messages and chunks are pieces of the stream with the same payloads, in order, with gaps between them |
| MarketSystem.GateNeverLoses | examples/md_gate.cpp:147-184 | in every run a message held is held for good |
| MarketSystem.ReplyRemovesItsRange | examples/md_gate.cpp:207-222 | in every run an answer removes exactly its range from what is missing, however late it comes |
| MarketSystem.InOrderDeliveryKeepsRequest | examples/md_gate.cpp:147-206 | newer messages delivered in order do not change what is asked for |
| MarketSystem.PostponedIsAnswered | examples/md_tcp_source.cpp:139-161 | in every run a postponed request of the gate is answered, with exactly its range, by the next call of on_fast_queue_changed, so that it is never among those woken too late |
| MarketSystem.RecoveryCompletes | examples/md_gate.cpp:193-222 | from every state of every run the source's publishing, a reconnect if need be, and then requests and answers alone lead to one continuous stream from the first message held to the last, whatever was on its way |
| Automaton.FeedSplit | include/crab/http/response_parser.hpp:51-56 | input in two calls of parse is input in one |
| Automaton.FragmentsDoNotMatter | include/crab/http/response_parser.hpp:51-56 | however the input is cut a parser ends in the same state behind the same symbol |
| RingBuffer.Buffer.ReadPartsSpellContents | include/crab/streams.hpp:82-83 | the two read parts spell out the queue |
| RingBuffer.Buffer.WritePartsSpellFree | include/crab/streams.hpp:84-85 | the two write parts spell out the free space in the order it is filled |
| RingBuffer.Buffer.DidWrite | include/crab/streams.hpp:87-90 | the queue grows by what was put into the free space; throws exactly when that is too little |
| RingBuffer.Buffer.DidWriteUndo | include/crab/streams.hpp:91-94 | takes back the octets written last; throws exactly when there are not so many |
| RingBuffer.Buffer.DidRead | include/crab/streams.hpp:95-104 | the queue loses its first octets, through wrap and reset; throws exactly when there are not so many |
| RingBuffer.Buffer.ReadSome | include/crab/streams.hxx:33-38 | gives a prefix of the queue and keeps the rest, and something if there is something |
| RingBuffer.Buffer.WriteSome | include/crab/streams.hxx:40-45 | appends a prefix of the data, and something unless the queue is full |
| RingBuffer.Buffer.ReadFrom | include/crab/streams.hxx:47-60 | ends, and moves a prefix of the stream behind the queue, for any short reads |
| RingBuffer.Buffer.WriteTo | include/crab/streams.hxx:62-76 | ends, and moves a prefix of the queue to the stream, for any short writes |
| RingBuffer.Buffer.ReadEnoughData | include/crab/streams.hxx:78-82 | tells whether the queue has so many octets after reading, and only appends what the stream gave |
| RingBuffer.Buffer.Peek | include/crab/streams.hxx:84-98 | the first octets of the queue, exactly if there are so many |
| BufferedSocket.BufferedTCPSocket.Buffer | include/crab/http/connection.hxx:51-69 | accepts the data behind what was accepted before, or nothing after close or shutdown |
| BufferedSocket.BufferedTCPSocket.Write | include/crab/http/connection.hxx:71-83 | the same, and octets sent followed by octets queued are the octets accepted |
| BufferedSocket.BufferedTCPSocket.WriteString | include/crab/http/connection.hxx:85-89 | the same for the moved string |
| BufferedSocket.BufferedTCPSocket.WriteSome | include/crab/http/connection.hxx:45-49 | never overtakes the queue: sends directly only when it is empty and no shutdown is asked for |
| BufferedSocket.BufferedTCPSocket.WriteShutdown | include/crab/http/connection.hxx:91-99 | after it nothing more is accepted |
| BufferedSocket.BufferedTCPSocket.Flush | include/crab/http/connection.hxx:101-113 | the queue shrinks and nothing is lost, doubled or reordered, for any short writes |
| BufferedSocket.FinIsLast | include/crab/http/connection.hxx:91-113 | the shutdown call is issued once at most, only behind everything accepted, and is issued once it was asked for and the queue is empty |
| ChunkedBody.SizeIsAcceptedIffItFits | include/crab/http/request_parser.hxx:400-425 | a chunk size is accepted if and only if it fits 64 bits |
| ChunkedBody.ChunkedRoundTrip | include/crab/http/connection.hxx:598-606 | any writes, empty ones included, and the last chunk are read as the joined body, exactly up to their end |
| ChunkedBody.ContentLengthRoundTrip | include/crab/http/request_parser.hxx:353-361 | a counted body is read exactly up to its end |
| ChunkedBody.FragmentedRoundTrip | include/crab/http/request_parser.hpp:98-102 | the same for every fragmentation |
| BodyReader.BodyParser.ConsumeOctet | include/crab/http/request_parser.hxx:380-466 | one octet outside the counted parts is a step of the automaton, limits included |
| BodyReader.BodyParser.Parse | include/crab/http/request_parser.hpp:98-102 | taking counted parts in blocks is the automaton on single octets |
| BodyReader.BodyParser.ParseBuffer | include/crab/http/request_parser.hxx:346-349 | takes out of the ring exactly what the parser consumed |
| BodyReader.BodyParser.Pump | include/crab/http/connection.hxx:689-712 | the reading loop, over ring wraps and short reads, ends with the body; what follows stays in the ring |
| BodyWriter.ServerConnection.Write | include/crab/http/connection.hxx:584-606 | a write adds its chunk or its counted octets; throws exactly outside a body or past the content length |
| BodyWriter.ServerConnection.WriteLastChunk | include/crab/http/connection.hxx:654-663 | everything accepted behind the header is the encoding of the pieces written |
| BodyWriter.DeliveredBody | include/crab/http/connection.hxx:598-663 | end to end: a chunked body sent and queued, delivered in any fragments, gives the pieces joined |
| BodyWriter.DeliveredCountedBody | include/crab/http/connection.hxx:584-597 | the same for a body of known length once nothing of the length remains |
| ResponseHeaders.ToString | include/crab/http/types.hxx:229-240 | streaming the fields gives the status line, the lines in their order and the empty line |
| ResponseHeaders.ToStringCommon | include/crab/http/types.hxx:19-48 | appends exactly the lines of type, length, connection, encodings and extra headers |
| ResponseHeaders.StreamComma | include/crab/http/types.hxx:37-45 | encodings are separated by commas |
| ResponseParsing.ResponseParser.Consume | include/crab/http/response_parser.hxx:22-199 | one character is a step of the automaton, the limit on the length included; the states in which a header is taken over work on the fields |
| ResponseParsing.ResponseParser.ProcessReadyHeader | include/crab/http/response_parser.hxx:201-272 | a header is taken over or refused as the automaton says |
| ResponseParsing.ResponseParser.ParseText | include/crab/http/response_parser.hpp:51-56 | the loop is the automaton up to its final state |
| ResponseParsing.WithinLimit | include/crab/http/response_parser.hxx:23-24 | within the limit the length does not matter |
| ResponseParsing.BeyondLimit | include/crab/http/response_parser.hxx:23-24 | beyond it the parser fails |
| ResponseRoundTrip.MimeAndSuffix | include/crab/http/types.hxx:154-165 | type and suffix printed are read back |
| ResponseRoundTrip.ConnectionTakes | include/crab/http/types.hxx:29-36 | keep_alive is restored for HTTP/1.0 and 1.1, the upgrade whenever it is printed |
| ResponseRoundTrip.LinesTake | include/crab/http/response_parser.hxx:201-272 | reading the printed lines restores the header, lists of transfer encodings included |
| ResponseRoundTrip.HeadRoundTrip | include/crab/http/response_parser.hxx:22-272 | the printed head is read exactly to its end with the printed fields restored, if and only if it is within the limit and does not name chunked behind other encodings |
| ResponseRoundTrip.FragmentedHeadRoundTrip | include/crab/http/response_parser.hpp:51-56 | the same in any fragments |
| ResponseRoundTrip.HeadIsRefused | include/crab/http/response_parser.hxx:216-222 | a printed head that names chunked behind other encodings fails the parser |
| ResponseRoundTrip.RestoredFields | include/crab/http/types.hxx:19-48 | version, status, length, encodings, chunked flag, keep_alive, date and extra headers are restored without loss |
| ResponseRoundTrip.TabIsRefused | include/crab/http/response_parser.hxx:168-187 | a line with a tab behind the beginning of its value fails; in a list, if no comma is in front of the tab |
| ResponseRoundTrip.TabInStatusTextIsRefused | include/crab/http/response_parser.hxx:103-116 | so does any status text |
| ResponseRoundTrip.LineArrivesIffPlain | include/crab/http/response_parser.hxx:119-199 | a header line printed is handed to process_ready_header as exactly its name and value if and only if the value has no control characters, no space at its ends and, in a list, no comma |
| ResponseRoundTrip.LineTakenOverIff | include/crab/http/response_parser.hxx:135-272 | and is taken over in that way if and only if process_ready_header accepts the two besides |
| ResponseRoundTrip.StatusArrivesIffPlain | include/crab/http/response_parser.hxx:22-118 | the same for the status text in the status line |
| WebSocketMask.MaskedAt | include/crab/http/web_message_parser.hxx:114-119 | octet i is combined with key octet (shift + i) mod 4 |
| WebSocketMask.MaskedSplit | include/crab/http/web_message_parser.hxx:92-120 | masking composes over splits with the shift advanced |
| WebSocketMask.MaskedTwice | include/crab/http/web_message_parser.hxx:92-120 | masking is its own inverse |
| WebSocketMask.RolOctets | include/crab/util.hpp:169-173 | rotating the key by octets shifts its octets |
| WebSocketMask.LoadXor | include/crab/http/web_message_parser.hxx:103-112 | combining words is combining octets in the order of memory, on machines of either endianness |
| WebSocketMask.MaskData | include/crab/http/web_message_parser.hxx:92-120 | the in-place routine by aligned words masks octet by octet and touches nothing else, for every alignment, length, shift and key |
| WebSocketHeader.WebMessageHeaderSaver.constructor | include/crab/http/web_message_parser.hxx:14-31 | the buffer holds the octets of the header and is never overrun |
| WebSocketHeader.WebMessageHeaderParser.Consume | include/crab/http/web_message_parser.hxx:38-90 | one octet is a step of the automaton |
| WebSocketHeader.WebMessageHeaderParser.Parse | include/crab/http/web_message_parser.hpp:36-40 | the loop is the automaton up to its final state |
| WebSocketHeader.HeaderRoundTrip | include/crab/http/web_message_parser.hxx:14-90 | for every opcode, 64-bit length and optional key the header is read back exactly if and only if the opcode is known and control frames are final and short; otherwise it fails or the opcode did not fit four bits |
| WebSocketHeader.SavedFormIsShortest | include/crab/http/web_message_parser.hxx:14-30 | no header that is read as the same fields is shorter than the saved one |
| WebSocketBody.WebMessageBodyParser.Consume | include/crab/http/web_message_parser.hxx:133-151 | a block stored and unmasked in place is its octets one by one |
| WebSocketBody.WebMessageBodyParser.Parse | include/crab/http/web_message_parser.hpp:75-79 | the loop is the automaton up to its final state |
| WebSocketFrames.FrameRoundTrip | include/crab/http/connection.hxx:353-364 | a frame is read with its fields and its unmasked payload, and nothing behind it, if and only if its header is one that can be sent |
| WebSocketFrames.SentBodyIsSendable | include/crab/http/connection.hxx:235-249 | the body cut to 125 octets makes every control message one that can be sent |
| WebSocketFrames.CloseArrives | include/crab/http/connection.hxx:378-388 | the close code arrives, raised to 1000 if below; the reason, cut to the 123 octets behind it, arrives if what is left is UTF-8 and is cleared otherwise |
| WebSocketFrames.ReasonArrivesIffText | include/crab/http/connection.hxx:378-388 | as much of the reason as fits arrives if and only if that much is UTF-8 |
| WebSocketFrames.TextReasonArrives | include/crab/http/connection.hxx:235-249 | for a reason that is UTF-8: if and only if it has at most 123 octets or octet 123 continues no character |
| WebSocketFrames.ReasonCutInTheMiddle | include/crab/http/connection.hxx:235-249 | 122 letters and one of two octets: the whole reason is lost |
| WebSocketFrames.WriteMessage | include/crab/http/connection.hxx:228-253 | the client writes header and masked payload of the cut body |
| WebSocketFrames.MessagesRoundTrip | include/crab/http/connection.hxx:353-364 | messages one after the other, each with its own key or none, delivered in any fragments, are read as the frames that were written |
| WebSocketFrames.MessagesArrive | include/crab/http/connection.hxx:353-412 | and arrive as what they are: pings as something to answer, pongs as nothing, closes as their fields, data as it was, up to the first text that is no UTF-8 |
| IntegerText.NumeralIsUnique | include/crab/integer_cast.hpp:80-84 | a text is a numeral of the grammar in one way at most |
| IntegerText.MeaningIsExact | include/crab/integer_cast.hpp:80-166 | a text is accepted if and only if it is a numeral whose exact value is in the range of the type |
| IntegerText.Parse | include/crab/integer_cast.hpp:86-166 | integer_parse_impl is that meaning, for every signed and unsigned width |
| IntegerText.SafeDigitsFit | include/crab/integer_cast.hpp:102-103 | the digits read without a check never overflow |
| IntegerText.TooFarIsOutOfRange | include/crab/integer_cast.hpp:114-125 | the strict checks refuse a digit exactly when it would leave the range |
| IntegerText.ParseBody | include/crab/integer_cast.hpp:100-159 | both loops together give the value exactly if it is in range, and no value in between is out of it |
| IntegerText.AcceptedAsWritten | include/crab/integer_cast.hpp:73-84 | an accepted text is one of the written grammar, with spaces and tabs only around the number, if and only if it contains no line feed, vertical tab, form feed or carriage return |
| IntegerText.NumberOnALine | include/crab/integer_cast.hpp:73-84 | for instance a 5 between line feed and carriage return is accepted by every type |
| IntegerText.ParseOfDecimal | include/crab/integer_cast.hpp:277-306 | every printed value is read back |
| IntegerText.LengthIsExact | include/crab/integer_cast.hpp:194-199 | max_to_string_length_impl is the length of the decimal text |
| IntegerText.BufferSuffices | include/crab/integer_cast.hpp:270-279 | the buffer is long enough for every value of the type |
| IntegerText.Save | include/crab/integer_cast.hpp:277-306 | IntegerSaver writes the exact text, never cut, and it is read back |
| IntegerText.SafeAddIsExact | include/crab/integer_cast.hpp:215-249 | the checked sum is the exact sum, and is refused exactly when it is out of range; the check itself never overflows |
| IntegerText.SafeSubIsExact | include/crab/integer_cast.hpp:227-261 | the same for the difference |
| Utf8.ClassIs | include/crab/util.hxx:66-76 | the table of classes is the ranges of octets of RFC 3629 |
| Utf8.StepIs | include/crab/util.hxx:78-96 | the transition table is the grammar of section 4 of RFC 3629 |
| Utf8.RejectIsAbsorbing | include/crab/util.hxx:78-96 | nothing leads out of the reject state |
| Utf8.AcceptsExactlyUtf8 | include/crab/util.hxx:62-107 | the automaton accepts exactly the encodings of scalar values one after the other: no overlong forms, surrogates or values above 10FFFF |
| Utf8.CutOfUtf8 | include/crab/util.hxx:100-107 | text cut at a place stays text if and only if the octet behind the cut continues no character |
| Utf8.IsValidUtf8 | include/crab/util.hxx:100-107 | the loop over the table decides it |
| Base64.DecodeOfEncode | include/crab/crypto/base64.hxx:40-157 | an encoding is decoded in front of whatever follows |
| Base64.ConcatenationRoundTrip | include/crab/crypto/base64.hxx:40-157 | encodings one after the other are decoded as one |
| Base64.Encode | include/crab/crypto/base64.hpp:12 | the text has exactly encoded_size characters |
| Base64.Decode | include/crab/crypto/base64.hpp:14-17 | on any input there are at most max_decoded_size octets |
| Base64.EncodeInto | include/crab/crypto/base64.hxx:40-76 | the loops fill the buffer exactly with the encoding |
| Base64.DecodesIff | include/crab/crypto/base64.hxx:78-157 | what decodes: every character is of the alphabet, or is padding in the last place of a group of four or in front of such padding, and the length is not one more than a multiple of four |
| Base64.DecodeInto | include/crab/crypto/base64.hxx:78-157 | the loops decode within the buffer, or fail exactly when the text does not decode |
| UrlEncoding.EncodedIsDecoded | include/crab/http/query_parser.hxx:377-413 | decoding undoes encoding, with and without slashes kept |
| UrlEncoding.UrlEncode | include/crab/http/query_parser.hxx:399-413 | the loop encodes, and its result is decoded back |
| UrlEncoding.UrlDecode | include/crab/http/query_parser.hxx:377-397 | the loop decodes; incomplete escapes stand for themselves |
| QueryParsing.QueryRoundTrip | include/crab/http/query_parser.hxx:34-162 | encoded pairs joined with ampersands are parsed to exactly their map, empty keys included |
| QueryParsing.LastWins | include/crab/http/query_parser.hxx:34-38 | of equal keys the last one decides |
| QueryParsing.NothingElse | include/crab/http/query_parser.hxx:34-38 | no key comes from nowhere |
| QueryParsing.AmpersandSeparatesIff | include/crab/http/query_parser.hxx:68-162 | for every text: parsing it, an ampersand and more is parsing the more on top of the text's pairs, whatever the more is, if and only if the text ends in no open escape and leaves no value without a key; both are read off the text |
| QueryParsing.EveryAmpersandSeparates | include/crab/http/query_parser.hxx:68-162 | a text in which no ampersand follows an open escape is separated at all of them |
| QueryParsing.ValueIsLeft | include/crab/http/query_parser.hxx:68-162 | `=%&` ends in no open escape, and its value turns up in the next pair nevertheless |
| QueryParsing.EqualsIsLostIff | include/crab/http/query_parser.hxx:147-160 | an equals sign in a value is lost if and only if it follows a percent sign and one hex digit |
| QueryParsing.PairIsLost | include/crab/http/query_parser.hxx:130-134 | what becomes of two pairs with a lone percent sign between the first and the ampersand |
| QueryParsing.QueryParser.Parse | include/crab/http/query_parser.hxx:34-162 | the object parses as the automaton |
| IntrusiveList.Node.Unlink | include/crab/intrusive_list.hpp:21-27 | without a reference to a list takes out exactly this node; on a node in no list nothing happens |
| IntrusiveList.Node.LinkedIfOwned | include/crab/intrusive_list.hpp:20 | in_list() is true exactly for the nodes of lists |
| IntrusiveList.List.Insert | include/crab/intrusive_list.hpp:98-106 | puts a node before what the iterator stands for; a node in some list is left where it is |
| IntrusiveList.List.PushBack | include/crab/intrusive_list.hpp:96 | appends, or nothing if the node is in some list |
| IntrusiveList.List.PushFront | include/crab/intrusive_list.hpp:97 | prepends, or nothing if the node is in some list |
| IntrusiveList.List.Front | include/crab/intrusive_list.hpp:93 | the first element of the sequence |
| IntrusiveList.List.Back | include/crab/intrusive_list.hpp:94 | the last element of the sequence |
| IntrusiveList.List.Elements | include/crab/intrusive_list.hpp:44-89 | iterating from begin() to end() meets the elements in order, each once |
| IntrusiveList.List.Previous | include/crab/intrusive_list.hpp:64-67 | stepping back stands for the element before |
| IntrusiveList.InOneListAtMost | include/crab/intrusive_list.hpp:98-101 | a node is in one list at most, and there at one place |
| IntrusiveList.NextAndPrevAreInverse | include/crab/intrusive_list.hpp:21-27 | next and prev undo each other everywhere on the ring |

## Left out

- System calls, platform backends, TLS, certificates and the iOS demo: foreign calls; a socket is an oracle for short reads
  and writes.
- Timer::once(double): floating point; the clock is an integer of nanosecond ticks.
- Among timers already due the order of firing follows the stale fire times, so no order of deadlines is claimed.
- Destruction of objects inside callbacks, user handlers, and the quit flag and destructor of the DNS worker.
- BufferedSocket.FinIsLast: says when the wrapper issues its shutdown call; TCPSocket::write_shutdown may skip the kernel call
  when it cannot write, which is not part of this model.
- Reading through BufferedTCPSocket, including the discarding read after a shutdown.
- The leading null of the heap's storage: the model's storage starts at index 1. Elements that are equal in the order may
  leave the heap in any order.
- Sequence numbers do not wrap; the status prints, the UDP and TCP feeds and the gate's own HTTP server are not modelled,
  their deliveries are arbitrary steps of the network.
- Fragmented WebSocket messages: the header parser refuses opcode 0, so that continuation frames cannot be received.
- WebSocketFrames.MessagesArrive: what the connection makes of each frame, not its writing of the pong or close frame in
  return, nor its timers.
- BodyWriter.ServerConnection.Write: without the branch that streams a WebSocket message in frames of opcode 0, which the
  header parser of the library refuses.
- BodyWriter.ServerConnection.WriteLastChunk: without the branch that ends such a message.
- ResponseRoundTrip.HeadRoundTrip: for transfer encodings in lower case, none of them identity, which is read as nothing;
  `server` is parsed but never printed.
- RequestParser: the path is printed unencoded, so that there is no round trip to state.
- QueryParsing.QueryRoundTrip: for encoded input; `AmpersandSeparatesIff` says what becomes of other input.
- safe_abs: its result is the absolute value by definition of the unsigned type.
- Utf8.IsValidUtf8: the code point that utf8_decode also assembles is not used by is_valid_utf8 and not modelled.
- IMemoryStream and CombinedIStream, whose write_to does not report what was written.
- The API server example, hashes, the random generator, benchmarks and fuzz drivers.
