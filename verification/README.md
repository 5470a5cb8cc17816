# asyncpp-curl in Dafny

A model of the parts of asyncpp-curl that carry state or an algorithm of their own, with proofs of
what they promise: the WebSocket client, the UTF-8 validator it leans on, SHA-1, the TCP transfers,
the executor's completions and timers, the string list, Base64 and the URI parser.

`dafny verify dfyconfig.toml` checks everything.

## How it is built

| file | contents |
|---|---|
| `Bytes.dfy` | octets, big-endian numbers, exclusive or |
| `Utf8.dfy`, `Utf8Laws.dfy` | the validator; how its verdicts compose; which strings it accepts |
| `Frames.dfy` | the frame format of RFC 6455: parser arithmetic, chunking, the masking serialiser |
| `FrameOctets.dfy` | frames octet by octet: what each first octet means, and what is written for each call |
| `Session.dfy` | the connection as a state machine: every entry point is one step |
| `SessionSafety.dfy`, `ConnectionLaws.dfy` | what every step keeps; safety over all runs |
| `Chunking.dfy` | the parse loop against the frames in the octets; reads do not matter |
| `Wrapping.dfy` | the parse loop with its sum taken in 64 bits, and where it is the same loop |
| `Protocol.dfy` | the receiving rules of RFC 6455 stated on their own, and the client measured by them |
| `Fragments.dfy` | incremental validation of fragmented text against the whole text |
| `Delivery.dfy` | the frames of messages, and a connection that follows them |
| `Endings.dfy` | end-to-end delivery; any stream of frames, up to its first fault or Close |
| `Sending.dfy`, `Outgoing.dfy` | the sending direction end to end; when what is sent is legal for the server |
| `Writing.dfy` | the sending task over the TCP client: the two machines side by side |
| `WebSocket.dfy` | the connection object, field by field; each method is a step of `Session` |
| `Handshake.dfy` | reading up to the end of the upgrade, and the octets read too far |
| `Sha1Spec.dfy`, `Sha1Example.dfy` | FIPS 180-4; its rotations and functions by bits, and its example "abc" |
| `Sha1.dfy`, `Sha1Stream.dfy` | the unrolled transform; the streaming object |
| `Transfers.dfy`, `TcpClient.dfy` | transfers over an arbitrary socket; the client object |
| `Completion.dfy`, `Timers.dfy` | done events against stop requests; the timer pass |
| `Slist.dfy` | the linked list with its last-node pointer |
| `Base64.dfy` | the codecs, by round trip, by the alphabet and by numbers |
| `Uri.dfy`, `UriParts.dfy` | the URI parser and printer; what the parser makes of every text |

Objects of the source are classes whose methods update the same fields. Their contracts equate the
new state with a step of a pure state machine, and the theorems are about that state machine, so
they hold for the objects. The socket, the masking keys, the application's callbacks and the clock
are parameters: every theorem holds for all of their behaviours.

The socket takes octets of the queued frames in order. Once it has taken a frame in part only it
takes nothing more. That is a theorem about the sending task over the TCP client
(`Writing.WritesArePops`): every run of the two, in which frames are written one after the other with
a `send_all` each, is a run of the connection in which every completed write is a pop. What is taken
for granted there is that a stream that has ended takes nothing more and that no second connection
is made. The callbacks that the end of the sending task calls with false are pops for which the
socket takes nothing.

The application is a function from everything it has seen so far to a list of calls of `send` and
`close`, made from within the callback; it may also make such calls at any other time.

## What the proofs found

- **Stale validation offset.** `fragment_validate_offset` is neither cleared when a message ends nor
  set when the first fragment of a text is a dead end (lines 537-538 of `websocket.cpp`). The
  connection is then closing with 1007, but later frames are still processed and validated from an
  offset that belongs to an earlier message. `ConnectionLaws.StaleOffset` gives the frames,
  `ConnectionLaws.OffsetAfterTextStart` says exactly when the offset still points into the buffer,
  `Fragments.DeliveredIff` exactly when an invalid text is delivered after all, whether it begins
  while the connection is open or when the client has already begun to close, and
  `Fragments.InvalidDelivered` gives one of each kind. While the connection is open none of this can
  be seen (`ConnectionLaws.OffsetIsBoundary`).
- **The sum of header and payload length wraps** (line 435 of `websocket.cpp`). For an unmasked header
  that declares 2^64 - 1 octets line 441 takes whatever has arrived as the payload; for one that
  declares 2^64 - 10 line 443 drops nothing and the loop never ends. `Wrapping.WrappedFrames` gives
  both frames. One iteration is that of the unbounded sum exactly unless the sum wraps
  (`Wrapping.RoundIsLook`), it shortens the buffer exactly unless the header declares 2^64 - 10
  (`Wrapping.TakenShortens`), the whole loop is that of the model exactly if no such header is left
  in front (`Wrapping.LoopIsParse`, `Wrapping.WrapsStays`), and it goes on for ever exactly if it
  comes to the latter (`Wrapping.RunsForEver`). RFC 6455 section 5.2 forbids all these lengths
  (`Frames.SumWraps`).
- **A masked frame jams the parser.** It is answered with a Close frame but never dropped (lines 437
  to 440 of `websocket.cpp`), so the server's reply is never seen: nothing is delivered or queued any
  more, and the only notification there can be is 1006, when the stream ends
  (`Endings.ShutRun`, `Endings.MaskedStops`).
- **Limits that are not checked.** `close` accepts reasons of more than 123 octets and any status code,
  and `send` accepts texts that are not valid and pings and pongs of more than 125 octets
  (`Outgoing.LongReason`). All frames ever queued are legal for the server exactly if the accepted
  calls keep these limits (`Outgoing.LegalIffLimits`).
- **Surplus of the upgrade.** Octets read together with the end of the upgrade are parsed only after
  a further read. If that read finds the stream ended, whole frames among them are dropped
  (`Handshake.SurplusIsLost`, `Handshake.LostMessage`).
- **A stop requested too early is lost.** A stop request that comes before the coroutine is suspended
  finds no callback and changes nothing (`Completion.StopNeedsCallback`,
  `Completion.StopBeforeAwaitIsLost`).
- **A handle awaited too early is lost.** If a handle is awaited again while a stopped transfer of it
  waits in the queue, the queued job takes the new transfer off the executor, and its coroutine is
  never resumed (`Completion.AwaitedTooEarly`). It stays under way exactly if no such job is queued
  (`Completion.AwaitSurvives`), and if that is so each time, an awaited handle is always being
  transferred (`Completion.AwaitedIsActive`).
- **Timers run early, or wait.** A timer is run when less than 101 ms are missing, and none is looked
  at in a pass in which libcurl asks for a timeout of zero (`Timers.DueMeans`,
  `Timers.Schedule.Pass`).
- **A single slash.** `a:/b` is accepted without an authority and its path loses the slash, so the
  text of the result is not read back as it (`Uri.SingleSlash`). `Uri.RoundTrip` says for all URIs
  which are.
- **The 32-bit block index** of the hash does not reach the end of a piece if 2^32 octets or more are
  buffered and arriving: the loop on line 159 of `sha1.cpp` then never ends. It ends, and where it
  should, exactly if they are fewer (`Sha1Stream.LoopEnds`); the shortest piece that may be too long
  has 2^32 - 63 octets (`Sha1Stream.LongPiece`).

Where comments and code differ the model follows the code: the comment on line 152 of
`include/asyncpp/curl/util.h` speaks of 0xfeff where the code tests 0xfffe, the one on line 54 does
not say that an unfinished code point sets the position as well, and the comments on `schedule` in
`include/asyncpp/curl/executor.h` do not mention that functions run early.

## Model

| member | source | states |
|---|---|---|
| Utf8.NextOctet | include/asyncpp/curl/util.h:97-107 | one fall-through case: end of input, the early out-of-range cut-off, a bad continuation octet, or six more bits |
| Utf8.ReadOctets | include/asyncpp/curl/util.h:70-131 | the switch with its fall-through cases reads exactly the octets the lead octet announces, whichever case it enters at |
| Utf8.Check | include/asyncpp/curl/util.h:132-154 | the checks after a complete code point, in the three groups of modes |
| Utf8.Validate | include/asyncpp/curl/util.h:57-158 | the loop answers the specified result and position for every string and mode |
| Utf8Laws.BeyondCutOff | include/asyncpp/curl/util.h:99-102 | the cut-off on a truncated sequence is justified: whatever follows, the code point is refused or above 10FFFF |
| Utf8Laws.HeadExtends | include/asyncpp/curl/util.h:63-155 | a decision on the first code point is never revised by later octets |
| Utf8Laws.ScanComposes | include/asyncpp/curl/util.h:63-157 | a string that is not invalid is valid up to the reported position, and validating it with more behind it is resuming there; an invalid string stays invalid at the same place |
| Utf8Laws.ValidPrefix | include/asyncpp/curl/util.h:63-157 | a valid string followed by anything is judged by what follows |
| Utf8Laws.ResumeAt | src/curl/websocket.cpp:575-579 | resuming at the remembered position with more octets appended judges the whole string |
| Utf8Laws.TextIsValid | include/asyncpp/curl/util.h:57-158 | every sequence of admitted code points in an admitted form is valid (RFC 3629 section 3) |
| Utf8Laws.ValidIsText | include/asyncpp/curl/util.h:57-158 | every valid string is such a sequence, which is returned |
| Utf8Laws.ValidIffText | include/asyncpp/curl/util.h:57-158 | valid if and only if the string is a sequence of code points the mode admits, shortest form except in the normal mode |
| Utf8Laws.OctetsAre | include/asyncpp/curl/util.h:63-131 | the six forms of a code point, octet by octet (RFC 3629 section 3) |
| Utf8Laws.LongestValidPrefix | include/asyncpp/curl/util.h:48-64 | valid or not, the reported position is the end of the longest valid prefix |
| Utf8Laws.IncompleteIffBegins | include/asyncpp/curl/util.h:70-129 | incomplete if and only if behind that prefix there are some, but not all, octets of a code point the mode still waits for, which early range checks limit to 10FFFF |
| Bytes.BigEndianRoundTrip | src/curl/websocket.cpp:49-68 | a number that fits is read back from its big-endian octets |
| Bytes.FromBigEndianRoundTrip | src/curl/websocket.cpp:49-68 | octets read as a number and written again are the same octets |
| Bytes.BigEndianOctets | src/curl/websocket.cpp:60-68 | the two and the eight octets of a number, one by one |
| Bytes.XorInvolution | src/curl/websocket.cpp:651-653 | masking an octet twice gives it back |
| Bytes.XorIsExclusive | src/curl/websocket.cpp:651-653 | each bit is set if and only if exactly one of the two bits is |
| Frames.LookExtends | src/curl/websocket.cpp:423-436 | octets already buffered decide the header, the wanted size only grows, and it does not move while it is not reached |
| Frames.SumWraps | src/curl/websocket.cpp:427-436 | exactly which declared lengths make the 64-bit sum of header and payload length wrap: none that RFC 6455 section 5.2 allows and none of a frame a buffer can hold |
| Frames.ParseConserves | src/curl/websocket.cpp:423-444 | the frames in a buffer and the octets behind them are together the buffer, and what is left over is an unfinished or a masked frame; `Chunking.FeedIsParse` says that the loop takes exactly these |
| Frames.ParseResumes | src/curl/websocket.cpp:409-444 | the frames of a prefix and those of its rest with more behind it are the frames of everything; `Chunking.FeedResumes` says so of the connection |
| Frames.ParseIdle | src/curl/websocket.cpp:423-444 | the octets left over hold no further frame |
| Frames.ChunkingIndependence | src/curl/websocket.cpp:409-444 | any chunking of a stream has the same frames, the same rest and the same stop at a masked frame as one read; `Chunking.ReadsDoNotMatter` says so of the connection |
| Chunking.TakenAlike | src/curl/websocket.cpp:448-581 | frames are handled without regard to the parser's buffer and its cached size |
| Chunking.CacheIsOnlyACache | src/curl/websocket.cpp:428-436 | the cached size decides when the buffer is looked at, never what comes of it |
| Chunking.FeedIsParse | src/curl/websocket.cpp:423-444 | where the 64-bit sum does not wrap, which is the condition `Wrapping.LoopIsParse` shows to be exact: the loop takes exactly the frames the buffer holds, in order, leaves exactly the octets behind them, and closes if a masked frame is in front of these |
| Chunking.FeedResumes | src/curl/websocket.cpp:409-444 | where no header left over wraps (`Wrapping.LoopIsParse`, `Wrapping.WrapsStays`): parsing what is there and going on when more has arrived leaves the whole connection as if all had arrived at once, legal or not |
| Chunking.ReadsDoNotMatter | src/curl/websocket.cpp:402-446 | where the octets of all the reads leave no header over that wraps (`Wrapping.LoopIsParse`, and by `Wrapping.WrapsStays` none of the reads does then): at any point of any run, any octets and any way of cutting them into reads: phase, log, queue, reassembly, octets left over and all that follows are those of one read |
| Wrapping.Iterate | src/curl/websocket.cpp:424-443 | one iteration with the cached size and the sum in 64 bits: wait, refuse, or take a payload cut at the end of the buffer and drop the sum |
| Wrapping.RoundIsLook | src/curl/websocket.cpp:424-443 | for every buffer, one iteration is that of the unbounded sum if and only if the sum does not wrap |
| Wrapping.TakenShortens | src/curl/websocket.cpp:441-443 | a taken frame shortens the buffer if and only if it is not an unmasked header that declares 2^64 - 10 octets |
| Wrapping.LoopIsParse | src/curl/websocket.cpp:423-444 | for every buffer, the loop ends with the frames, the rest and the refusal of the model if and only if the header left over does not wrap |
| Wrapping.WrapsStays | src/curl/websocket.cpp:409-444 | a header that wraps stays in front whatever arrives later, so the condition on the whole stream covers every read of it |
| Wrapping.RunsForEver | src/curl/websocket.cpp:423-444 | the loop does not end if and only if the frames it takes lead to a header of which it drops nothing |
| Wrapping.WrappedFrames | src/curl/websocket.cpp:435-443 | the frames that declare 2^64 - 1 and 2^64 - 10 octets, with anything behind them: what is taken as payload, what is dropped, and that the loop never ends on the latter |
| Frames.ServerFrameInFront | src/curl/websocket.cpp:424-441 | an unmasked frame, its length in any form that holds it, is recognised as exactly that frame in front of any octets (RFC 6455 section 5.2) |
| Frames.MaskInvolution | src/curl/websocket.cpp:648-653 | unmasking with the same key restores the payload (RFC 6455 section 5.3) |
| Frames.SerialisedInFront | src/curl/websocket.cpp:627-653 | a serialised frame in front of any octets reads back as opcode, payload and key |
| Frames.SerialiserRoundTrip | src/curl/websocket.cpp:627-654 | the concatenated images of any sequence of frames decode to that sequence and nothing else |
| Frames.SerialiserInjective | src/curl/websocket.cpp:627-654 | different sequences of frames never share an image |
| Frames.ShortestForm | src/curl/websocket.cpp:629-645 | no octets that read back as the frame are fewer than the ones emitted |
| FrameOctets.LengthIs | src/curl/websocket.cpp:629-645 | the length octets of either direction in literal octets (RFC 6455 section 5.2) |
| FrameOctets.Image | src/curl/websocket.cpp:627-654 | the image of every frame: opcode, length octets, key, and each payload bit exclusive or with that of the key octet in turn |
| FrameOctets.HelloImage | src/curl/websocket.cpp:627-654 | the masked text frame "Hello" of RFC 6455 section 5.7, octet for octet |
| FrameOctets.WhatIsSent | include/asyncpp/curl/websocket.h:95-101 | text, binary, ping and pong are queued with first octets 81, 82, 89 and 8A |
| FrameOctets.WhatIsRefused | src/curl/websocket.cpp:236-242 | on a connection that is not open a message is refused with its callback told at once; once closing, another close has no effect |
| FrameOctets.WhatIsClosed | src/curl/websocket.cpp:594-611 | closing an open connection queues first octet 88 with the two octets of the code and the reason, if the reason is valid text |
| FrameOctets.WhatIsLost | src/curl/websocket.cpp:382-386 | the end of the stream closes, with 1006 and "Connection lost" |
| FrameOctets.TextRead | src/curl/websocket.cpp:409-543 | reading 81, length and payload on an open connection shows exactly that text, or is answered with 1007 if it is not valid |
| FrameOctets.BinaryRead | src/curl/websocket.cpp:409-557 | reading 82 shows exactly that binary message |
| FrameOctets.PingRead | src/curl/websocket.cpp:512-519 | reading 89 shows the ping or queues 8A with its payload; beyond 125 octets it is refused |
| FrameOctets.PongRead | src/curl/websocket.cpp:521-525 | reading 8A shows the pong; beyond 125 octets it is refused |
| FrameOctets.CloseRead | src/curl/websocket.cpp:483-510 | reading 88 is answered with first octet 88 and its payload, 1000 if empty, 1002 or 1007 if malformed, and closes; 08 is answered with 1002 |
| FrameOctets.OthersRead | src/curl/websocket.cpp:448-481 | every other first octet, reserved opcodes and bits included, is answered with 1002 and "Protocol error" |
| FrameOctets.TwoTexts | src/curl/websocket.cpp:527-581 | 01 and 80: a text cut in two is shown as a whole, or answered with 1007, by the first part already if that is a dead end |
| FrameOctets.TwoBinaries | src/curl/websocket.cpp:545-572 | 02 and 80: so is a binary message |
| SessionSafety.DoCloseKeeps | src/curl/websocket.cpp:594-611 | closing keeps the order of the handshake and the single notification, leaves the open phase and never goes back |
| SessionSafety.AnswerKeeps | src/curl/websocket.cpp:594-610 | answering the server's Close from the open phase queues the only Close frame, the only notification, and ends closed |
| SessionSafety.ActKeeps | src/curl/websocket.cpp:197-201 | a call of the application at any moment keeps the invariant |
| SessionSafety.HandleCloseKeeps | src/curl/websocket.cpp:483-510 | any Close frame ends in the closed phase with one notification in all |
| SessionSafety.HandleTextKeeps | src/curl/websocket.cpp:527-543 | any text frame keeps the invariant, the tie between buffer and offset included |
| SessionSafety.HandleContinuationKeeps | src/curl/websocket.cpp:559-581 | so does any continuation frame |
| SessionSafety.ResumedScan | src/curl/websocket.cpp:573-579 | validation resumed at the offset judges the whole accumulated text |
| SessionSafety.HandleFrameKeeps | src/curl/websocket.cpp:448-481 | every frame keeps the invariant and never goes back a phase |
| SessionSafety.FeedKeeps | src/curl/websocket.cpp:402-446 | so does the parse loop with the callbacks it triggers |
| SessionSafety.StepKeeps | src/curl/websocket.cpp:382-446 | so does every entry point: data, disconnect, application call, queue pop |
| SessionSafety.RunKeeps | src/curl/websocket.cpp:361-656 | so does every run |
| ConnectionLaws.CloseHandshakeSafety | src/curl/websocket.cpp:483-617 | over every run from open: phases only advance, the server-close phase is never seen between steps, at most one Close frame is queued, none while open, and nothing but automatic pongs behind it (RFC 6455 section 5.5.1) |
| ConnectionLaws.NotifiedExactlyOnce | src/curl/websocket.cpp:382-386 | over every run: close notifications given plus those waiting in the queue are one if the connection is closed and the callback is set, otherwise none |
| ConnectionLaws.OffsetIsBoundary | src/curl/websocket.cpp:527-581 | over every run, while open: the offset is a code point boundary of a valid prefix and the text so far is judged by what is behind it |
| ConnectionLaws.FeedClosed | src/curl/websocket.cpp:448-450 | on a closed connection any octets are parsed without showing or queueing anything |
| ConnectionLaws.ClosedStepIsSilent | src/curl/websocket.cpp:448-450 | no step of a closed connection delivers a message, ping or pong or queues a frame |
| ConnectionLaws.SilentOnceClosed | src/curl/websocket.cpp:382-450 | nor does any run of one |
| ConnectionLaws.NothingBehindClose | src/curl/websocket.cpp:382-510 | in no run is a message, ping or pong delivered behind a close notification, not even one from the same read |
| ConnectionLaws.OffsetAfterTextStart | src/curl/websocket.cpp:527-538 | after a first text fragment the offset points into the buffer if and only if the fragment is no dead end or the old offset is small enough |
| ConnectionLaws.StaleOffset | src/curl/websocket.cpp:527-543 | three frames after which it does not |
| Protocol.LegalTaken | src/curl/websocket.cpp:448-581 | a frame that RFC 6455 sections 5.2, 5.4, 5.5, 7.4 and 8.1 allow shows exactly its message, ping or pong, advances the reassembly, and queues nothing but a pong for an unhandled ping |
| Protocol.IllegalAnswered | src/curl/websocket.cpp:448-581 | any other frame shows nothing and is answered by exactly one Close frame, 1007 for bad text and 1002 otherwise |
| Protocol.IllegalIgnored | src/curl/websocket.cpp:448-611 | once the client has begun to close, an illegal frame other than Close is neither shown nor answered |
| Protocol.CloseEchoed | src/curl/websocket.cpp:483-509 | a legal Close is answered octet for octet, with 1000 if it is empty, and the notification carries its code and reason |
| Protocol.ReplyEnds | src/curl/websocket.cpp:483-495 | the reply to the client's Close closes the connection, well-formed or not, and is notified with exactly the code and reason it spells |
| Protocol.StaysOpenIffLegal | src/curl/websocket.cpp:448-581 | the connection stays open if and only if the frame is legal and no Close |
| Fragments.PartsGathered | src/curl/websocket.cpp:559-581 | the state after any number of fragments of a text, by induction over them |
| Fragments.DeadEndClosesAtOnce | src/curl/websocket.cpp:573-579 | the Close frame with 1007 is queued with the first fragment that makes the text so far a dead end, not before |
| Fragments.FragmentedText | src/curl/websocket.cpp:559-581 | a text in fragments leaves the connection open exactly if the whole is valid, otherwise one Close with 1007 is queued |
| Fragments.DeliveredIff | src/curl/websocket.cpp:527-581 | begun on an open connection or after the client has begun to close, it is delivered if and only if the concatenation is valid, or its first fragment is a dead end and all behind the offset left by an earlier message is valid; the latter texts are invalid |
| Fragments.InvalidDelivered | src/curl/websocket.cpp:527-572 | an invalid text of two fragments that is delivered behind a valid one, from the open phase and from the closing phase |
| Delivery.ItemsThrough | src/curl/websocket.cpp:448-581 | the frames of any messages, however fragmented and mixed with pings and pongs, are legal and amount to those messages |
| Delivery.FeedFollows | src/curl/websocket.cpp:409-444 | one read takes the frames it completes and leaves parser and stream aligned |
| Delivery.RunFollows | src/curl/websocket.cpp:382-446 | so does a whole run with application calls and queue pops in between |
| Endings.EndToEnd | src/curl/websocket.cpp:402-581 | for all messages, fragmentations, interleaved pings and pongs, length forms, read chunkings and application behaviours: exactly the messages are delivered in order, each unhandled ping queues one pong with its payload, and parser and reassembly end idle |
| Endings.SplitRun | src/curl/websocket.cpp:402-446 | a run can be cut at any octet it reads, within a read as well |
| Endings.HandledFault | src/curl/websocket.cpp:448-611 | the first illegal frame or Close that is not masked, while open or closing: nothing is delivered, a Close frame is queued by then, the connection is no longer open |
| Endings.FaultEnds | src/curl/websocket.cpp:402-611 | a stream with a fault, in any reads and with any application: when the fault has been read, exactly what the frames before it are to show has been delivered and exactly one Close frame queued; later this stays in front, and nothing at all is shown behind a Close or a masked frame |
| Endings.AnyFrames | src/curl/websocket.cpp:402-611 | any frames at all, masked or not, have a longest legal prefix without Close; what it is to show is delivered first, and one Close frame follows unless it is the whole stream |
| Endings.ShutRun | src/curl/websocket.cpp:437-440 | behind a masked frame, in any run: nothing is delivered or queued any more, and the connection closes if and only if the stream ends, with 1006 as the only notification |
| Endings.MaskedStops | src/curl/websocket.cpp:402-446 | a stream whose first fault is a masked frame, and any run after it: exactly what precedes the fault is shown, one Close frame is queued in all, the reply is never seen, and one notification of 1006 is given if and only if the stream ends and the callback is set |
| Frames.CutStream | src/curl/websocket.cpp:627-654 | octets that stop within a frame read back as the frames before it, and the piece is left over |
| Sending.HandleFrameAdds | src/curl/websocket.cpp:448-581 | no received frame changes or removes anything queued, reported or written before |
| Sending.PopKeepsWire | src/curl/websocket.cpp:364-377 | a frame leaves the queue in full, in part, or, behind one cut short, not at all, and its callback is called accordingly |
| Sending.RunGrows | src/curl/websocket.cpp:361-656 | over every run the octets on the wire are the images of the frames taken in full, then a proper part of the next one if it was cut short, and the callbacks are those of the frames gone |
| Sending.ServerReads | src/curl/websocket.cpp:364-371 | from the octets the socket has taken a server reads exactly the frames taken in full |
| Sending.ReadAndAnswered | src/curl/websocket.cpp:361-379 | over every run: the server reads the first frames ever queued, in order; the callbacks of the frames that have left have been called once each, in order, with true exactly for those the server reads |
| Sending.FirstInFirstOut | src/curl/websocket.cpp:361-379 | what a server has read at one time is a prefix of what it has read later and of what was queued |
| Sending.SentArrives | src/curl/websocket.cpp:236-242 | a message sent on an open connection, whatever happens afterwards: its callback has been called once if its frame has left the queue and is pending otherwise, with true if and only if the server reads the message, at the place where it was queued |
| Outgoing.HandleFrameLegal | src/curl/websocket.cpp:448-617 | whatever arrives, the client by itself queues at most one frame, and that one is legal |
| Outgoing.LegalIffLimits | src/curl/websocket.cpp:197-242 | over every run: all frames ever queued are legal for the server if and only if all accepted calls of the application keep the limits on text, size and status code |
| Outgoing.LongReason | src/curl/websocket.cpp:197-201 | a reason of 124 octets is accepted, and its Close frame is not legal |
| Writing.NextKeeps | src/curl/websocket.cpp:361-371 | every step of the sending task and the TCP client keeps them joined, and is no step or one step of the connection |
| Writing.WritesArePops | src/curl/websocket.cpp:361-371 | every run of the sending task over the TCP client is a run of the connection; the octets the socket has taken are those on the wire and what the write under way has moved; the writes carry the images of the frames in order; and the callbacks are called with whether the write moved everything |
| Writing.StreamIsRead | src/curl/websocket.cpp:361-371 | from all the octets the socket has taken a server reads exactly the frames moved to the last octet, the one being written among them |
| WebSocket.GetBe | src/curl/websocket.cpp:49-59 | reads the big-endian number |
| WebSocket.SetBe | src/curl/websocket.cpp:60-68 | writes the big-endian octets and leaves the others alone |
| WebSocket.WriteHeader | src/curl/websocket.cpp:636-646 | opcode, length in the chosen form, mask bit |
| WebSocket.MaskInPlace | src/curl/websocket.cpp:651-653 | the in-place loop masks the payload and leaves the header alone |
| WebSocket.BuildFrame | src/curl/websocket.cpp:627-653 | the buffer ends up as the serialised frame |
| WebSocket.Inspect | src/curl/websocket.cpp:424-436 | for a header whose sum fits 64 bits (`Wrapping.RoundIsLook` shows this to be exact, `Wrapping.Iterate` has the other case): header arithmetic with the cached size finds what the buffer holds |
| WebSocket.WebSocketState.constructor | src/curl/websocket.cpp:106-134 | the fields of a connection that has just opened |
| WebSocket.WebSocketState.SendFrame | src/curl/websocket.cpp:613-656 | queues one frame with its callback; the first Close starts the closing phase |
| WebSocket.WebSocketState.Close | src/curl/websocket.cpp:594-611 | the whole new state of a close in every phase |
| WebSocket.WebSocketState.Send | src/curl/websocket.cpp:236-242 | refused with a false callback unless open, queued otherwise |
| WebSocket.WebSocketState.UserClose | src/curl/websocket.cpp:197-201 | ignored if the reason is not valid text |
| WebSocket.WebSocketState.Call | src/curl/websocket.cpp:515-516 | a callback is run and the application's calls from within it take effect |
| WebSocket.WebSocketState.HandleCloseFrame | src/curl/websocket.cpp:483-510 | the step for a Close frame, with the notification before the phase change |
| WebSocket.WebSocketState.HandlePingFrame | src/curl/websocket.cpp:512-519 | the step for a ping |
| WebSocket.WebSocketState.HandlePongFrame | src/curl/websocket.cpp:521-525 | the step for a pong |
| WebSocket.WebSocketState.HandleTextFrame | src/curl/websocket.cpp:527-543 | the step for a text frame |
| WebSocket.WebSocketState.HandleBinaryFrame | src/curl/websocket.cpp:545-557 | the step for a binary frame |
| WebSocket.WebSocketState.HandleContinuationFrame | src/curl/websocket.cpp:559-581 | the step for a continuation frame |
| WebSocket.WebSocketState.HandleFrame | src/curl/websocket.cpp:448-481 | the dispatch and its refusals |
| WebSocket.WebSocketState.RawOnDisconnect | src/curl/websocket.cpp:382-386 | closed, with 1006 if nothing else has been or will be notified |
| WebSocket.WebSocketState.RawOnDataAvailable | src/curl/websocket.cpp:402-446 | where the 64-bit sum does not wrap (`Wrapping.LoopIsParse`; `Wrapping.RunsForEver` says when the source does not terminate): the data event is the step of the state machine; the loop terminates; afterwards fewer octets are buffered than the cached size asks for, and it is exactly what the pending frame is known to need, unless a masked frame stopped the parser |
| WebSocket.WebSocketState.TakeNext | src/curl/websocket.cpp:441-443 | the frame in front is handled and its octets are dropped |
| WebSocket.WebSocketState.PopSent | src/curl/websocket.cpp:364-371 | the head of the queue leaves it, the octets the socket took are on the wire, and its callback is told whether these were all |
| WebSocket.WebSocketState.Begin | src/curl/websocket.cpp:352-358 | the surplus of the upgrade becomes the parser's buffer and the data event is raised by hand |
| WebSocket.ClosingActsAlike | src/curl/websocket.cpp:491-495 | calls from within the last notification have the same effect before and after the phase change |
| Handshake.FindStays | src/curl/websocket.cpp:34-38 | later octets do not move the first delimiter |
| Handshake.ReadUntil | src/curl/websocket.cpp:27-45 | finds the first delimiter of the stream however it is received; header, delimiter and surplus are what was received |
| Handshake.SplitIsStable | src/curl/websocket.cpp:352-358 | header and frames are told apart at the same place for every chunking |
| Handshake.SurplusIsFirstRead | src/curl/websocket.cpp:354-356 | if the stream goes on, the connection is from then on as if the surplus had been the first read |
| Handshake.SurplusIsLost | src/curl/websocket.cpp:354-356 | if it has ended, the surplus is never parsed and nothing in it is ever delivered |
| Handshake.LostMessage | src/curl/websocket.cpp:354-356 | a whole message that is lost like that, and would have been delivered had the stream gone on |
| Sha1Spec.PadIsWhole | src/curl/sha1.cpp:173-179 | the padded message is a whole number of blocks (FIPS 180-4 section 5.1.1) |
| Sha1Spec.FoldAppend | src/curl/sha1.cpp:155-163 | whole blocks may be compressed first and the rest later |
| Sha1Spec.WordOctetsReadBack | src/curl/sha1.cpp:180-182 | the octets of a digest word determine it |
| Sha1Example.RotationsMoveBits | src/curl/sha1.cpp:4-4 | each of the three rotations takes bit i to bit i + n modulo 32 |
| Sha1Example.FunctionsOfBits | src/curl/sha1.cpp:16-30 | Ch, Parity and Maj are a choice, an odd number and a majority of each bit (FIPS 180-4 section 4.1.1) |
| Sha1Example.DigestOfAbc | src/curl/sha1.cpp:33-183 | the digest of "abc" in twenty literal octets, by its 80 schedule words and 80 rounds |
| Sha1.SwapOctets | src/curl/sha1.cpp:7-7 | the two rotations and masks turn the little-endian word into the big-endian one |
| Sha1.ChooseForm | src/curl/sha1.cpp:16-21 | the rewritten choice function is Ch (FIPS 180-4 section 4.1.1) |
| Sha1.MajorityForm | src/curl/sha1.cpp:25-27 | the rewritten majority function is Maj |
| Sha1.SlotMoves | src/curl/sha1.cpp:13-13 | overwriting one slot moves the sixteen-word window of the schedule on by one |
| Sha1.SlotsRead | src/curl/sha1.cpp:13-13 | the four slots read are the words 3, 8, 14 and 16 back |
| Sha1.Blk0 | src/curl/sha1.cpp:7-7 | the first sixteen schedule words, swapped in place |
| Sha1.Blk | src/curl/sha1.cpp:13-13 | the later schedule words, computed in place |
| Sha1.R0 | src/curl/sha1.cpp:16-18 | one round of rounds 0 to 15 with renamed registers |
| Sha1.R1 | src/curl/sha1.cpp:19-21 | one round of rounds 16 to 19 |
| Sha1.R2 | src/curl/sha1.cpp:22-24 | one round of rounds 20 to 39 |
| Sha1.R3 | src/curl/sha1.cpp:25-27 | one round of rounds 40 to 59 |
| Sha1.R4 | src/curl/sha1.cpp:28-30 | one round of rounds 60 to 79 |
| Sha1.Rounds0 | src/curl/sha1.cpp:49-68 | the unrolled rounds 0 to 19 are those of the standard |
| Sha1.Rounds20 | src/curl/sha1.cpp:69-88 | the unrolled rounds 20 to 39 |
| Sha1.Rounds40 | src/curl/sha1.cpp:89-108 | the unrolled rounds 40 to 59 |
| Sha1.Rounds60 | src/curl/sha1.cpp:109-128 | the unrolled rounds 60 to 79 |
| Sha1.Transform | src/curl/sha1.cpp:33-135 | the transform is the compression of FIPS 180-4 section 6.1.2 with its 80-word schedule |
| Sha1Stream.CountIsBits | src/curl/sha1.cpp:151-153 | the two-word counter with its hand-written carry is eight times the octets modulo 2^64 |
| Sha1Stream.CountOctetsAreLength | src/curl/sha1.cpp:170-172 | the octets taken from the two words are the big-endian 64-bit length |
| Sha1Stream.IndexFitsExactly | src/curl/sha1.cpp:150-161 | the loop's 32-bit arithmetic agrees with the intended one at every index if and only if fewer than 2^32 octets are buffered and arriving |
| Sha1Stream.LoopEnds | src/curl/sha1.cpp:155-161 | the loop ends, after the rounds and at the index it should, if and only if fewer than 2^32 octets are buffered and arriving; otherwise it never does |
| Sha1Stream.LongPiece | src/curl/sha1.cpp:159-161 | with 63 octets buffered the loop never ends on a piece of 2^32 - 63 octets; on every shorter one it ends |
| Sha1Stream.Hash.constructor | src/curl/sha1.cpp:139-146 | the initial hash value and an empty message |
| Sha1Stream.Hash.AbsorbBlocks | src/curl/sha1.cpp:159-161 | the loop over whole blocks |
| Sha1Stream.Hash.Drain | src/curl/sha1.cpp:155-161 | the buffered block is completed and all whole blocks are absorbed |
| Sha1Stream.Hash.Update | src/curl/sha1.cpp:148-165 | for every piece on which the loop ends (`Sha1Stream.LoopEnds`): counter, chaining value and buffer afterwards belong to the message with the piece appended |
| Sha1Stream.Hash.PadWithZeros | src/curl/sha1.cpp:175-178 | the padding loop terminates with the least number of zeros |
| Sha1Stream.Hash.Finish | src/curl/sha1.cpp:167-183 | the digest of everything taken, as FIPS 180-4 defines it |
| Sha1Stream.HashPieces | src/curl/sha1.cpp:148-183 | every way of cutting a message into pieces on which the loop ends gives the digest of the whole |
| Sha1Stream.HashOf | include/asyncpp/curl/sha1.h:19-26 | the one-shot helper gives that digest whenever its loop ends |
| Transfers.StepPlaces | src/curl/tcp_client.cpp:49-220 | a step neither loses nor duplicates a callback; only an accepted start adds one |
| Transfers.StepKeeps | src/curl/tcp_client.cpp:88-220 | every step keeps: handlers and queued completions are faithful to the traffic, streams are conserved, each callback has one place |
| Transfers.RunKeeps | src/curl/tcp_client.cpp:88-220 | so does every run |
| Transfers.StreamsConserved | src/curl/tcp_client.cpp:103-220 | in every run the octets through the socket are, without gap, repetition or reordering, what the transfers moved one after the other; every transfer, over or not, moved what the socket moved for it, and every write a prefix of its buffer |
| Transfers.DoneCause | src/curl/tcp_client.cpp:88-220 | every completion has a cause in the run: an attempt answered for that transfer, with an empty result if the stream ended, a disconnect that took it out of its handler, or a start without a connection |
| Transfers.CompletedOnce | src/curl/tcp_client.cpp:88-220 | a callback that was called is called once, with exactly what the socket moved for it; a transfer of everything is short only if its cause is the end of the stream, a disconnect, or that there was no connection |
| Transfers.ShortWriteIsLast | src/curl/tcp_client.cpp:132-162 | a write of everything that falls short is the last to move anything, unless the stream opens again or a new connection is made |
| Transfers.OverIffEnough | src/curl/tcp_client.cpp:103-220 | a started or ready transfer leaves its handler, with its completion behind the queue, if and only if the answer ends it: any answer without `all`, the end of the stream or the last octet with it |
| Transfers.RunPlainWaits | src/curl/tcp_client.cpp:110-128 | over every run: a transfer without `all` that still waits has moved nothing |
| Transfers.DisconnectsReported | src/curl/tcp_client.cpp:88-101 | the callbacks of disconnects, called and waiting, are those asked for, in order |
| Transfers.NeverLost | src/curl/tcp_client.cpp:88-220 | an accepted transfer stays in a handler, in the queue, or among the completions called |
| TcpClient.Client.StartSend | src/curl/tcp_client.cpp:103-162 | `send` and `send_all` up to the inline attempt and the installed handler: which calls queue their callback at once, with which count, and which install a handler with which progress |
| TcpClient.Client.OnWritable | src/curl/tcp_client.cpp:49-56 | the write callback runs the handler, which keeps its progress, and is cleared with its callback queued exactly when the answer ends the transfer |
| TcpClient.Client.Fill | src/curl/tcp_client.cpp:209-211 | what arrives is placed behind what is there, the rest of the buffer is left alone |
| TcpClient.Client.StartRecv | src/curl/tcp_client.cpp:164-220 | `recv` and `recv_all` up to the inline attempt and the installed handler, which writes to the caller's buffer; an inline completion has filled its front with what the socket gave; which calls queue their callback at once and with which count |
| TcpClient.Client.OnReadable | src/curl/tcp_client.cpp:57-64 | the read callback puts what arrives behind what is there and leaves the rest of the caller's buffer alone, so its front is what the socket gave for this transfer, also when the handler is cleared, which is exactly when the answer ends the transfer |
| TcpClient.Client.Disconnect | src/curl/tcp_client.cpp:88-101 | both handlers are taken out and queued for cancellation, with the callback of the disconnect behind them |
| TcpClient.Client.RunOne | src/curl/tcp_client.cpp:96-100 | the queue's next job: a completion is called; cancelled handlers push theirs with their progress and the callback of the disconnect is called |
| Completion.StepCodes | src/curl/executor.cpp:29-44 | a step adds to what a callback has been or will be called with exactly what the event decides |
| Completion.StepKeeps | src/curl/executor.cpp:123-144 | a callback is in one handle, in the queue, or called, never in two of these |
| Completion.ResumedAtMostOnce | src/curl/executor.cpp:123-144 | over every interleaving a coroutine is resumed at most once |
| Completion.FirstEventWins | src/curl/executor.cpp:29-44 | what the first done event or stop request decided is what it is resumed with |
| Completion.StopDecides | src/curl/executor.cpp:131-144 | a stop request on an awaited transfer decides the abort code |
| Completion.StopNeedsCallback | src/curl/executor.cpp:131-134 | a stop request changes something if and only if a callback is installed |
| Completion.StopBeforeAwaitIsLost | src/curl/executor.cpp:131-134 | one made before the coroutine is suspended has no effect |
| Completion.AwaitedIsActive | src/curl/executor.cpp:123-144 | if no handle is awaited while a stopped transfer of it is queued, every awaited handle is being transferred, and once the queue is empty exactly the awaited ones are |
| Completion.AwaitSurvives | src/curl/executor.cpp:123-144 | a handle awaited at any moment is still being transferred, once the jobs queued then have run, if and only if no stopped transfer of it was among them |
| Completion.AwaitedTooEarly | src/curl/executor.cpp:131-144 | awaited, stopped, awaited again: the queued job takes off the new transfer, whose callback stays installed |
| Completion.Executor.AwaitSuspend | src/curl/executor.cpp:123-129 | installs the callback and adds the handle |
| Completion.Executor.HandleEvents | src/curl/executor.cpp:29-36 | the loop over finished transfers is a run of done events |
| Completion.Executor.StopRequested | src/curl/executor.cpp:131-144 | the stop callback is the stop event |
| Completion.Executor.DrainQueue | src/curl/executor.cpp:38-45 | the queue is emptied and every decided callback has been called |
| Timers.DueMeans | src/curl/executor.cpp:55-56 | run means less than 101 ms missing, because whole milliseconds are compared |
| Timers.MillisMeans | src/curl/executor.cpp:55-55 | differences of times are cut to whole milliseconds towards zero |
| Timers.DueSplits | src/curl/executor.cpp:53-66 | an ordered schedule splits into what is due and what is not at one point |
| Timers.Schedule.Add | src/curl/executor.cpp:161-170 | one timer more, order kept, behind those for the same time |
| Timers.Schedule.Pass | src/curl/executor.cpp:46-67 | exactly the due timers are removed and run, in time order, ties first in first out; the others stay, and the timeout is at most the wait for the earliest of them |
| Slist.List.Take | include/asyncpp/curl/slist.h:49-53 | takes over a chain and finds its last node |
| Slist.List.Move | include/asyncpp/curl/slist.h:57-60 | takes the nodes of the other list, which is empty afterwards |
| Slist.List.MoveAssign | include/asyncpp/curl/slist.h:61-65 | exchanges the two lists |
| Slist.List.Prepend | src/curl/slist.cpp:45-53 | the new string is first, the last node stays right |
| Slist.List.InsertAfter | src/curl/slist.cpp:55-69 | the new string is behind the position, at the end for the end iterator |
| Slist.List.Append | include/asyncpp/curl/slist.h:68-68 | the new string is last |
| Slist.List.Index | include/asyncpp/curl/slist.h:70-75 | the node at the index, the end behind the last |
| Slist.List.Insert | include/asyncpp/curl/slist.h:76-79 | insertion at the index, at the end if it is too large |
| Slist.List.Remove | src/curl/slist.cpp:71-95 | removal at the index, nothing if there is none |
| Slist.List.RemoveNode | src/curl/slist.cpp:97-114 | removal at an iterator, of the last for the end; a node of no list changes nothing |
| Slist.List.Clear | src/curl/slist.cpp:116-120 | empty afterwards |
| Slist.List.Walk | include/asyncpp/curl/slist.h:22-27 | the iterator visits the strings in order |
| Slist.Perform | include/asyncpp/curl/slist.h:68-83 | every operation acts as its sequence operation and keeps the list acyclic with the right last node |
| Slist.Replay | include/asyncpp/curl/slist.h:68-83 | so does every mix of operations |
| Base64.EncodedLength | src/curl/base64.cpp:10-10 | the length computed beforehand is that of the encoding |
| Base64.EncodedShape | src/curl/base64.cpp:27-37 | letters of the alphabet, then as many padding characters as octets are missing |
| Base64.RoundTrip | src/curl/base64.cpp:7-73 | decoding undoes encoding for every octet string (RFC 4648 section 4) |
| Base64.EncodedInjective | src/curl/base64.cpp:7-40 | different strings have different encodings |
| Base64.LetterAt | src/curl/base64.cpp:8-8 | the letters are those of RFC 4648 table 1 at their places |
| Base64.SextetAt | src/curl/base64.cpp:43-49 | for every character the entry of the decoder's table |
| Base64.GroupNumber | src/curl/base64.cpp:19-37 | the letters of a group, read as a number to base 64 by their places, are the big-endian number of its octets; one or two octets have four or two zero bits behind |
| Base64.GroupAt | src/curl/base64.cpp:18-37 | the groups are in the order of the octets, what is left over at the end |
| Base64.UngroupNumber | src/curl/base64.cpp:57-63 | any four characters are decoded to the octets of the number their table entries make |
| Base64.UngroupAt | src/curl/base64.cpp:57-63 | in their order |
| Base64.PaddingIsOptional | src/curl/base64.cpp:52-72 | the padding may be left out |
| Base64.Examples | src/curl/base64.cpp:7-73 | "f", "fo" and "foo" of RFC 4648 section 10 |
| Base64.UrlLetterAt | src/curl/base64.cpp:75-95 | the letters of the URL form are those of RFC 4648 table 2 at their places, and are decoded to these |
| Base64.UrlShape | src/curl/base64.cpp:75-86 | the URL form is the encoding without padding, free of plus, slash and equals sign (RFC 4648 section 5) |
| Base64.UrlRoundTrip | src/curl/base64.cpp:75-98 | the padding cut off is restored from the length, and decoding undoes encoding |
| Base64.Encode | src/curl/base64.cpp:7-40 | the loop through the output pointer fills the string exactly |
| Base64.Decode | src/curl/base64.cpp:42-73 | the loop over groups and the incomplete group |
| Base64.Rewrite | src/curl/base64.cpp:77-82 | the in-place rewriting of characters |
| Base64.UrlEncode | src/curl/base64.cpp:75-86 | the URL encoding |
| Base64.UrlDecode | src/curl/base64.cpp:88-98 | the URL decoding of a string of any length |
| Uri.StoiOfDecimal | src/curl/uri.cpp:35-40 | a printed port is read back |
| Uri.RoundTrip | src/curl/uri.cpp:7-81 | a URI is read back from its text, field by field, if and only if the condition `ReadsBack` on its fields holds |
| Uri.WellFormedRoundTrip | src/curl/uri.cpp:7-81 | so every well-formed URI is (RFC 3986 section 3) |
| Uri.ToTextInjective | src/curl/uri.cpp:71-81 | different URIs that are read back have different texts |
| Uri.SingleSlash | src/curl/uri.cpp:9-15 | a single slash is accepted and lost, and the text of the result is not read back as it |
| UriParts.WholeText | src/curl/uri.cpp:9-57 | every text from its parts: refused without ":/" or with nothing behind it, a path behind one slash, an authority behind two, whose refusal or exception is that of the whole |
| UriParts.Authority | src/curl/uri.cpp:21-25 | what is in front of the first "@" is the authentication |
| UriParts.Bracketed | src/curl/uri.cpp:26-35 | a bracketed host is refused if it is not closed; a colon behind it is followed by the port, anything else is ignored |
| UriParts.Unbracketed | src/curl/uri.cpp:36-43 | in any other host the port is behind the last colon |
| UriParts.Rest | src/curl/uri.cpp:46-57 | path, query and fragment, each of which may be empty |
| UriParts.NumberOf | src/curl/uri.cpp:34-39 | a port is read with white space and a sign in front and anything behind, and must fit 32 bits |
| UriParts.NoNumber | src/curl/uri.cpp:34-39 | without a digit where one has to be there is the exception |
| UriParts.PortPrinted | src/curl/uri.cpp:76-76 | every port but -1 is printed behind a colon and read back as itself |
| Uri.UriObject.SetPort | include/asyncpp/curl/uri.h:42-42 | the port is clamped to -1 and 65535 |
| Uri.UriObject.ReadAuthority | src/curl/uri.cpp:21-44 | authentication, bracketed or plain host and port, with the refusal and the exception |
| Uri.UriObject.ReadRest | src/curl/uri.cpp:46-57 | path, query and fragment |
| Uri.UriObject.ParseInto | src/curl/uri.cpp:7-59 | the narrowing parser sets the fields the parse specifies, and fails where it does |
| Uri.UriObject.ToString | src/curl/uri.cpp:71-81 | the parts that are there, in order |
| Uri.Reparse | src/curl/uri.cpp:65-81 | printing an object and parsing the text into a new one gives the same fields if and only if the condition holds |

## Left out

- permessage-deflate: the extension is taken to be off; zlib is foreign code.
- The HTTP upgrade: request text, header matching, nonce and the check of the accept key. Only the
  reading up to the delimiter and the hand-over of the surplus are modelled.
- Connecting and reconnecting: a connection is modelled from the moment it is open, once. Callbacks
  and the validation mode do not change during it.
- Randomness: masking keys are an arbitrary sequence of keys.
- Real threads, locks, coroutine frames and reference counts: each entry point is one atomic step.
- Callbacks call back into the connection only through `send` and `close`; those calls take effect
  when the callback returns, in order. A callback of a `send` that is refused at once reports, but
  does not itself call back.
- WebSocket.Inspect: the sum of header and payload length does not wrap here, nor in the parser of
  `Frames` and `Session`; for the lengths for which the source's does they wait for more octets.
  `Wrapping.dfy` has the loop with the 64-bit sum and the exact condition under which the two agree;
  what the connection does with the payloads taken in the other case is not followed further.
- Session.Suffix: `remove_prefix` beyond the end is undefined in the source; the model takes the
  rest to be empty. It happens only after the client has begun to close, where the first fragment of
  a text is a dead end and the offset left by an earlier message lies beyond the first two.
- WebSocket.WebSocketState.RawOnDataAvailable: a read is not limited to 64 KiB, and the assertion on
  line 419 of `websocket.cpp`, which a read of the full 64 KiB does not meet, is not modelled.
- WebSocket.WebSocketState.PopSent: the wake-up event of the sending task and the flag that ends it;
  each round is one step.
- Sha1Stream.Hash.Update: a piece on which the source's loop does not end (`Sha1Stream.LoopEnds`) has
  no outcome. Exactly these are excluded, here and in `HashPieces` and `HashOf`.
- Memory copies and unions: octets are copied as sequences; the transform's block is loaded in
  little-endian order, the big-endian build is not modelled.
- Transfers: exceptions of the socket calls, the destructor, `set_on_data_available` and pause bits;
  the socket may answer an attempt in any way that fits the buffer. Each transfer has a callback of
  its own, and the caller leaves the buffer of a read alone while it lasts.
- Completion: connect-only handles, and installing a callback over one that is still there.
- Timers: functions that schedule others while they run, and the poll of the worker loop.
- Slist: copying (`copy_slist` relies on the return value of libcurl's append), `release`, iterators
  that outlive their node, and freeing.
- Base64.Decode: lengths of one more than a multiple of four, for which the source reads beyond its
  input. The decoder's table is written as ranges; characters above 0x7F map to zero as all others
  without meaning do.
- Uri: the library's number conversion and searches are functions; escaping, form data, `split_path`
  and `merge_path` are left out.
- String splitting, trimming, case-insensitive comparison and cookies: they would only add easy
  members.
