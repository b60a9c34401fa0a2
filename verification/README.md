# A verified model of web-htop

web-htop samples a Linux host, publishes numbered snapshots and streams them to terminal clients. This
project models its three hardest parts in Dafny and proves what they are for.

**The streaming pipeline.** A sampling worker publishes generations (`SharedState`, `SamplingGrid`). One
reactor owns all sessions and fans the latest generation out to bounded, latest-wins queues (`OutputQueue`,
`FanOut`, `Turns`, `Requests`, `Reactor`); `Runs` follows one session through a whole run. A client cuts the
byte stream back into frames (`Framing`, `StreamClient`) and filters them by sequence number
(`SequenceFilter`). Everything the kernel or another
thread decides is an argument of a step: how many bytes a send takes, how recv cuts the stream, which events
are reported, what was published in between, when a peer disappears. Ghost histories record what was pushed
to a session, which frames were completed and every byte its socket took. `EndToEnd` joins the two ends:
whatever happens, a client sees published generations, byte for byte and in order, and once it has caught up
it holds the latest one.

**The JSON parser and printer.** `JsonGrammar` gives the grammar of RFC 8259 as derivation trees, with the
value the grammar assigns to each tree and the limits of the parser; `JsonSyntax` reads a text into its tree
and proves the reading sound and complete; `JsonOutcome` adds the limits. `JsonParser` is the hand-written
parser as a class with a cursor, a depth and a node counter, proved to compute exactly that outcome.
`JsonPrinter` is the serializer, proved to write a tree of the grammar, and `JsonRoundTrip` puts the two
together. `Utf8` and `JsonString` hold RFC 3629 and the escaping of strings, and `JsonSpelling` reads the same
escapes from the tables of the RFC.

**The sampler.** `Collector` keeps the counters of the previous sample and decides when a rate is valid,
with the arithmetic in `Samples` and the choice of processes in `ProcessSelection`; `CollectorStates` says what
the states and counters of a report mean. `RunQueue` is the
scheduler profiler.

How to read it: a method or class follows the code it models; its contract ties the result or the new state
to functions and predicates; the lemmas beside them say what those are good for. Methods that the source does
not have (such as `Settle`, `Offer`, `TakeTurns` or `DrainTurn`) are pieces of a loop or a branch of the
source, cut out so that each has its own contract; what they leave as it was is in their contracts where a
caller needs it, which keeps the proofs of the callers short.

Two facts about the code that the statements follow:

* Sequence numbers on the wire do not increase strictly. A stream is given the latest generation when it is
  accepted, and once more by the next broadcast if that is still the latest and was not broadcast before.
  This first repetition is the only one (`FanOut.IncreasesIffNoRepeat`); `FanOut.BroadcastRepeatsIff` and
  `FanOut.GreetedThenBroadcast` say exactly when it happens, `FanOut.CarriedTwiceIff` when the wire carries
  both copies, and `EndToEnd.FirstConnection` that the filter of the client drops exactly the second.
* A request text with bytes after its blank line is routed as a whole or cut off at the blank line,
  depending on how recv split it. `Requests.SplitIndependent` says exactly which texts are safe from that,
  and `Turns.WholeRequestAnswered` that a text without such bytes is safe over any number of events.

Verify with `dafny verify dfyconfig.toml`.

## Model

| member | source | states |
|---|---|---|
| OutputQueue.OutputQueue.Push | server/include/server/transport/output_queue.hpp:18-34 | the new queue, and a result that is true exactly when a frame of which no byte was sent is dropped |
| OutputQueue.OutputQueue.Consume | server/include/server/transport/output_queue.hpp:41-54 | fails, changing nothing, exactly on over-consumption; otherwise the new queue, with the next frame taking over |
| OutputQueue.OutputQueue.ByteCount | server/include/server/transport/output_queue.hpp:61-64 | the count is the number of bytes the queue will still send |
| OutputQueue.PushKeeps | server/include/server/transport/output_queue.hpp:18-34 | a push never touches a frame in flight, puts the new frame last, and keeps the history faithful |
| OutputQueue.SupersededFrame | server/include/server/transport/output_queue.hpp:18-34 | after a push the queue holds a front of what it held and the new frame; Push reports a drop exactly if the last frame held, of which no byte was sent, is not in that front, and one more frame is lost then; sending loses none |
| OutputQueue.SendKeeps | server/include/server/transport/output_queue.hpp:36-54 | a send of part of the front moves exactly those bytes from the queue to the wire and keeps the history faithful |
| OutputQueue.SentIsFront | server/src/transport/reactor.cpp:234-263 | however many partial sends: the socket received the first bytes of the queued stream, the queue holds exactly the others |
| OutputQueue.FaithfulIsSafe | server/include/server/transport/output_queue.hpp:12-69 | bytes sent are whole frames in push order, then at most the beginning of one frame pushed after them; this outlives the queue |
| OutputQueue.EmptyMeansNewestSent | server/include/server/transport/output_queue.hpp:56-59 | when the queue is empty, the newest frame pushed was sent completely |
| SharedState.SharedState.Publish | server/src/state/shared_state.cpp:6-22 | the counter always advances; readers see the generation exactly if its frame can be built; histories only grow and stay numbered upwards |
| SharedState.SharedState.PublishAll | server/src/state/shared_state.cpp:6-22 | any number of publications: every payload uses up one number, and readers see exactly those with a frame, in order |
| FanOut.TotalUpdate | server/src/transport/reactor.cpp:174-188 | the sum of the queue sizes does not depend on the order of sessions and changes by one session's difference |
| FanOut.PublicationKeeps | server/src/transport/reactor.cpp:278-287 | a publication at any moment keeps the invariant of the reactor |
| FanOut.EnqueueLatestKeeps | server/src/transport/reactor.cpp:278-307 | pushing a generation newer than the last broadcast keeps a stream in order, increasing strictly behind its first frame, and brings it up to date |
| FanOut.GivenLaws | server/src/transport/reactor.cpp:169-191 | a frame given to a stream with output pending leaves the clock of its write deadline; one with nothing to send gets the clock of its turn; both wait for EPOLLOUT then, and nothing they have sent changes |
| FanOut.ClosedIffItDidNotFit | server/src/transport/reactor.cpp:289-306 | in whatever order a broadcast comes to the sessions, a stream survives it exactly if the frame fits in the budget at its turn, and has been given the frame then |
| FanOut.ReplaceKeeps | server/src/transport/reactor.cpp:526-548 | replacing one session by a sound one keeps the accounting, masks and histories of all |
| FanOut.RemoveKeeps | server/src/transport/reactor.cpp:265-276 | closing a session keeps the accounting exact, without underflow, and its history sound |
| FanOut.AddKeeps | server/src/transport/reactor.cpp:146-166 | a greeted session enters the accounting exactly once |
| FanOut.LatestWins | server/src/transport/reactor.cpp:278-307 | the newest frame of a stream lies between the last broadcast and the latest publication, a non-empty queue ends with it, and an empty one means it was sent completely |
| FanOut.IncreasesIffNoRepeat | server/src/transport/reactor.cpp:278-307 | the generations pushed to a stream increase strictly if and only if its first two are not the same |
| FanOut.BroadcastRepeatsIff | server/src/transport/reactor.cpp:289-301 | a broadcast repeats a generation exactly for a stream that has been given nothing but this one |
| FanOut.GreetedThenBroadcast | server/src/transport/reactor.cpp:145-164 | a stream accepted just before a broadcast is given two frames, and they are the same if and only if nothing was published in between |
| FanOut.CarriedTwiceIff | server/include/server/transport/output_queue.hpp:18-34 | then the wire carries both copies if and only if a byte of the first was sent before the broadcast; otherwise the second takes its place |
| FanOut.ResponseComplete | server/src/transport/reactor.cpp:225-230 | an HTTP session that answered and has nothing left to send has sent its one response completely |
| Requests.GatherAppend | server/src/transport/reactor.cpp:213-230 | collecting over several calls of Read is the same as over one |
| Requests.RequestFragments | server/src/transport/reactor.cpp:213-230 | under every split into non-empty pieces a whole request is routed once, as a whole, at its last piece |
| Requests.SplitIndependent | server/src/transport/reactor.cpp:213-230 | a text is routed as a whole under every cut into pieces of at most one recv exactly when nothing follows its blank line |
| Requests.PipelinedBytesSplit | server/src/http/http_request.cpp:16-21 | with bytes after the blank line there are two ways to cut the same text into pieces of one recv: one routes the text up to the blank line, the other routes one byte more or answers 431 |
| Turns.SendAllProgress | server/src/transport/reactor.cpp:234-263 | what Write sends is the front of the queue without a gap, and the progress clock moves only with bytes |
| Turns.SendAllKeeps | server/src/transport/reactor.cpp:238-261 | induction over the sends of a Write: what every single send keeps, the loop keeps |
| Turns.WriteBytes | server/src/transport/reactor.cpp:256-260 | a Write takes off the queue exactly the bytes the socket accepted |
| Turns.WriteKeeps | server/src/transport/reactor.cpp:234-263 | a Write keeps the invariant of its session |
| Turns.FinishedMeansSent | server/src/transport/reactor.cpp:234-263 | unless a send fails, Write ends an HTTP session exactly when its whole response was sent; before that the socket has taken the beginning of it |
| Turns.BrokenIff | server/src/transport/reactor.cpp:238-261 | the loop of Write breaks exactly at the first result of send that fails or takes nothing, if it comes to use it: none before it would block, and there are bytes and budget left |
| Turns.StreamLivesOn | server/src/transport/reactor.cpp:234-263 | a Write ends a stream exactly if it comes to use a send that fails; never because the queue is drained, the socket would block or 64 KiB were sent |
| Turns.HttpLivesOn | server/src/transport/reactor.cpp:234-263 | a Write ends an HTTP session exactly if it comes to use a send that fails or leaves nothing to send |
| Turns.EverySendCounts | server/src/transport/reactor.cpp:240-260 | send by send: as much of the front as fits in the budget is sent and the clock is that of the send; a result that is not used changes nothing |
| Turns.ReadTurnsCollect | server/src/transport/reactor.cpp:193-232 | answering piece by piece comes to the same as judging the text collected |
| Turns.ReadStops | server/src/transport/reactor.cpp:193-232 | an end of stream or a failure ends the session with nothing pushed, more than 8192 bytes are answered with the 431 response, a blank line with what Route makes of the text up to there; otherwise the session goes on waiting with that text |
| Turns.Responded | server/src/transport/reactor.cpp:169-191 | a response is the one frame pushed and queued, whole and with the clock of the read; it is refused exactly if it is over the budget |
| Turns.WholeRequestAnswered | server/src/transport/reactor.cpp:193-232 | a whole request that arrives over any number of events, each with several receives and interruptions anywhere, is answered in the event that brings its last byte: Route is asked once about the whole text, exactly its answer is pushed, and the session lives exactly if that fits in the budget |
| Turns.NotAnsweredBefore | server/src/transport/reactor.cpp:213-230 | in all earlier events nothing is pushed, and the session waits with exactly the bytes that have arrived |
| Turns.ReadKeeps | server/src/transport/reactor.cpp:193-232 | Read keeps the invariant of its session, or leaves a sound history and a queue that sends nothing more |
| Turns.ClockMovesWithBytes | server/src/transport/reactor.cpp:174-183 | while output is pending, the clock of the write deadline moves only when the socket takes bytes |
| Turns.PollKeeps | server/src/transport/reactor.cpp:520-548 | an event keeps the invariant of a session that lives on; one that ends has sent only sound bytes; the budget holds |
| Turns.StreamEvent | server/src/transport/reactor.cpp:513-548 | a stream reads nothing; an event ends it exactly on an error, a hang-up, or a send that fails in its Write |
| Turns.HttpEvent | server/src/transport/reactor.cpp:513-548 | an HTTP session that waits reads on input and on hang-up, before it writes; an event ends it exactly on an error, a hang-up, if Read ends it, a send fails or nothing is left to send |
| Turns.StreamPollPushesNothing | server/src/transport/reactor.cpp:526-548 | the events of an open stream push nothing: only broadcasts do |
| Reactor.Reactor.Modify | server/src/transport/reactor.cpp:100-111 | the registered interest set is the one the state of the session calls for |
| Reactor.Reactor.Enqueue | server/src/transport/reactor.cpp:169-191 | succeeds exactly if the total stays within the budget; the byte count moves by the difference of the queue, also when the queue is thrown away; the clock of the write deadline starts only if nothing was pending; superseded frames are counted |
| Reactor.Reactor.Close | server/src/transport/reactor.cpp:265-276 | exactly the bytes of the session leave the count, and an unknown token changes nothing |
| Reactor.Reactor.Write | server/src/transport/reactor.cpp:234-263 | the session and the result are those of the fold over the sends (see StreamLivesOn, HttpLivesOn and EverySendCounts for what these are); both counters move by the bytes sent |
| Reactor.Reactor.Read | server/src/transport/reactor.cpp:193-232 | the session and the result are those of the collected text; the byte count stays exact |
| Reactor.Reactor.Serve | server/src/transport/reactor.cpp:520-541 | read, write and hang-up of one event in this order, with the byte count exact |
| Reactor.Reactor.SessionStep | server/src/transport/reactor.cpp:513-548 | the invariant of all sessions holds again, and the sessions are those before with this one as the event leaves it, registered again or gone |
| Reactor.Reactor.Keep | server/src/transport/reactor.cpp:544-548 | a session that lives on is registered for what it now waits for, so pending output always waits for EPOLLOUT |
| Reactor.Reactor.Drop | server/src/transport/reactor.cpp:542-545 | a session that ends leaves the other sessions, the accounting and the histories sound |
| Reactor.Reactor.Greet | server/src/transport/reactor.cpp:145-164 | the session is new and has the latest generation pushed if it streams; it is refused exactly over the budget; the byte count is exact before it is in the map |
| Reactor.Reactor.Admit | server/src/transport/reactor.cpp:139-166 | the status of the reactor afterwards is exactly that of one admission (see ArrivedLaws), with the client limit kept |
| Reactor.Reactor.Accept | server/src/transport/reactor.cpp:113-167 | the status afterwards (sessions, tokens, counters, bytes, published generations) is exactly that of the results of accept4 taken one after the other, as BurstUses and ArrivedLaws describe it |
| Reactor.UsedLaws | server/src/transport/reactor.cpp:117-137 | a burst uses at most 32 results and stops with the first one that is neither taken nor retried, or when there are no more |
| Reactor.BurstUses | server/src/transport/reactor.cpp:113-167 | the loop of Accept comes to exactly the results that are used, one after the other |
| Reactor.ArrivedLaws | server/src/transport/reactor.cpp:139-166 | a connection is accepted exactly if there is a free client place and, for a stream, the latest generation fits in the budget: then the one new session has the next token, is of the kind of its listener, has read and sent nothing and, if it streams, has the latest generation queued; otherwise it is rejected and no session changes |
| Reactor.NotConnected | server/src/transport/reactor.cpp:121-137 | the other results admit nobody; running out of descriptors or a failure is one rejection, and only the first pauses the listeners |
| Reactor.ResultsTallied | server/src/transport/reactor.cpp:113-167 | after any number of results: sessions that were there are unchanged, the others have tokens never used before, as many as were accepted and within the client limit, and accepted and rejected together are the results that count |
| Reactor.BurstAdds | server/src/transport/reactor.cpp:145-164 | every session that a burst adds came with one of its connections, is of the kind of the listener, and a stream starts with what was the latest generation at that moment |
| Reactor.Reactor.OfferLatest | server/src/transport/reactor.cpp:297-301 | a stream takes the latest generation exactly if it fits in the budget, and is up to date then; one that does not leaves a sound history |
| Reactor.Reactor.PushToAll | server/src/transport/reactor.cpp:289-306 | every stream is given the frame or closed, HTTP sessions are untouched, every turn adds at most one frame, and nobody is closed if the budget has room for one frame each |
| Reactor.Reactor.Broadcast | server/src/transport/reactor.cpp:278-307 | afterwards the last broadcast is the latest publication; a repeated one changes no session; otherwise every stream is given the frame or closed, and nobody is closed if the budget has room for one frame each |
| Reactor.Reactor.Sweep | server/src/transport/reactor.cpp:309-333 | a session is there afterwards exactly if it was there and is in time: its request is read or within its deadline, and it has nothing to send or its clock is within the write deadline; the others are counted, listeners are back |
| Reactor.TimerLaws | server/src/transport/reactor.cpp:309-333 | the same of a timer as a step: exactly the sessions in time are left, unchanged |
| Reactor.Reactor.Dispatch | server/src/transport/reactor.cpp:485-549 | each event has its effect on the whole status: a timer leaves exactly the sessions in time, then broadcasts what is new; a notification broadcasts; an accept is a burst, or nothing while paused; a session event changes its session only; every status is sound |
| Reactor.Reactor.Batch | server/src/transport/reactor.cpp:463-550 | a signal goes before all other work: every session is dropped and nothing else has changed; otherwise the events are served in order, each with its effect, and a last timer or notification leaves the latest publication broadcast |
| Reactor.SignalAmong | server/src/transport/reactor.cpp:474-484 | the search for a signal finds one exactly if the batch holds one |
| Reactor.Reactor.Run | server/src/transport/reactor.cpp:459-551 | every run keeps the invariant (accounting, masks, order of generations, soundness of every wire, closed ones included) and serves exactly the events before a signal, in order, each with its effect |
| Runs.TokenNeverReturns | server/src/transport/reactor.cpp:145-166 | a token of a session that is gone never names another one in any run |
| Runs.OtherEventsLeaveIt | server/src/transport/reactor.cpp:485-549 | events of other sessions, connections, broadcasts and publications leave an HTTP session as it was; a timer ends it exactly past a deadline |
| Runs.SessionFollowsItsEvents | server/src/transport/reactor.cpp:459-551 | at every moment of any run an HTTP session not swept is what its own events make of it, and is there exactly if they have left it alive |
| Runs.RequestAnsweredInRun | server/src/transport/reactor.cpp:193-232 | in any run whose timers fall within the request deadline, a whole request in any number of pieces is answered once, at its last byte, whatever happens to other sessions in between |
| Runs.AcceptAdds | server/src/transport/reactor.cpp:113-167 | what an accept event comes to: as many new sessions as were accepted, within the client limit, each of the kind of the listener and greeted with the generation that was the latest then; accepted and rejected add up to the results that count |
| Runs.StreamLeavesIff | server/src/transport/reactor.cpp:265-333 | a stream leaves the reactor exactly on an error, a hang-up or a send that fails in an event of its own, past its deadline at a timer, or when the frame of a broadcast does not fit in the budget at its turn |
| Runs.BroadcastClock | server/src/transport/reactor.cpp:169-191 | a broadcast leaves the clock of every stream with output pending and starts that of one with nothing to send, at its turn; it sends nothing |
| Runs.StalledInRun | server/src/transport/reactor.cpp:169-191 | over any part of a run in which a session is sent no byte, its pending output stays pending and its clock stands still, whatever is published meanwhile |
| Runs.StalledClientEnds | server/src/transport/reactor.cpp:309-333 | so the first timer later than the write deadline after its last progress ends a session that takes nothing |
| Framing.Frame | common/src/protocol.cpp:19-34 | a frame, or nothing exactly for a payload that is empty or over 8 MiB |
| Framing.HeaderValue | common/src/protocol.cpp:26-31 | the four header bytes read back as the length, and weigh 2^24, 2^16, 2^8 and 1 in this order |
| Framing.DeframeFrames | common/src/protocol.cpp:36-66 | frames one after the other and the beginning of another read back payload by payload |
| Framing.DeframeAppend | common/src/protocol.cpp:36-66 | chunk independence: reading a stream in two pieces gives what reading it whole gives, errors included |
| Framing.FrameDecoder.Feed | common/src/protocol.cpp:36-66 | consumes everything or completes a frame, always makes progress, never passes the end of a frame, and fails exactly on a bad length |
| Framing.HeldFrame | common/include/common/protocol.hpp:26-34 | the decoder holds a partial frame until Complete, and then exactly one payload |
| StreamClient.StreamConnection.Disconnect | client/src/net/stream_connection.cpp:92-104 | no byte and no frame survives; the retry delay lies between half of the backoff and all of it |
| StreamClient.BackoffDoubles | client/src/net/stream_connection.cpp:99-103 | the backoff starts at 250 ms, doubles five times and then stays |
| StreamClient.StreamConnection.Tick | client/src/net/stream_connection.cpp:106-140 | a connection is given up exactly past its connect, frame or idle deadline, and stays as it was otherwise; no reconnect before the retry time; a new connection starts all its clocks now |
| StreamClient.StreamConnection.Drain | client/src/net/stream_connection.cpp:202-238 | everything of a chunk becomes frames of the stream read so far, delivered in order, or the connection ends at the first bad one; the clocks of the frames are that of the recv, and a delivered frame resets the failed attempts |
| StreamClient.StreamConnection.ReadAll | client/src/net/stream_connection.cpp:178-239 | the application hears exactly the frames that all bytes received so far contain; the socket stays open exactly if nothing ended it |
| StreamClient.StreamConnection.Handle | client/src/net/stream_connection.cpp:147-240 | a poll that asks for nothing leaves the connection; a pending connect that succeeds leaves it open and connected, with its idle clock at that moment, and one that fails closes it; with input everything the socket returns is read unless data ends the connection; the clocks are those of the last byte of the last frame and of the first byte of the frame that is held |
| StreamClient.StreamConnection.Run | client/src/net/stream_connection.cpp:92-240 | over any ticks and polls and any number of connections the application has heard what each ended connection delivered, one after the other, and then what the open one has delivered, and nothing else |
| StreamClient.DeliveryJoin | client/src/net/stream_connection.cpp:202-232 | deliveries of consecutive stretches are the delivery of the whole |
| StreamClient.Undecodable | client/src/net/stream_connection.cpp:217-222 | a payload that does not decode is the first frame not delivered, whatever follows it |
| SequenceFilter.ClientApp.Receive | client/src/app/client_app.cpp:86-144 | what the client holds, counts and shows is a function of what it heard and of when it was paused: the histories show exactly what was accepted while not paused in the last run of an instance; a snapshot that is not accepted changes nothing, a paused client keeps what is visible; with once nothing is heard after the first |
| SequenceFilter.ClientApp.Show | client/src/app/client_app.cpp:128-138 | the three histories stay aligned and hold the newest 120 values |
| SequenceFilter.WindowAt | client/src/app/client_app.cpp:128-138 | position i of every history is the value of the same snapshot, the i-th of the newest 120 that are shown |
| SequenceFilter.RunStartIs | client/src/app/client_app.cpp:93-105 | the last run begins behind the last accepted snapshot of another instance |
| SequenceFilter.ClientApp.TogglePause | client/src/app/client_app.cpp:250-258 | pausing keeps what is visible; resuming shows the newest snapshot |
| SequenceFilter.ClientApp.Quit | client/src/app/client_app.cpp:237-240 | the q key ends the client and changes nothing that it shows |
| SequenceFilter.RunIncreases | client/src/app/client_app.cpp:93-99 | within a run of one instance accepted sequence numbers increase strictly, whatever arrives |
| SequenceFilter.GapsTelescope | client/src/app/client_app.cpp:93-99 | over a run the gap counter adds last minus first plus one minus the number accepted |
| SequenceFilter.RestartIsNoGap | client/src/app/client_app.cpp:93-105 | the first snapshot of a new instance adds nothing |
| SequenceFilter.TakenIncreases | client/src/app/client_app.cpp:93-99 | what a connection adds was received on it and increases strictly, also over what earlier connections left |
| SequenceFilter.FilterRemovesRepetitions | client/src/app/client_app.cpp:93-98 | of arrivals that do not go back, every sequence number newer than what the client held before is accepted |
| SequenceFilter.OnlyRepetitionDropped | client/src/app/client_app.cpp:93-98 | on the first connection, if only the first generation may be repeated, the filter drops exactly that repetition |
| SequenceFilter.OneConnection | client/src/app/client_app.cpp:86-144 | for one connection after any others: strictly increasing, nothing that arrived is newer than what is held, and the gap counter grows by the numbers skipped since what was held of this instance |
| EndToEnd.CutAnywhere | client/src/net/stream_connection.cpp:178-209 | a cut at any byte of a sound wire is whole frames and the beginning of one more |
| EndToEnd.StreamSafety | server/src/transport/reactor.cpp:234-263 | any prefix of what a session was sent reads as payloads of completed frames, a subsequence of those pushed, byte for byte |
| EndToEnd.ClientSees | client/src/net/stream_connection.cpp:202-232 | what arrives are the published generations of those frames, with sequence numbers that increase strictly behind the first |
| EndToEnd.NeverBroken | client/src/net/stream_connection.cpp:217-238 | a connection to a sound server never ends because of its data |
| EndToEnd.AcceptedOnce | client/src/app/client_app.cpp:93-99 | after the filter, and after anything that earlier connections delivered, sequence numbers increase strictly and the gap counter counts what was skipped |
| EndToEnd.FirstConnection | client/src/app/client_app.cpp:93-99 | a first connection accepts every generation it completes, and drops exactly the second copy of a first generation that was carried twice |
| EndToEnd.ClientHasLatest | server/src/transport/reactor.cpp:278-307 | broadcast done, queue empty and stream read: the client holds the latest generation published, whatever earlier connections to this server or another delivered |
| EndToEnd.NotNewerThanLatest | server/src/transport/reactor.cpp:278-307 | nothing a connection delivers is newer than the latest publication, so what earlier connections left never hides it |
| EndToEnd.HeardNotNewer | server/src/transport/reactor.cpp:278-307 | over any number of connections to this server or to others, nothing heard of this server is newer than its latest publication |
| EndToEnd.ReconnectedClientHasLatest | client/src/app/client_app.cpp:86-144 | after any run over any connections, a client that has read all that an up to date session sent has the latest publication as its current snapshot, and shows it unless paused |
| Utf8.LengthIffEncoding | common/include/common/utf8.hpp:9-47 | a length n is reported exactly when the n bytes encode a Unicode scalar value |
| Utf8.EncodingPrefixFree | common/src/common/json/parser.cpp:92-122 | no encoding is a prefix of another, so encoding is injective |
| Utf8.EncodingKeepsOrder | common/src/common/json/parser.cpp:92-122 | RFC 3629 section 1: longer encodings and lexicographically later ones belong to greater code points, which leaves one encoding only |
| Utf8.EncodeAllInjective | common/src/common/json/parser.cpp:92-122 | a text has one reading as code points |
| JsonString.ScanSound | common/src/common/json/parser.cpp:210-304 | the scan covers the text token by token and accepts only tokens of the grammar's shape |
| JsonString.ScanComplete | common/src/common/json/parser.cpp:210-304 | every sequence of tokens and its closing quote is scanned back |
| JsonString.PointsGrammatical | common/src/common/json/parser.cpp:312-374 | what decodes uses only escapes of the grammar |
| JsonSpelling.DenotesWhatItSpells | common/src/common/json/parser.cpp:312-374 | a literal denotes a list of code points if and only if it spells them by the tables of RFC 8259 section 7: UTF-16 halves, hexadecimal digits in either case, and the eight short escapes, slash included |
| JsonSpelling.PairDenotes | common/src/common/json/parser.cpp:338-351 | for every scalar value from U+10000 on, two escapes that spell the halves of its UTF-16 encoding denote it |
| JsonSpelling.PairsDistinct | common/src/common/json/parser.cpp:338-351 | every pair of surrogates denotes a scalar value from U+10000 on, and distinct pairs denote distinct ones |
| JsonSpelling.HexIff | common/src/common/json/parser.cpp:61-82 | four hexadecimal digits have the value v exactly if they spell v, most significant first, in lower or upper case |
| JsonSpelling.PrintsShortest | common/src/common/json/utils.cpp:302-345 | the printer writes an ASCII character as itself where the grammar allows it, else as its short escape if it has one, else as four digits |
| JsonString.EscapeDecodes | common/src/common/json/utils.cpp:298-361 | decoding the escaped form of any bytes gives their repaired code points |
| JsonString.RepairLaws | common/src/common/json/utils.cpp:298-361 | the repair is valid UTF-8, the identity exactly on valid UTF-8, and idempotent |
| JsonString.RepairStep | common/src/common/json/utils.cpp:298-361 | well-formed sequences are copied; any other byte becomes the encoding of its code point |
| JsonSyntax.ReadTreeSound | common/src/common/json/parser.cpp:494-701 | a value that is read derives exactly the text that was consumed |
| JsonSyntax.ReadTreeComplete | common/src/common/json/parser.cpp:494-701 | a derivation is found again from its text, whatever may follow it |
| JsonSyntax.ReadNumberSound | common/src/common/json/parser.cpp:383-452 | the parts of a number cover the text that was read and obey the grammar |
| JsonSyntax.ReadNumberComplete | common/src/common/json/parser.cpp:383-452 | every number of the grammar is read back in full |
| JsonSyntax.ReadDocumentSound | common/src/common/json/parser.cpp:708-734 | an accepted document derives its text |
| JsonSyntax.ReadDocumentComplete | common/src/common/json/parser.cpp:708-734 | every derivation is found from its text |
| JsonSyntax.Unambiguous | common/src/common/json/parser.cpp:708-734 | a text has at most one derivation |
| JsonOutcome.ElementsUnfold | common/src/common/json/parser.cpp:508-545 | one turn of the array loop, errors, depth and node budget included |
| JsonOutcome.MembersUnfold | common/src/common/json/parser.cpp:568-622 | one turn of the object loop, key limit and repeated keys included |
| JsonOutcome.FreshIffDistinct | common/src/common/json/parser.cpp:575-608 | checking each key against those before accepts exactly objects with distinct decoded keys |
| JsonOutcome.ParseIffAccepted | common/src/common/json/parser.cpp:708-734 | a text parses to v exactly when the grammar derives it within the limits and v is the value assigned |
| JsonOutcome.ParseFromValue | common/src/common/json/parser.cpp:717-730 | one value, white space, and the end of the text make the outcome of Parse |
| JsonParser.ParserState.ScanLiteral | common/src/common/json/parser.cpp:210-304 | the scanning pass finds the tokens of the literal, and no backslash if it asks for no decoding |
| JsonParser.Decode | common/src/common/json/parser.cpp:305-374 | the decoding pass splits the raw text at the boundaries of the scan, stays in range, and gives the meaning of the tokens |
| JsonParser.DecodeUnit | common/src/common/json/parser.cpp:329-366 | a \u escape with its surrogate partner gives the code point that PairDenotes names, an unpaired half fails |
| JsonParser.ParseHex4 | common/src/common/json/parser.cpp:61-82 | four hex digits and their value, nothing otherwise |
| JsonParser.ParserState.ParseString | common/src/common/json/parser.cpp:203-375 | the decoded literal, valid UTF-8, or nothing exactly if the grammar has none |
| JsonParser.ParserState.ParseNumber | common/src/common/json/parser.cpp:383-486 | the number's value with its integer ranges, or nothing |
| JsonParser.ParserState.ParseArray | common/src/common/json/parser.cpp:494-546 | the outcome of the grammar for an array, with counters restored |
| JsonParser.ParserState.ParseObject | common/src/common/json/parser.cpp:554-623 | the outcome of the grammar for an object, with counters restored |
| JsonParser.ParserState.ParseValue | common/src/common/json/parser.cpp:631-701 | the outcome of the grammar for any value within depth and node limits |
| JsonParser.Parse | common/src/common/json/parser.cpp:708-738 | the outcome of the grammar for the whole text |
| JsonParser.AllRawMeaning | common/src/common/json/parser.cpp:306-312 | a literal without a backslash means its own bytes |
| JsonParser.MeaningIsUtf8 | common/src/common/json/parser.cpp:363-374 | every decoded string is valid UTF-8 |
| JsonPrinter.NextPiece | common/src/common/json/utils.cpp:302-359 | what one step of the escaping loop appends and skips is one token of the repaired text |
| JsonPrinter.TextBuffer.AppendEscapedString | common/src/common/json/utils.cpp:298-361 | the quoted text of the escape tokens is appended |
| JsonPrinter.TextBuffer.SerializeTo | common/src/common/json/utils.cpp:391-481 | the text of the value's derivation tree is appended, compact or indented |
| JsonPrinter.ToString | common/src/common/json/utils.cpp:483-489 | the text of the value's derivation tree |
| JsonPrinter.DecimalTextLaws | common/src/common/json/utils.cpp:403-420 | the decimal text of a number is digits without a leading zero that read back as the number |
| JsonRoundTrip.TreeIsDerivation | common/src/common/json/utils.cpp:391-481 | what is printed is a derivation of RFC 8259 with the height and node count of the value |
| JsonRoundTrip.MeaningOfTree | common/src/common/json/utils.cpp:391-481 | its meaning is the normalized value, exactly if keys stay distinct and few enough |
| JsonRoundTrip.RoundTrip | common/src/common/json/utils.cpp:483-489 | for every value and indentation: parsing the text succeeds exactly within the limits and gives the normalized value |
| JsonRoundTrip.PrintAndParse | common/src/common/json/utils.cpp:483-489 | the same through the two methods |
| JsonRoundTrip.AccessorsAgree | common/src/common/json/utils.cpp:109-143 | AsInt64 and AsUInt64 cannot tell a value from its round trip |
| JsonRoundTrip.ParsedIsUtf8 | common/src/common/json/parser.cpp:203-375 | every string and key in a parsed value is valid UTF-8 |
| Samples.CounterRate | server/src/collectors/linux_samples.cpp:132-139 | a rate exists exactly without reset and over a positive interval, and times the interval it is the difference |
| Samples.CpuUsage | server/src/collectors/linux_samples.cpp:107-130 | the usage computed by the loop, none on any reset |
| Samples.UsageIsShare | server/src/collectors/linux_samples.cpp:107-130 | the usage is the share of user, nice, system, irq, softirq and steal in the elapsed time, between 0 and 100, and 0 exactly if all of it was idle or waiting |
| ProcessSelection.FindBest | server/src/collectors/metrics_collector.cpp:339-354 | the row that beats all others |
| ProcessSelection.SelectionUnique | server/src/collectors/metrics_collector.cpp:339-354 | any two selections keep the same rows in the same order |
| ProcessSelection.Select | server/src/collectors/metrics_collector.cpp:339-354 | at most the limit, sorted, every kept row beats every dropped one, nothing lost, truncated exactly if a row was dropped |
| ProcessSelection.SelectionDetermined | server/src/collectors/metrics_collector.cpp:351-354 | what is kept does not depend on the sorting algorithm; truncated means more rows than the limit |
| Collector.BaselineIsNewest | server/src/collectors/metrics_collector.cpp:435-444 | the memory of a table holds for each key its newest good line and nothing else |
| Collector.TallyCovers | server/src/collectors/metrics_collector.cpp:273-337 | sampled, denied, vanished and malformed add up to the processes visited; each sampled one has a row |
| Collector.RowsDistinct | server/src/collectors/metrics_collector.cpp:273-337 | distinct pids in, distinct pids out |
| Collector.Collector.Cpu | server/src/collectors/metrics_collector.cpp:195-237 | usage of every CPU against the previous sample; the memory is this sample or empty |
| Collector.Collector.Processes | server/src/collectors/metrics_collector.cpp:257-360 | counters and selected rows of what was visited; the memory is this sample or empty |
| Collector.Collector.Network | server/src/collectors/metrics_collector.cpp:362-445 | rates of every interface; the memory is this sample or empty |
| Collector.Collector.Disk | server/src/collectors/metrics_collector.cpp:447-526 | rates of every device; the memory is this sample or empty |
| Collector.Collector.Cgroup | server/src/collectors/metrics_collector.cpp:584-685 | rates of the same cgroup only; the memory is this sample or empty |
| Collector.Collector.Collect | server/src/collectors/metrics_collector.cpp:111-193 | every baseline comes from the collection just before, whatever failed, so a report is determined by the last two samples |
| Collector.Collector.CollectAll | server/src/collectors/metrics_collector.cpp:111-193 | over any run of collections and failures each report comes from its sample and the one before |
| Collector.CpuUsageMeaning | server/src/collectors/metrics_collector.cpp:214-236 | the usage of a CPU is its busy share since the collection just before if that read the same CPU without reset; otherwise 0, with a state that says so |
| Collector.NetRateMeaning | server/src/collectors/metrics_collector.cpp:421-426 | an interface has a receive and a send rate exactly if the previous sample read the same interface, without reset of that counter, and time went by; each is the difference over that interval |
| Collector.ProcessRateMeaning | server/src/collectors/metrics_collector.cpp:317-326 | the same for a process, told by pid and start time |
| Collector.DiskRateMeaning | server/src/collectors/metrics_collector.cpp:491-503 | the same for the bytes read and written of a device and its requests; its busy share is the busy time over the interval, cut at 100 percent |
| Collector.CgroupRateMeaning | server/src/collectors/metrics_collector.cpp:590-660 | the same for the CPU time and the throttled time of the cgroup |
| CollectorStates.CpuStates | server/src/collectors/metrics_collector.cpp:195-237 | the CPU section is warming up exactly if the sample just before has no CPU table, and fine exactly if every CPU has a usage |
| CollectorStates.NetStates | server/src/collectors/metrics_collector.cpp:362-445 | the network section is fine exactly if every line is good and has both rates; otherwise it is warming up if the sample just before had no good line, else partial |
| CollectorStates.DiskStates | server/src/collectors/metrics_collector.cpp:447-526 | the disk section is warming up exactly if this sample has a good line and the one just before had none, and otherwise fine exactly if every line is good |
| CollectorStates.ProcessStates | server/src/collectors/metrics_collector.cpp:257-360 | the process section is fine exactly if every process listed was visited, and sampled or gone before it could be read |
| CollectorStates.TallyCounts | server/src/collectors/metrics_collector.cpp:273-337 | each of the four counters is the number of processes of its kind |
| CollectorStates.RowsAreEntries | server/src/collectors/metrics_collector.cpp:273-337 | every row is of a process that was sampled and every such process has a row, with its resident memory in bytes, which fits in 64 bits |
| CollectorStates.SampledIff | server/src/collectors/metrics_collector.cpp:273-315 | a process is sampled exactly if its file is of the pid asked for and its memory in bytes fits in 64 bits |
| SamplingGrid.MissedReaches | server/src/app/server_app.cpp:99-107 | skipping the missed ticks ends at the first tick still to come, at most one interval away |
| SamplingGrid.Worker.Advance | server/src/app/server_app.cpp:99-107 | the next deadline is in the future, at most one interval away, and on the grid |
| SamplingGrid.Worker.Iterate | server/src/app/server_app.cpp:75-112 | a sequence number is used exactly by a successful collection that is not stopped |
| SamplingGrid.Worker.Run | server/src/app/server_app.cpp:72-113 | after n iterations the deadline is start plus interval times n plus skipped, for any durations and failures |
| RunQueue.BucketOf | tools/scheduler/runqlat.bpf.c:110-120 | the bucket loop yields the position of the highest bit |
| RunQueue.BucketUnique | tools/scheduler/runqlat.bpf.c:110-120 | no other bucket fits |
| RunQueue.SumIncrement | tools/scheduler/runqlat.bpf.c:121-127 | counting in one bucket adds one to the sum of the histogram |
| RunQueue.Profiler.Enqueue | tools/scheduler/runqlat.bpf.c:45-59 | the map after an update, any evictions included; a failed one changes nothing but the failure counter |
| RunQueue.Profiler.OnSwitch | tools/scheduler/runqlat.bpf.c:79-129 | the histogram sums to the samples; a switch to a task raises samples exactly if a usable record of it is left, otherwise unmatched; a sample is the time since the last record of that task, counted in its bucket, and without a sample the histogram stands |
| RunQueue.Profiler.OnExit | tools/scheduler/runqlat.bpf.c:133-139 | the record of the thread is gone, everything else stands |

## Left out

- Sockets, epoll, timers, signals, eventfd and DNS: their results are arguments of the steps.
- The C++ memory model of the published pointer: publishing and loading are atomic steps.
- Reactor.Reactor.Broadcast: the clock is read once per session, as one argument per token.
- StreamClient.StreamConnection.ReadAll: one reading of the clock per recv stands for those taken per frame.
- Reactor.Reactor.Run: superseded frames and bytes sent are counted where they arise (Enqueue, Write); the totals of these two counters over a run are not stated.
- Reactor.Reactor.Batch: a shutdown clears the sessions without a record of what they had been sent.
- Allocation failures, fatal epoll errors and the 64-bit wrap-around of counters and sequence numbers.
- JsonRoundTrip.RoundTrip: a double is carried as the text it is written with, because its formatting and parsing are library code; the values covered have number texts for all their doubles, and whether such a text is in range is an argument.
- JsonParser.ParserState.ParseNumber: from_chars is modelled by its result.
- Bit operations on octets are written as sums of disjoint parts.
- Framing.FrameDecoder.Feed: the payload is a sequence; the reserve of its capacity is not modelled.
- The field checks of Decode and the ToJson and FromJson of the models: long, with one check per field. Decoding is an argument of the client.
- ParseHttpRequest beyond its two guards on the blank line and the length, Route and Diagnostics: the answer to a text is an argument.
- Samples.CpuUsage: reals stand for doubles, here and in every rate; an interval that is not finite does not occur.
- ProcessSelection.Select: std::partial_sort is library code; a selection by repeated minimum stands for it, and SelectionDetermined shows that the choice does not matter.
- Parsing of the proc files, memory, filesystem, load and pressure sections, totals over interfaces: no state between samples.
- SequenceFilter.ClientApp.Receive: recording to a file and printing are not modelled; the scroll, filter and page keys neither.
- The HTTP probe of the client, its address rotation and the terminal interface.
- RunQueue.Profiler.OnSwitch: the per-CPU copies of the counters are added up, and the tracepoint arguments are given.
