# libiocp, modelled and proved in Dafny

libiocp is a small C++ library for asynchronous network programs over Windows I/O
completion ports. This project models its machinery and proves what it is for.
`dafny verify dfyconfig.toml` checks everything.

| file | what it models |
|---|---|
| `IoBuffer.dfy` | `iobuf`, the circular byte buffer, as a class over an array |
| `Framing.dfy` | the frame format, and the whole-stream parser that is the independent specification of the receiver |
| `Receiver.dfy` | the receiving half of `session_ioT` as a machine over recv calls and kernel completions |
| `Sender.dfy` | the sending half: batches, partial completions, reposts |
| `SessionIo.dfy` | `session_ioT` itself, a class over two `iobuf`s, each method proved to be one step of those machines |
| `Link.dfy` | a sender and a receiver joined by a byte stream; two links used for request and reply |
| `QueueT.dfy` | `queueT` as a class, and its consumers and producers as interleaved threads over an auto-reset event |
| `BoundedQueues.dfy` | `queue_boundedT` and `ringbufT` as classes, and their threads over manual-reset events |
| `Boss.dfy` | `iocp_session_boss` and `iocp_loop` as classes |
| `Lifecycle.dfy` | sessions from join to removal under any interleaving of any number of threads |
| `ThreadPool.dfy` | `thread_pool`: the handshake of controller and workers |
| `FileTransfer.dfy` | the example server and client, as classes and as any number of interleaved sessions over message channels |
| `ByteTransfer.dfy` | the same with every channel a `Link`: packages, sockets, rings and send buffers in one machine |

How the pieces fit: a class method is proved against a function of the old state
(`View`, `RecvView`, `SendView`); the machines are built from those same functions
(`Step`, `Examine`, `SendStep`, `DoPut`, `TryPut`, ...); the results are lemmas over
every run of the machines. The kernel is a nondeterministic step: it may take any
positive number of posted bytes, deliver any positive number of bytes that fit the
spans it was handed, complete with zero, or refuse a post (`postOk`). The header is
taken as the compiler lays it out on the library's platform: magic at offset 0, two
padding bytes of unspecified value, a 32-bit little-endian size at offset 4.

The main results:

- `Link.RoundTrip`: for any batches, partial sends, cuts and user buffers, what
  recv_finished reports is a prefix of what was sent, and all of it in the end. That
  send_init, send_add and send post nothing but such batches is an invariant of
  `SessionIo.Session` (`building`).
- `Receiver.RefinesParser` and `Receiver.CutsDoNotMatter`: on arbitrary bytes,
  malformed ones included, the receiver answers as the whole-stream parser does.
  `Framing.FrontSound` and `Receiver.OnlyFramesDelivered`: that is the frame format and
  nothing else, magic and size included.
- `Receiver.RefinesIffNeverFills`: this fails exactly when a completion fills the
  ring, because head and trail then meet, which reads as empty; `Receiver.FillingRun`
  is such a run. `Link.RingNeverFills`: request and reply can never get there.
- `Link.LinkRecvEnds`: in every state of a link, and whatever is posted meanwhile, a
  waiting recv gets the next message, or its size, within fewer completions than its
  frame has bytes missing.
- `Lifecycle.DisconnectedIsLast`, `Lifecycle.SingleToken`, `Lifecycle.BossListAgrees`,
  `Lifecycle.ConnectCountIsExact`, and `Lifecycle.PackagesDispatchedInOrder`: every
  run drives `queueT` itself. `Lifecycle.StrandedIff`: a session is forgotten in the
  list exactly when an operation of it ends after the owner has closed its socket.
- `Lifecycle.ErrorsExact`, `Lifecycle.PackagesExact` and `Lifecycle.HandlersExact`: what
  the application is told of a session, and by which handler, is what has happened to
  it, the errors included.
- `QueueT.NoLostWakeupIffOneConsumer`: the unbounded queue loses no wakeup exactly
  when it has at most one consumer. `BoundedQueues.NoLostWakeup`: the bounded ones
  never do. `BoundedQueues.NoIdleWakeupIff` and `BoundedQueues.RingHonestIff`: when
  exactly their events are set for nothing. `BoundedQueues.NoPutIsLost`, and
  `GetsAreServed` of both modules: no call gives up that may not.
- `ThreadPool.EachTaskRunsOnce`, `ThreadPool.WaitsEnd`.
- `ByteTransfer.ExactIff`: over bytes, for any number of connections, any cuts and any
  interleaving, the clients' copies are exact if and only if the file is not empty,
  its length fits an int, and that length modulo the piece size is not 1. Exact means:
  at every moment, whatever post, send or receive fails, what is written is exact so
  far and a client that has quit has whole copies; and where nothing has failed and a
  connection can do nothing more, its client has quit, unless the connection was left
  behind. `ByteTransfer.SettledIff` says that this exception is exact,
  `ByteTransfer.LateConnectionStranded` gives a run. The result rests on
  `ByteTransfer.RefinesMessages`, `ByteTransfer.RefinesOrderly` and
  `ByteTransfer.RealizesMessages`, which relate the system of links and the system of
  message channels of `FileTransfer` in both directions.

The contracts of the queue classes and of the loop, at the end of the table, spell out
their cases and tie those classes to the step functions (`DoPut`, `TryPut`, ...) that
the results on runs are about.

Where the code and what one would expect of it part:

- The comment before `iocp_session::disconected` asks for one operation at a time per
  session. The model takes that as the rule for the application: it starts an
  operation on a session only after the package that ended the one before, and
  starts none from the error handlers.
- A content size between the ring size minus 8 and the ring size minus 1 passes the
  header check and can never be completed (`Framing.Completable`): such a frame is
  never answered (`Receiver.NeverAnswered`).
- `peek` with removal leaves not_empty set on an empty bounded queue
  (`BoundedQueues.PeekLeavesEventSet`), exactly when it takes the last item before stop
  (`BoundedQueues.NoIdleWakeupIff`). `ringbufT` never resets an event, so a put and a
  get have the same effect there (`BoundedQueues.RingLeavesEventSet`,
  `BoundedQueues.RingHonestIff`). A waiting consumer then runs through its loop
  without end instead of sleeping (`BoundedQueues.SpinsIffNothingThere`). Neither
  queue loses a wakeup.
- The example server quits its loop when its count of connections returns to 0. A
  connection whose connected package is dispatched later than that, or would be, gets
  nothing: two clients one after the other are enough (`LateSessionStranded`). The
  same holds for connections beyond the listener's limit, which are never accepted.
  `LeftBehind` is that condition, over the packages of the run.
- The client's loop quits in the same way, but all its connected packages are queued
  before it starts, and a loop whose count is 0 has seen each session it was told of
  disconnected (`Lifecycle.NobodyLeftAtZero`), so it needs no flag in the model.
- A session whose socket its owner closes while an operation is under way is told
  nothing if the operation then succeeds: it stays in the list and nothing happens to
  it again (`Lifecycle.OwnerCloseStrands`).
- The example server keeps the result of ftell in an int, and `long` has 32 bits on the
  library's platform: past 2^31 - 1 ftell fails with -1, and so does the next fseek.
  What a failing fseek does to the handle is not specified, so the model lets it leave
  the handle anywhere; the exact condition is the same if it leaves it where it was
  (`kept` in `FileTransfer.ExactIff` and `ByteTransfer.ExactIff`). The run that goes
  wrong needs two sessions (`FileTransfer.RunTooLong`).
- The frame of an empty message is a bare header, and the receiver looks at nothing
  before a byte of content is in: the client of an empty file waits for ever
  (`ByteTransfer.EmptyFileFails`).

## Model

| member | source | states |
|---|---|---|
| `IoBuffer.IoBuf.GetUsedBufs` | inc/sglib/iocp/iocp_buffer.h:29-40 | the two spans walk the used bytes in ring order, whatever the wrap |
| `IoBuffer.IoBuf.GetUnusedBufs` | inc/sglib/iocp/iocp_buffer.h:42-53 | the two spans walk all free bytes in ring order, and the first is never empty |
| `IoBuffer.SpansPartition` | inc/sglib/iocp/iocp_buffer.h:20-53 | every array index is in the used spans or in the unused ones and never in both |
| `IoBuffer.IoBuf.KernelFill` | inc/sglib/iocp/iocp_session_ioT.h:206-223 | bytes written into the unused spans in order lie just past the trail and leave the contents alone |
| `IoBuffer.IoBuf.HeadMove` | inc/sglib/iocp/iocp_buffer.h:55-60 | drops a prefix of the contents |
| `IoBuffer.IoBuf.TrailMove` | inc/sglib/iocp/iocp_buffer.h:61-66 | appends exactly the bytes past the trail while the buffer is not filled; filling it makes it read as empty |
| `IoBuffer.IoBuf.Length` | inc/sglib/iocp/iocp_buffer.h:67-72 | the number of bytes held, always below the size |
| `IoBuffer.IoBuf.DetectAdd` | inc/sglib/iocp/iocp_buffer.h:74-78 | true exactly when the addition stays strictly below the end of the array |
| `IoBuffer.IoBuf.SafeCopy` | inc/sglib/iocp/iocp_buffer.h:81-93 | yields the first n bytes for every head position, by copy or by the modular loop, and touches nothing else |
| `IoBuffer.IoBuf.FastCopy` | inc/sglib/iocp/iocp_buffer.h:95-107 | yields the first n bytes of the contents from one or two spans |
| `IoBuffer.IoBuf.Reset` | inc/sglib/iocp/iocp_buffer.h:117-120 | empties the buffer with head and trail at its start |
| `Framing.SizeRoundTrip` | inc/sglib/iocp/iocp_session_ioT.h:26-31 | the four little-endian size bytes written by the sender decode to the size, for every non-negative int |
| `Framing.FrontStable` | inc/sglib/iocp/iocp_session_ioT.h:343-372 | bytes that arrive later never change a verdict on the header or on the content |
| `Framing.FrontSound` | inc/sglib/iocp/iocp_session_ioT.h:343-372 | on arbitrary bytes: what is handed out is a frame with its magic, its size and its content; a header is malformed exactly when a byte of content is in and the magic is wrong or the size is not from 1 to below the ring size; otherwise more bytes are awaited, exactly while the frame is short of its size |
| `Framing.Completable` | inc/sglib/iocp/iocp_session_ioT.h:361-371 | a frame can become complete inside the ring if and only if it has content and is shorter than the ring; a header is never more than incomplete exactly for sizes from the ring size minus 8 to the ring size minus 1 |
| `Framing.StreamConcat` | inc/sglib/iocp/iocp_session_ioT.h:130-145 | streams of frames put one after the other are the stream of all their messages |
| `Framing.StreamAppend` | inc/sglib/iocp/iocp_session_ioT.h:130-145 | a batch that carries some messages carries one more after send_add has appended its frame |
| `Framing.ReplyOnPrefix` | inc/sglib/iocp/iocp_session_ioT.h:306-372 | on a prefix of a well-formed stream an answered call got the first message, or was told its size |
| `Framing.ReplySound` | inc/sglib/iocp/iocp_session_ioT.h:306-372 | on arbitrary bytes: which of the four answers a call gets, a frame behind each success or size reported, and what is left after it |
| `Framing.ParseMoreBytes` | inc/sglib/iocp/iocp_session_ioT.h:306-340 | answers already given stand when more bytes arrive, and the new bytes join the leftover |
| `Framing.ParseOneMore` | inc/sglib/iocp/iocp_session_ioT.h:150-155 | one more recv call is answered from the leftover of the earlier ones |
| `Framing.ParsePrefix` | inc/sglib/iocp/iocp_session_ioT.h:306-372 | on any prefix of a well-formed stream and any user buffers the delivered contents are a prefix of the messages, with no protocol error |
| `Framing.RestAligned` | inc/sglib/iocp/iocp_session_ioT.h:330-340 | after any calls on any prefix of a stream the leftover starts where a frame starts, and what is still to come carries exactly the messages not delivered |
| `Framing.ParseAll` | inc/sglib/iocp/iocp_session_ioT.h:306-372 | on the whole stream, as many large enough calls as messages deliver all messages, with small calls mixed in anywhere |
| `Framing.ParseConserves` | inc/sglib/iocp/iocp_session_ioT.h:330-340 | on arbitrary bytes the delivered frames and the leftover make up exactly what arrived |
| `Framing.ParseSound` | inc/sglib/iocp/iocp_session_ioT.h:306-372 | on arbitrary bytes what arrived is a stream of frames carrying exactly the messages delivered, and then the leftover |
| `Receiver.RefinesParser` | inc/sglib/iocp/iocp_session_ioT.h:306-372 | for any bytes in any pieces the outcomes and the bytes held are those of the whole-stream parser; only the last call can be unanswered |
| `Receiver.CutsDoNotMatter` | inc/sglib/iocp/iocp_session_ioT.h:306-340 | two runs with the same bytes cut differently and the same calls give the same outcomes and hold the same bytes |
| `Receiver.OnlyFramesDelivered` | inc/sglib/iocp/iocp_session_ioT.h:306-372 | over any bytes in any pieces, while no completion fills the ring: all that was reported as received came as frames, and nothing before the bytes still held is unaccounted for |
| `Receiver.RefinesIffNeverFills` | inc/sglib/iocp/iocp_buffer.h:42-72 | the receiver agrees with the parser after every step if and only if no completion fills the ring |
| `Receiver.FillingRun` | inc/sglib/iocp/iocp_buffer.h:42-72 | for every ring and every user buffer: one call and one completion with as many bytes as the spans take put the receiver out of step |
| `Receiver.NeverAnswered` | inc/sglib/iocp/iocp_session_ioT.h:361-371 | a frame whose size is between the ring size minus 8 and the ring size minus 1 never gets its call answered while the ring has room, over any run |
| `Receiver.FailedIsStable` | inc/sglib/iocp/iocp_session_ioT.h:324-340 | too small calls consume nothing and report the size needed; the first large enough one gets the message that was there from the start |
| `Receiver.MalformedIsForever` | inc/sglib/iocp/iocp_session_ioT.h:313-317 | once a malformed header is at the front every later event is a call answered by protocol_error, and nothing is delivered |
| `Receiver.CompletionProgress` | inc/sglib/iocp/iocp_session_ioT.h:306-340 | on a well-formed stream each completion answers the call, with the message or the size needed, or strictly lowers the bytes missing |
| `Receiver.RecvEnds` | inc/sglib/iocp/iocp_session_ioT.h:306-340 | a recv stays unanswered for fewer completions than its frame has missing bytes |
| `Sender.SendStepKeeps` | inc/sglib/iocp/iocp_session_ioT.h:293-304 | a partial completion strictly lowers what is left, and send_finished comes exactly with the acknowledgement of the last byte |
| `Sender.AcknowledgedOnce` | inc/sglib/iocp/iocp_session_ioT.h:250-304 | over any run the acknowledged bytes and the bytes left are all bytes posted, in order, and send_finished has come once for every batch but the one in hand |
| `SessionIo.WriteHeader` | inc/sglib/iocp/iocp_session_ioT.h:137-140 | bytes 0xfe and 0xef, and the size as four little-endian bytes; nothing else changes, the two padding bytes included |
| `SessionIo.WriteFrame` | inc/sglib/iocp/iocp_session_ioT.h:137-142 | a frame of the given content, with the bytes before it left alone |
| `SessionIo.Session.SendInit` | inc/sglib/iocp/iocp_session_ioT.h:126-129 | starts a batch of no messages with head and trail at the start of the buffer |
| `SessionIo.Session.SendAdd` | inc/sglib/iocp/iocp_session_ioT.h:130-145 | appends the frame of the data, so that the batch carries one message more, or changes nothing; after send_init it succeeds exactly when the frames added so far and this one stay strictly below the buffer's size |
| `SessionIo.Session.AddFrame` | inc/sglib/iocp/iocp_session_ioT.h:110-121 | the same for a content in two parts |
| `SessionIo.Session.Send` | inc/sglib/iocp/iocp_session_ioT.h:95-123 | posts a batch of exactly this message, with its notifications and return value, or returns -1 and changes nothing exactly when it cannot be held |
| `SessionIo.Session.PostSend` | inc/sglib/iocp/iocp_session_ioT.h:250-291 | always one span with all the bytes left, so the second length is zero; a refused post reports send_error and disconnected |
| `SessionIo.Session.SendPackages` | inc/sglib/iocp/iocp_session_ioT.h:146-148 | posts the stream of the messages added since the batch was begun, shorter than the buffer: the batch step of the sender machine |
| `SessionIo.Session.SendPackage` | inc/sglib/iocp/iocp_session_ioT.h:293-304 | is the acknowledgement step of the sender machine, with send_finished exactly when nothing is left |
| `SessionIo.Session.Receive` | inc/sglib/iocp/iocp_session_ioT.h:197-247 | hands out all free bytes with a first span that is not empty; a refused post reports recv_error and disconnected |
| `SessionIo.Session.ExtractPackage` | inc/sglib/iocp/iocp_session_ioT.h:343-372 | -1 exactly for a wrong magic or a size not from 1 to below the ring size, 1 exactly for a whole package, 0 otherwise, for every wrap of the header |
| `SessionIo.Session.TakePackage` | inc/sglib/iocp/iocp_session_ioT.h:330-339 | the user gets exactly the content and the ring loses exactly the frame |
| `SessionIo.Session.AnswerPackage` | inc/sglib/iocp/iocp_session_ioT.h:324-340 | a complete package is handed out exactly when the user's buffer is large enough, otherwise its size is reported and nothing moves |
| `SessionIo.Session.ExamineRing` | inc/sglib/iocp/iocp_session_ioT.h:310-340 | outcome, notification, size reported, user buffer and returned value are those of the receiver machine, with the cases spelt out on the ring's bytes |
| `SessionIo.Session.RecvPackage` | inc/sglib/iocp/iocp_session_ioT.h:306-340 | takes the new bytes in and is a step of the receiver machine, overflow included |
| `SessionIo.Session.Recv` | inc/sglib/iocp/iocp_session_ioT.h:150-155 | is the call step of the receiver machine, with its notification, the user's buffer filled with exactly the content or left alone, the size, and the value returned |
| `SessionIo.Session.ProcessIocp` | inc/sglib/iocp/iocp_session_ioT.h:157-193 | a completion is the matching step of the sender or of the receiver machine, with the notifications and the user's buffer of that step; zero bytes report the error and disconnected |
| `Link.LinkKeeps` | inc/sglib/iocp/iocp_session_ioT.h:126-340 | every step of sender, wire or receiver keeps the stream well-formed and the receiver on it |
| `Link.LinkDelivers` | inc/sglib/iocp/iocp_session_ioT.h:306-372 | in such a state the delivered messages are a prefix of the sent ones, and frames delivered plus bytes held are the bytes received |
| `Link.RoundTrip` | inc/sglib/iocp/iocp_session_ioT.h:126-155 | for all runs with batches as the session posts them: a prefix at any time, everything once all bytes are in and enough large enough calls were made |
| `Link.ReceiverAligned` | inc/sglib/iocp/iocp_session_ioT.h:306-340 | in every state of a link the bytes held are the beginning of the frame of the next message |
| `Link.LinkRecvEnds` | inc/sglib/iocp/iocp_session_ioT.h:197-340 | in every state of a link and over every run of its sender and its wire, batches posted in between included, a waiting recv gets the next message or its size within fewer completions than bytes are missing, and none comes before that message is sent |
| `Link.LinkIsChannel` | inc/sglib/iocp/iocp_session_ioT.h:126-340 | seen from the applications a link is a queue of messages: a batch appends, recv_finished takes the oldest with its exact content, nothing else changes it |
| `Link.OneFrameInFlight` | inc/sglib/iocp/iocp_buffer.h:74-78 | with one message under way the ring and the wire together hold less than the ring's size |
| `Link.RingNeverFills` | inc/sglib/iocp/iocp_session_ioT.h:197-212 | in every run of one-message-per-turn request and reply every completion the kernel can report has room, with each side one message behind at most |
| `QueueT.Fifo` | inc/sglib/sglib_queueT.h:59-102 | for any number of consumers the items taken and the items held are the items put, in order |
| `QueueT.WakeInvHolds` | inc/sglib/sglib_queueT.h:59-108 | with one consumer a sleeper with something to do finds the event set, and a set event always means there is something to do |
| `QueueT.NoLostWakeupIffOneConsumer` | inc/sglib/sglib_queueT.h:13-17 | no run loses a wakeup if and only if there is at most one consumer |
| `QueueT.OneWaitPerGet` | inc/sglib/sglib_queueT.h:90-94 | with one consumer the wait loop of a get never runs twice |
| `QueueT.PeekThenGet` | inc/sglib/iocp/iocp_loop.h:71-76 | after a successful peek get takes the oldest item without waiting, whatever the producers do in between |
| `QueueT.GetOutcome` | inc/sglib/sglib_queueT.h:71-102 | a get takes the oldest item put and not taken; on an empty queue it sleeps if it may wait and returns without an item if not; woken, it takes that item or sleeps again |
| `QueueT.GetsAreServed` | inc/sglib/sglib_queueT.h:71-102 | over every run before quit: the gets that may not come back empty-handed (they may wait, or find an item) are as many as the items taken and the consumers still inside a get |
| `QueueT.NothingAfterQuit` | inc/sglib/sglib_queueT.h:59-108 | over every run after quit nothing is put and nothing is taken |
| `BoundedQueues.RingBuf.constructor` | inc/sglib/sglib_queueT.h:346-355 | an empty queue of capacity exactly n |
| `BoundedQueues.RingBuf.Size` | inc/sglib/sglib_queueT.h:257-259 | the modular formula is the number of items |
| `BoundedQueues.RingBuf.IsFull` | inc/sglib/sglib_queueT.h:263-265 | first equals last exactly when n items are held |
| `BoundedQueues.RingBuf.PutSlot` | inc/sglib/sglib_queueT.h:266-269 | appends at the young end through any wrap |
| `BoundedQueues.RingBuf.GetSlot` | inc/sglib/sglib_queueT.h:270-273 | removes the oldest item through any wrap |
| `BoundedQueues.RingBuf.Put` | inc/sglib/sglib_queueT.h:293-308 | refines put of a FIFO of that capacity, with stop and the non-waiting form |
| `BoundedQueues.RingBuf.Get` | inc/sglib/sglib_queueT.h:312-329 | refines get of that FIFO |
| `BoundedQueues.RunKeeps` | inc/sglib/sglib_queueT.h:155-217 | capacity, order and both wake-up promises hold over every run of any threads |
| `BoundedQueues.PutOutcome` | inc/sglib/sglib_queueT.h:155-308 | a put appends and returns its count; on a full queue the thread sleeps with its item, and only a put to ringbufT that must not wait comes back |
| `BoundedQueues.GetOutcome` | inc/sglib/sglib_queueT.h:177-329 | a get takes the oldest item put and not taken, with its count; on an empty queue the thread sleeps, and only a get from ringbufT that must not wait comes back |
| `BoundedQueues.PeekOutcome` | inc/sglib/sglib_queueT.h:197-209 | a peek shows the oldest item put and not taken, with how many there are, and takes it exactly when asked to remove |
| `BoundedQueues.NoPutIsLost` | inc/sglib/sglib_queueT.h:155-173 | over every run from the start and before stop, for every item: the puts of it that may not give up are as many as the times it was appended and the sleeping producers that hold it |
| `BoundedQueues.GetsAreServed` | inc/sglib/sglib_queueT.h:177-195 | over every run before stop: the gets that may not come back empty-handed, and the removing peeks that find an item, are as many as the items taken and the consumers still asleep |
| `BoundedQueues.NoLostWakeup` | inc/sglib/sglib_queueT.h:155-355 | both bounded queues: a sleeper whose condition holds, or whom stop frees, finds its event set; a sleeping producer and consumer are never both stuck |
| `BoundedQueues.StopFreesEverybody` | inc/sglib/sglib_queueT.h:212-217 | after stop both events stay set, nothing is put, nothing is taken but by a removing peek, and every sleeping call can return in two steps of its own |
| `BoundedQueues.NoIdleWakeupIff` | inc/sglib/sglib_queueT.h:155-209 | in a run of queue_boundedT from its start no event is ever set for nothing if and only if no removing peek takes the last item before stop |
| `BoundedQueues.PeekLeavesEventSet` | inc/sglib/sglib_queueT.h:197-209 | for every bound: a put and a removing peek leave not_empty set on the empty queue |
| `BoundedQueues.RingHonestIff` | inc/sglib/sglib_queueT.h:293-336 | after any run of ringbufT no event is set for nothing if and only if stop was called, or it is not full after a get and not empty after a put |
| `BoundedQueues.RingLeavesEventSet` | inc/sglib/sglib_queueT.h:293-329 | for every bound: a put and a get leave not_empty set on the empty ring |
| `BoundedQueues.SpinsIffNothingThere` | inc/sglib/sglib_queueT.h:179-184 | a sleeper that passes a set event is back where it was, asleep with the event still set, if and only if there is nothing to take and no stop |
| `Boss.SessionBoss.SessionJoin` | inc/sglib/iocp/iocp_session.h:176-195 | uses up one number, puts connected for the session and lists it exactly when the port took it |
| `Boss.SessionBoss.SessionRemove` | inc/sglib/iocp/iocp_session.h:199-209 | erases the first entry of the session and tells whether there was one |
| `Boss.EraseRemoves` | inc/sglib/iocp/iocp_session.h:199-205 | from a list without repeats erasing takes out that session and no other |
| `Boss.HandlersDiffer` | inc/sglib/iocp/iocp_loop.h:79-129 | no two statuses share a handler, and each of the eight network packages has the handler of its name |
| `Lifecycle.Moves` | inc/sglib/iocp/iocp_session.h:247-278 | every step of every thread moves the token of at most one session from one place to one place |
| `Lifecycle.TokenKept` | inc/sglib/iocp/iocp_session.h:89-146 | a session never has two things going on, and none once disconnected was put |
| `Lifecycle.OrderedKept` | inc/sglib/iocp/iocp_session.h:92-146 | every put keeps connected first and disconnected last |
| `Lifecycle.ListKept` | inc/sglib/iocp/iocp_session.h:176-209 | every step keeps the boss list free of repeats and equal to the sessions joined and not removed |
| `Lifecycle.DisconnectedIsLast` | inc/sglib/iocp/iocp_session.h:247-289 | in every run each session's packages start with connected, come with at most one disconnected, and nothing follows it or can follow it |
| `Lifecycle.ErrorsExact` | inc/sglib/iocp/iocp_session.h:130-146 | in every run a disconnected session has failed or quit; it was sent send_error exactly if a send failed while its socket was open, recv_error exactly if a recv did; a session that quit has neither, and nothing but disconnected follows an error |
| `Lifecycle.FailureIsTold` | inc/sglib/iocp/iocp_session_ioT.h:166-180 | in every run in which its owner does not close its socket, a session that failed was sent the error of the operation that failed before disconnected |
| `Lifecycle.PackagesExact` | inc/sglib/iocp/iocp_session.h:92-146 | in every run the packages put for a session are exactly those its steps decided on, in order, but for what one thread is still to put |
| `Lifecycle.OperationsMatch` | inc/sglib/iocp/iocp_session_ioT.h:157-193 | in every run what the kernel or a thread has in hand for a session is the operation the application called last |
| `Lifecycle.NoticesAreOutcomes` | inc/sglib/iocp/iocp_session_ioT.h:293-340 | a completion handled by session_ioT notifies of one outcome of that operation, of nothing while it goes on, or of its error and the end |
| `Lifecycle.SingleToken` | inc/sglib/iocp/iocp_session.h:46-146 | in every run at most one operation, thread, queued notification or application permit exists for a session, and exactly one while its socket is open |
| `Lifecycle.BossListAgrees` | inc/sglib/iocp/iocp_session.h:176-209 | in every run the list is the sessions joined and not removed, and session_remove always finds its session |
| `Lifecycle.OpenKept` | inc/sglib/iocp/iocp_session_ioT.h:86-92 | no step makes an open session one that nothing will ever happen to |
| `Lifecycle.StrandedIff` | inc/sglib/iocp/iocp_session_ioT.h:293-340 | in every run a session is connected, never disconnected and held by nobody if and only if an operation of it came to its end after the owner had closed its socket; it then stays in the list |
| `Lifecycle.OwnerCloseStrands` | inc/sglib/iocp/iocp_session.h:211-217 | there is such a run with any two threads: a recv is posted, the owner closes the socket, and the message arrives |
| `Lifecycle.LiveMeaning` | inc/sglib/iocp/iocp_loop.h:87-96 | the count of connects and disconnects is about the set of sessions connected and not disconnected |
| `Lifecycle.LiveCounts` | inc/sglib/iocp/iocp_loop.h:87-96 | dispatching one more package changes the number of live sessions as tick changes its count |
| `Lifecycle.ConnectCountIsExact` | inc/sglib/iocp/iocp_loop.h:87-96 | the loop's count is the number of sessions dispatched as connected and not as disconnected, hence never negative |
| `Lifecycle.NobodyLeftAtZero` | inc/sglib/iocp/iocp_loop.h:87-96 | when the count is 0 every session whose connected package was dispatched has had its disconnected package dispatched, and nothing more can happen to it |
| `Lifecycle.RunDrivesQueue` | inc/sglib/sglib_queueT.h:59-91 | every run makes a run of queueT with one consumer: each package put is a put, each dispatch a get of that package |
| `Lifecycle.PackagesDispatchedInOrder` | inc/sglib/iocp/iocp_loop.h:74-79 | in every run the packages dispatched and the packages queued are the packages put, each once and in order |
| `Lifecycle.HandlersExact` | inc/sglib/iocp/iocp_loop.h:79-129 | in every run the handlers called for a session are what has happened to it, in that order: on_send_finished after a send, on_recv_finished, on_recv_failed or on_protocal_error after a recv, the error handler of the operation that failed |
| `ThreadPool.StepKeeps` | inc/sglib/thread/sglib_thread.h:96-176 | every step of worker and controller keeps the handshake, or the winding down after abort |
| `ThreadPool.WaitsEnd` | inc/sglib/thread/sglib_thread.h:96-159 | a wait in progress, and a worker after abort, always has a next step, and each brings it one nearer to the end |
| `ThreadPool.EachTaskRunsOnce` | inc/sglib/thread/sglib_thread.h:96-176 | in every interleaving of any number of workers: one of control, busy, done at most; the tasks started and finished are those given to thread_run, each once and in order, and all of them before a wait returns; one more start at most after abort |
| `FileTransfer.ServerLoop.Fread` | examples/server/server.cpp:36-37 | reads the next piece of the file, or what is left of it, into the shared buffer and leaves the rest of the buffer alone |
| `FileTransfer.ServerLoop.Read` | examples/server/server.cpp:31-48 | seeks, reads one piece into the shared buffer and keeps what ftell says in an int, back to 0 at the end of the file; a failing seek reads on from anywhere |
| `FileTransfer.ServerLoop.OnConnected` | examples/server/server.cpp:61-80 | sends the first piece |
| `FileTransfer.ServerLoop.OnRecvFinished` | examples/server/server.cpp:98-116 | answers "ok" with the next piece or the end marker, and anything else with nothing |
| `FileTransfer.ServerLoop.OnDisconnected` | examples/server/server.cpp:82-90 | one connection less, and the loop quits when none is left |
| `FileTransfer.RepliesMatter` | examples/server/server.cpp:98-116 | the server answers a message exactly when it is "ok" and otherwise keeps its place; the client says "ok" to every message unless that one completes its last copy |
| `FileTransfer.SharingShowsIff` | examples/server/server.cpp:31-48 | what a session is sent is the same for all states of the shared handle and buffer, and wherever a failing seek leads, if and only if its position is one that an int could keep |
| `FileTransfer.ClientData.OnRecvFinished` | examples/client/client.cpp:67-96 | a one-byte message ends a copy, opens the next or quits; any other is appended |
| `FileTransfer.ExampleSizesSuitLink` | examples/client/client.cpp:14 | the example's buffer sizes satisfy what request and reply need for the ring never to fill |
| `FileTransfer.StepKeeps` | examples/server/server.cpp:61-116 | every step of a connection keeps one message under way at most and the pair on its path, and strictly lowers what is left to do |
| `FileTransfer.EveryClientCopiesExactly` | examples/server/server.cpp:61-116 | any sessions, any interleaving, any failures: copies are exact so far and whole once the client has quit, each step nearer to the end and without effect on other sessions; where nothing has failed the client has quit, its session can go on, or the server takes it no more |
| `FileTransfer.RunCounts` | inc/sglib/iocp/iocp_loop.h:87-96 | in every run the count is the number of sessions connected and not disconnected, and the loop has quit only with none |
| `FileTransfer.RunKeepsLimit` | examples/server/server.cpp:156-168 | the limit given to the listener: in every run the sessions accepted and the room left of the listener's limit stay the same in sum |
| `FileTransfer.StrandedIff` | examples/server/server.cpp:82-90 | the server takes a session no more if and only if at some moment the listener was full or the count returned to 0 while the session was still to be connected |
| `FileTransfer.SettledIff` | examples/server/server.cpp:172-186 | where nothing has failed and a session can do nothing more, its client has exact copies if and only if the session was not left behind |
| `FileTransfer.LateSessionStranded` | examples/server/server.cpp:88-89 | for every file that is not empty there is a run in which nothing fails, the first client has done, the loop has quit, and the second client gets nothing |
| `FileTransfer.RunShort` | examples/client/client.cpp:72-86 | with one byte left over there is a run in which the client quits with its first copy one byte short |
| `FileTransfer.RunTooLong` | examples/server/server.cpp:13-45 | with a file longer than an int can say there is a run of two sessions in which a copy grows beyond the file, though every failing seek leaves the handle alone |
| `FileTransfer.EmptyFileFails` | examples/server/server.cpp:76-78 | an empty file is never copied |
| `FileTransfer.ExactIff` | examples/client/client.cpp:72-90 | over all runs: exact at every moment whatever fails, and complete in the end where nothing fails and the session is not left behind, if and only if the file is not empty, its length is an int, and that length modulo the piece size is not 1 |
| `ByteTransfer.RxAnswers` | inc/sglib/iocp/iocp_session_ioT.h:306-340 | in every state of a link a call with a large enough buffer is answered with the next message, at the latest when all bytes posted are in, unless a post fails |
| `ByteTransfer.MoveKeeps` | inc/sglib/iocp/iocp_session_ioT.h:157-304 | every completion the kernels can report on a link used by request and reply, failures included, has room, keeps that use and brings it nearer to rest |
| `ByteTransfer.StepMatches` | inc/sglib/iocp/iocp_session_ioT.h:95-340 | every step of a connection over bytes is the same handler step over messages, or is none and brings bytes nearer to rest |
| `ByteTransfer.RefinesMessages` | inc/sglib/iocp/iocp_session_ioT.h:95-340 | every run of any connections over bytes, failures included, is a run over messages: the one its dispatched packages make |
| `ByteTransfer.RefinesOrderly` | inc/sglib/iocp/iocp_session_ioT.h:157-193 | where nothing fails over bytes, a session ends at the server only because its client has quit |
| `ByteTransfer.RealizesMessages` | inc/sglib/iocp/iocp_session_ioT.h:95-340 | every run over messages in which nothing fails is a run over bytes in which nothing fails |
| `ByteTransfer.EveryClientCopiesExactly` | examples/server/server.cpp:61-116 | the same over bytes: any connections, any cuts, any interleaving, any failing posts, sends and receives |
| `ByteTransfer.SettledIff` | examples/server/server.cpp:172-186 | over bytes, where nothing has failed and a connection can do nothing more, its client has exact copies if and only if the connection was not left behind |
| `ByteTransfer.LateConnectionStranded` | examples/server/server.cpp:88-89 | over bytes there is such a run too: one client after the other, and the second gets nothing |
| `ByteTransfer.EmptyFileFails` | inc/sglib/iocp/iocp_session_ioT.h:347-353 | the bare header of an empty first message leaves client and server waiting for ever |
| `ByteTransfer.ExactIff` | examples/client/client.cpp:72-90 | over bytes: exact at every moment whatever fails, and complete in the end where nothing fails and the connection is not left behind, if and only if the file is not empty, its length is an int, and that length modulo the piece size is not 1 |
| `ByteTransfer.ExampleSuits` | examples/client/client.cpp:14 | the buffers of the example programs are large enough for that, so the same condition holds for them |
| `QueueT.Queue.Put` | inc/sglib/sglib_queueT.h:59-67 | appends and sets the event, or returns -1 and changes nothing after stop |
| `QueueT.Queue.Get` | inc/sglib/sglib_queueT.h:71-91 | get up to its first wait, with the reset when the last item goes |
| `QueueT.Queue.Resume` | inc/sglib/sglib_queueT.h:90-102 | get after a wake-up |
| `QueueT.Queue.Quit` | inc/sglib/sglib_queueT.h:104-108 | raises stop and sets the event |
| `QueueT.Queue.Size` | inc/sglib/sglib_queueT.h:51-56 | the number of items, or 0 after stop |
| `BoundedQueues.BoundedQueue.Put` | inc/sglib/sglib_queueT.h:155-173 | put from its loop test on, and after a wake-up, with its returned count and both events |
| `BoundedQueues.BoundedQueue.Get` | inc/sglib/sglib_queueT.h:177-195 | get from its loop test on, and after a wake-up, with its returned count and both events |
| `BoundedQueues.BoundedQueue.Peek` | inc/sglib/sglib_queueT.h:197-209 | shows the oldest item, or removes it and frees producers |
| `BoundedQueues.BoundedQueue.Quit` | inc/sglib/sglib_queueT.h:212-217 | raises stop and sets both events |
| `BoundedQueues.RingBuf.Stop` | inc/sglib/sglib_queueT.h:331-336 | raises stop and sets both events |
| `Boss.Loop.Peek` | inc/sglib/iocp/iocp_loop.h:71-73 | true exactly when a package is waiting and the queue is not stopped |
| `Boss.Loop.Tick` | inc/sglib/iocp/iocp_loop.h:74-129 | after a peek: the oldest package goes to the handler of its status, one equivalence for each, and the count and the quit flag follow it |

## Left out

- Preemption inside a critical section: what runs under a mutex is one step; only waits on events happen outside, and an event operation inside a section commutes with the wake-up it allows.
- Weak memory: threads see each other's writes in the order of the steps.
- `iocp_session`'s notification methods are steps of `Lifecycle` (test of the socket, then put) and not methods of a class, because threads interleave between test and put; its debug flag and the assertions on it are not modelled.
- The last writes of `disconected` after its put: the consumer may already have deleted the session there. Package order and list membership are claimed by session identity only.
- `thread_pool` is modelled on values, not as a class over its array, because controller and workers interleave between its statements; `thread_status`, which takes the done event away from a later wait, is left out.
- WSASend, WSARecv, completion ports, sockets and addresses: parameters or nondeterministic steps.
- `iocp::open`, `iocp::close`, `iocp_server`, `iocp_client`, `libsocket`: start-up, shutdown and a separate blocking client.
- `sessions_clear`, and `clear`, `init`, `reset`, `quit_thread_get`, `quit_thread_put` of the queues: called before use or after all threads have ended.
- post_noop_pack and post_quit_pack: packages put by the application itself; `Boss.Loop.Tick` dispatches them, `Lifecycle` does not put them.
- Data lengths above the range of int: lengths are those of the user's arrays, and a length plus 8 that overflows int is not modelled. The file position is modelled as the int it is.
- `FileTransfer` and `ByteTransfer` do not follow a connection beyond its first failure at the client's end: the client handles nothing more, and closing its file changes no bytes. That a connection ends after a failure is in `Lifecycle`.
- What the server does after its loop has quit: it closes all sockets, so a client left behind gets an error instead of waiting on.
- Files that cannot be opened or written or that change during the transfer, console output and file names; counters of copies and messages that pass the range of int.
