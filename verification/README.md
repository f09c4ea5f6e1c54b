# Verified models of the game server's core mechanisms

This project models the parts of the game server whose correctness depends on interleavings, arithmetic or
state carried from call to call, and proves what they guarantee. Each module follows one source component. Where
the source updates fields, the model has a class with those fields whose methods are proved against a value-level
meaning; where several goroutines meet, the model is a step system (one step per lock region or channel operation)
and the theorems are about every run of it. Sockets, clocks, timers and random bytes are inputs: a clock is a
sequence of readings, a short write or short read is a number chosen by the environment, a timeout is a step that
may always happen.

| file | what it models |
|---|---|
| `Common.dfy` | shared small datatypes |
| `Frame.dfy` | length-prefixed frames: codec, write and read loops, streams cut anywhere |
| `Gateway.dfy` | the gateway's hand-written header and message-ID decoding against that codec |
| `RawWrites.dfy` | bytes that did not come from the frame writer, between frames that did |
| `SharedConnection.dfy` | writers sharing one connection under the write lock, and a reader at the other end |
| `Connections.dfy` | the connection's fields: writing, closing, and reuse |
| `RpcTransport.dfy`, `RpcClients.dfy` | RPC callers, response loop, server loop, timeouts, teardown; the client's fields |
| `RpcResults.dfy` | what each call returns, told by the steps it took |
| `RpcWire.dfy`, `RpcCodec.dfy` | the same system down to its byte streams; a codec for it, and a call that succeeds over it |
| `CircuitBreakers.dfy`, `Retry.dfy` | the circuit breaker's history, and the retry loop that consults it |
| `RpcRetry.dfy` | the retry loop on top of the transport |
| `ConnectionPool.dfy`, `PoolLedger.dfy` | the RPC connection pool with its unsynchronised check-then-increment; the books of its connections |
| `ActorMailbox.dfy` | the actor's mailbox, run loop and life cycle |
| `ObjectPool.dfy` | pooled messages on the heap: ownership and reuse of buffers |
| `RateLimiter.dfy` | the fixed-window rate limiter |
| `Decimal.dfy`, `LoginToken.dfy` | printing and parsing numbers, hex and dotted lists; login tokens |
| `CardGame.dfy`, `CardGameState.dfy`, `CardGameMoves.dfy`, `CardGameProofs.dfy` | the card game: meaning of moves, the updating code, what each move changes, whole games |
| `Migrations.dfy`, `MigrationRuns.dfy`, `MigrationSteps.dfy` | the migration runner, what its runs leave behind, and why they end |
| `Rotation.dfy`, `NsqPublish.dfy`, `LoadBalancers.dfy` | turn taking, publishing with failover, service selection |

## What turned out not to hold unconditionally

Each of these is stated with the exact condition under which the code keeps its promise, or with the input on
which it does not.

- A frame writer compares the payload length after cutting it to 32 bits. An accepted payload reads back if and
  only if it is shorter than 2^32 bytes (`Frame.AcceptedFrameReadsBackIff`, `Frame.OversizedPayloadIsAccepted`).
- The gateway does not check what it sends. Of the responses its connection lets out, the readable ones are exactly
  those that are not empty and shorter than 2^32 - 4 bytes or, for a limit so large that the connection's own bound
  wraps, up to the limit (`Gateway.SentResponseReadableIff`). Every present caller sends a response with a message
  text, so no empty one is sent today.
- A broadcast hands its bytes to the connection without a length in front of them. Bytes written between frames leave
  those frames alone, and show as what a reader takes from them, if and only if they are whole frames themselves
  (`RawWrites.RawBytesAreTransparentIff`); a broadcast of a bare header makes the reader take another payload than
  the next response's, though no write failed (`RawWrites.BroadcastMisdelivers`,
  `SharedConnection.BroadcastBreaksFraming`).
- A connection's socket is closed more than once if and only if some Close follows a Reset that follows a Close
  (`Connections.SocketClosedAgainIff`): the flag that lets one caller close it is cleared when the connection
  goes back to the pool, while the heartbeat or Stop may still hold it (`Connections.SocketClosedTwice`).
- A write that fails after a proper part of its frame leaves a torn frame, and a later writer's frame is then read as
  something nobody sent (`SharedConnection.TornStreamMisdelivers`). Framing and correlation results therefore reach
  up to the first torn frame; a write that fails before its first byte or after its last one breaks nothing.
- A handler that fails with an empty error text is a success without data to its caller
  (`RpcTransport.AnswerIsOwn`). A method key tells its service and method if and only if neither name holds a dot
  (`RpcTransport.KeyIsUnambiguousIff`). Request IDs are fresh if and only if fewer than 2^64 are handed out.
- A call that passed the check of `running` before a teardown and registers after it is woken by nobody: a call that
  waits with an empty channel after a teardown is always such a call (`RpcTransport.StrandedCallsRegisteredLate`),
  once the response loop has ended it only ever times out (`RpcTransport.StrandedCallsTimeOut`), and it happens
  (`RpcTransport.StrandedCallExists`).
- The retry loop is not entered if and only if the retry count is negative (`Retry.NothingIffNegativeRetries`). The
  caller gets a nil result with a nil error then, and if and only if else the first success has no data
  (`Retry.EmptyHandedIff`).
- The RPC connection pool may count up to `maxSize - 1 + N` connections with N callers in Get, and that many are
  reached (`ConnectionPool.BoundIsReached`); for one caller the cap is exact.
- A message put back gets a small buffer if and only if the data set last were longer than 4096 bytes
  (`ObjectPool.MessagePool.Put`); a buffer that once grew large stays with a message whose last data were small
  (`ObjectPool.LargeBufferStays`).
- A validated play keeps the cards of the game if and only if the played ID occurs once in the hand: every card with
  that ID leaves the hand, and one comes onto the board (`CardGameProofs.PlayConservesCardsIff`).
- With two cards of one ID in a hand, a play can be offered that the validation refuses; the exact condition is that
  the first of them is too expensive and another is not (`CardGameProofs.OfferAgreesIff`).
- A migration whose record could not be written after its function had succeeded is called again by the next run
  (`MigrationRuns.NextRunBeginsWhereTheLastStopped`); Up then Down restores the records if and only if the target
  separates what was applied from what was not (`MigrationRuns.RecordsRestoredIff`).
- Round robin is fair for lists of one length; lists of changing length can starve a service for ever
  (`LoadBalancers.ChangingListsStarve`).

## Model

| member | source | states |
|---|---|---|
| Frame.HeaderHoldsLowBits | internal/network/frame.go:96-97 | The four header bytes read back as the payload length modulo 2^32, for every length. |
| Frame.CutStreamYieldsWholeFrames | internal/network/frame.go:47-73 | A stream of encoded payloads cut at any byte yields exactly the payloads that are whole, then a header error or a body error according to where the cut fell. |
| Frame.WholeFramesIsLargest | internal/network/frame.go:39-73 | The number of frames counted as whole is the largest whose encodings end at or before the cut. |
| Frame.StreamRoundTrip | internal/network/frame.go:39-106 | Every list of payloads of length 1 to the limit reads back as itself, then a clean end. |
| Frame.AcceptedFrameReadsBackIff | internal/network/frame.go:84-97 | What a reader under the same limit reads back is exactly what the writer accepts that is shorter than 2^32 bytes. |
| Frame.OversizedPayloadIsAccepted | internal/network/frame.go:85 | A payload of 2^32 bytes is accepted and its frame is rejected by every reader. |
| Frame.WriteFull | internal/network/frame.go:108-120 | Through any short writes what goes out is what the calls took, a prefix of the data, all of it on success; every call but a failing last one took something; it succeeds if no write fails or takes nothing. |
| Frame.WriteFrame | internal/network/frame.go:83-106 | Rejected exactly when empty or too long after truncation, and then nothing is written; on success exactly the frame is on the stream, on failure a prefix of it. |
| Frame.ReadFull | internal/network/frame.go:58-70 | Through reads of any size the buffer is filled with the next bytes exactly when the stream has that many left. |
| Frame.ReadFrame | internal/network/frame.go:47-73 | Whatever the sizes of the reads, the outcome and the rest of the stream are those of parsing the bytes to come. |
| Frame.ReadFrames | internal/network/tcp_server.go:243-253 | A connection's read loop yields the payloads of the stream up to its first bad frame, and that failure. |
| Frame.WriteFrames | internal/network/frame.go:77-106 | Writing payloads one after the other puts the concatenation of their frames on the stream. |
| Frame.SendAndReceive | internal/network/frame.go:47-120 | Payloads written through any short writes, cut anywhere and read through any short reads come back as exactly the whole ones among them, in order. |
| Gateway.SendResponse | internal/server/gateway_server.go:380-389 | The hand-filled buffer is the frame encoding of the response. |
| Gateway.ResponseReadableIff | internal/server/gateway_server.go:380-389 | What is sent reads back as the response if and only if the response has a length from 1 to the reader's limit. |
| Gateway.SentResponseReadableIff | internal/network/tcp_server.go:56-58 | Of the responses the connection's own check lets out under the same limit, whatever that is, exactly those are readable that are not empty and shorter than the larger of 2^32 - 4 and the limit plus one. |
| Gateway.EmptyResponseIsRejected | internal/server/gateway_server.go:380-389 | An empty response passes the connection's check and is rejected by the frame reader. |
| Gateway.FramedMessageDecodes | internal/server/gateway_server.go:127-138 | A frame holding a message ID and a body is decoded to that ID and that body. |
| RawWrites.RawBytesAreTransparentIff | internal/network/tcp_server.go:350-356 | For any bytes and any limit: written between any fitting frames they leave those as they are and show as what a reader takes from them alone, if and only if they are whole frames themselves. |
| RawWrites.BroadcastMisdelivers | internal/server/gateway_server.go:454-456 | A broadcast of the bytes 0, 0, 0, 1 before a response of one byte is read as another payload, under every limit. |
| SharedConnection.StepKeepsInv | internal/network/tcp_server.go:47-105 | Every step of every writer, whatever bytes it writes, and of the reader, Close and Reset keeps the lock, order, stream and reader invariants. |
| SharedConnection.RunKeepsInv | internal/network/tcp_server.go:47-65 | So does every run. |
| SharedConnection.StreamIsMergeOfWriters | internal/network/tcp_server.go:47-65 | In every interleaving and for any bytes written, a broadcast's included, the stream up to the first torn write is whole writes and at most a proper part of the next: a merge that keeps each writer's order and leaves out exactly the writes that failed before a byte got out. |
| SharedConnection.FramedWritesAreRead | internal/network/tcp_server.go:47-65 | Where every write is whole frames, what a reader takes from the stream up to the first torn write is the frames of the whole writes in order, then those whole in the part of the next. |
| SharedConnection.ReaderGetsFramesInOrder | internal/rpc/rpc.go:582-591 | The frames the reader takes are those of the stream, in order, whatever is written; where every write is one frame, as all RPC requests, RPC answers and gateway responses are, the i-th it takes is the i-th that got onto the stream, as long as it was whole before the first torn one. |
| SharedConnection.NothingWholeLeft | internal/network/tcp_server.go:243-253 | Where every write is one frame and none is torn, a reader that has taken every whole frame finds no further frame. |
| SharedConnection.TornStreamMisdelivers | internal/network/frame.go:99-104 | After a write that failed inside a frame, a reader can take a payload nobody sent. |
| SharedConnection.BroadcastBreaksFraming | internal/network/tcp_server.go:350-356 | A run without a failed write in which a reader takes a payload nobody sent: four broadcast bytes, then a response's frame. |
| Connections.Connection.Write | internal/network/tcp_server.go:47-65 | Any bytes: refused exactly when closed or too long after truncation, and then nothing goes out; else what the socket took, a prefix of the data, is on the stream, all of it on success. |
| Connections.WriteIsARun | internal/network/tcp_server.go:52-64 | Any bytes written under the lock, in whatever pieces the socket takes, are a run of the step system (lock, chunks, then unlock or failure) with the same bytes on the stream and the lock free again. |
| Connections.Connection.Close | internal/network/tcp_server.go:86-92 | Only the call that sets the flag closes the socket. |
| Connections.Connection.Reset | internal/network/tcp_server.go:100-105 | The flag is clear again and the socket untouched. |
| Connections.SocketClosedAgainIff | internal/network/tcp_server.go:86-105 | In every run the socket is closed more than once if and only if some Close follows a Reset that follows a Close. |
| Connections.SocketClosedTwice | internal/network/tcp_server.go:234-236 | Close, Reset, Close closes it twice, from any beginning. |
| RpcTransport.ResultOfOwnAnswer | internal/rpc/rpc.go:221-258 | A caller sees data exactly when the method exists and its handler succeeded with them, or failed with an empty text (then no data). |
| RpcTransport.StepKeepsInv | internal/rpc/rpc.go:541-674 | Every step of callers, server, response loop, timeouts and teardown keeps ticket, registry and correlation invariants. |
| RpcTransport.RunKeepsInv | internal/rpc/rpc.go:541-674 | So does every run that hands out fewer than 2^64 IDs. |
| RpcTransport.AnswerIsOwn | internal/rpc/rpc.go:541-621 | In every interleaving an answer taken by a call is the server's answer to that call's own ID, service, method and arguments, and data are returned exactly when that handler produced them. |
| RpcTransport.DataComesFromAnAnswer | internal/rpc/rpc.go:600-620 | A call returns data or a remote error only by taking an answer of the server from its own channel. |
| RpcTransport.AnswersReachOneCall | internal/rpc/rpc.go:663-672 | No answer reaches two calls, a late answer never reaches another attempt such as the retry, and an answer under ID 0 reaches nobody. |
| RpcTransport.HandOverReachesItsCall | internal/rpc/rpc.go:663-672 | An answer handed over goes into the channel of the call whose ID it carries if that is registered and its channel empty, into no other, and is dropped otherwise. |
| RpcTransport.CallbacksAreInFlight | internal/rpc/rpc.go:573-619 | The callback map holds only IDs of calls in flight, each leading to its own call, and is empty when there are none. |
| RpcTransport.WaitingCallsAreReachable | internal/rpc/rpc.go:600-672 | A waiting call is registered or has something in its channel, at every moment; so while the client runs, the response loop or a teardown still reaches it. |
| RpcTransport.TearDownWakesEverybody | internal/rpc/rpc.go:473-501 | Disconnect, and the end of the response loop, empties the map and leaves something in the channel of every waiting call; it takes no answer out of a channel and puts nothing into one that is not registered. |
| RpcTransport.StrandedCallsRegisteredLate | internal/rpc/rpc.go:541-577 | In every run with a teardown, a call that afterwards waits with an empty channel had not registered when the teardown happened. |
| RpcTransport.StrandedCallsTimeOut | internal/rpc/rpc.go:600-620 | Once the client is torn down and its response loop has ended, a call that waits with an empty channel gets nothing for ever: one that has sent its request returns nothing but a timeout, one that has not, nothing but that or its failed write. |
| RpcTransport.StrandedCallExists | internal/rpc/rpc.go:541-598 | Such a call exists: it passes the check, the client disconnects, it registers and sends, and the loop ends. |
| RpcResults.CallsReturnWhatHappened | internal/rpc/rpc.go:541-620 | In every interleaving a returned call has a timeout exactly if its wait ran out, a send error exactly if its write failed, "not connected" exactly if the client did not run when it came; in every other case, and no other, it took something from its channel, of which nil becomes a closed connection, an error text that error, and anything else its data. |
| RpcResults.AnswersReadAs | internal/rpc/rpc.go:221-258 | A caller reads an unknown method and a handler's failure with a text as just that error, success as its data, and a failure without a text as no data. |
| RpcResults.NothingIsSentOnceClosed | internal/rpc/rpc.go:473-501 | In every run, once the connection is closed no further request is sent whole. |
| RpcTransport.IdsAreFreshIff | internal/rpc/rpc.go:560 | The first n IDs differ from each other and from 0 if and only if n is below 2^64. |
| RpcTransport.MethodKeyIsInjective | internal/rpc/rpc.go:231 | Method keys agree exactly for equal service and method, if service names hold no dot. |
| RpcTransport.KeyIsUnambiguousIff | internal/rpc/rpc.go:231 | A key belongs to one service and method only, if and only if neither name holds a dot. |
| RpcTransport.DottedNamesCollide | internal/rpc/rpc.go:231 | For every service and method with a dot in either name there is another pair with the same key. |
| RpcTransport.DottedServicesCollide | internal/rpc/rpc.go:231 | The shortest such pair. |
| RpcWire.MoveIsAStep | internal/rpc/rpc.go:541-674 | Simulation: every step on encoded, framed and possibly torn byte streams is an enabled step of the message-level system, and keeps the streams in agreement with it. |
| RpcWire.BytesRefineMessages | internal/rpc/rpc.go:541-674 | Every run on byte streams is a run of the message-level system that reaches the same state. |
| RpcWire.ReadsTheNext | internal/network/frame.go:47-73 | From a stream of frames cut anywhere a reader can only take the next payload, whatever its own frame limit. |
| RpcWire.ServerReads | internal/rpc/rpc.go:196-206 | The server decodes the requests in the order they were written, up to the first torn one. |
| RpcWire.LoopReads | internal/rpc/rpc.go:644-661 | The response loop decodes the answers in the order they were given, also when the server's last write was cut. |
| RpcWire.EndToEnd | internal/rpc/rpc.go:187-258 | In every interleaving on byte streams, torn requests included, over any codec that decodes what it encodes, a call that returns data took them from an answer; unless that came after a torn request, it is the server's handling of the call's own request: own ID, service, method and arguments, an existing method, and a handler that succeeded with those data or failed with an empty text. |
| RpcCodec.CodecIsFaithful | internal/rpc/rpc.go:580 | A codec that decodes every request and every answer it encodes exists. |
| RpcCodec.ACallCanSucceed | internal/rpc/rpc.go:541-613 | Over any such codec, for every call of an existing method and all data whose messages fit both ends' limits, there is a run in which the call returns those data. |
| RpcClients.RpcClient.NextID | internal/rpc/rpc.go:560 | The ID is the next number, wrapping at 64 bits; nothing else changes. |
| RpcClients.RpcClient.NewChannel | internal/rpc/rpc.go:574 | A fresh empty channel of its own call; nothing else changes. |
| RpcClients.RpcClient.Register | internal/rpc/rpc.go:575-577 | The ID leads to this call's channel; nothing else changes. |
| RpcClients.RpcClient.Remove | internal/rpc/rpc.go:603-605 | The ID is forgotten; nothing else changes. |
| RpcClients.RpcClient.HandOver | internal/rpc/rpc.go:664-672 | The answer goes into the channel registered under its ID if that is empty, and nowhere else. |
| RpcClients.RpcClient.Take | internal/rpc/rpc.go:600-605 | A call empties its own channel and gets what was in it. |
| RpcClients.RpcClient.WakeAll | internal/rpc/rpc.go:484-489 | In whatever order the map is walked, exactly the empty channels of registered calls receive nil. |
| RpcClients.RpcClient.TearDownAll | internal/rpc/rpc.go:625-641 | A running client stops, wakes every registered call and forgets them all; one that is not running is left as it is. |
| CircuitBreakers.CircuitBreaker.constructor | internal/rpc/rpc.go:377-389 | A closed breaker without failures; missing settings become 5 failures and 30 seconds. |
| CircuitBreakers.CircuitBreaker.Allow | internal/rpc/rpc.go:391-399 | Refuses exactly when open and not past the deadline; otherwise an open breaker becomes half open. |
| CircuitBreakers.CircuitBreaker.RecordSuccess | internal/rpc/rpc.go:401-406 | Closes the breaker and clears the failures. |
| CircuitBreakers.CircuitBreaker.RecordFailure | internal/rpc/rpc.go:408-416 | Counts the failure, and opens until the timeout after now once the threshold is reached. |
| CircuitBreakers.HistoryDecides | internal/rpc/rpc.go:391-416 | In every interleaving the failures are those since the last success, the breaker is closed exactly while they are below the threshold, half open exactly if a call has come after the timeout since, and a call is refused exactly when they have reached it and the last is at most the timeout ago. |
| CircuitBreakers.RefusedUntilTimeout | internal/rpc/rpc.go:391-416 | After a failure that leaves the count at the threshold or above, every call up to the timeout is refused unless a success is recorded. |
| Retry.CallWithOptions | internal/rpc/rpc.go:514-539 | The loop's answer, number of attempts and breaker are those of the passes' meaning, which LoopDoes and LoopLeaves tell. |
| Retry.LoopDoes | internal/rpc/rpc.go:514-539 | On any breaker and for any retry count: the breaker as it then is lets every attempt through, all but the last fail, the loop ends with a success, with the first refusal, or with its last error when the attempts are used up, and the breaker left is the one found with exactly the loop's own attempts recorded in order. |
| Retry.LoopLeaves | internal/rpc/rpc.go:401-416 | After a success the breaker is closed without failures, however many there were; else each attempt has added one, and from the threshold on it is open until the timeout after the last. |
| Retry.HistoryGoesOn | internal/rpc/rpc.go:514-539 | From call to call the breaker's history is the history before followed by the loop's attempts. |
| Retry.RetryStopsAt | internal/rpc/rpc.go:514-539 | A lone call makes min(retries + 1, threshold - failures, first success) attempts, and returns that success, CircuitOpen exactly when the budget of failures ran out with retries left, or the last error. |
| Retry.NothingIffNegativeRetries | internal/rpc/rpc.go:521-538 | On any breaker the loop is not entered if and only if the retry count is negative, and no attempt is made if and only if so or the breaker refuses the first. |
| Retry.EmptyHandedIff | internal/rpc/rpc.go:521-538 | On any breaker the caller gets a nil result with a nil error if and only if the retry count is negative or the first success among the attempts made has no data. |
| RpcRetry.RetriedDataAreOwn | internal/rpc/rpc.go:514-621 | When the loop's passes are attempts of one transport run, data it returns are those of its last attempt after all before it failed, and, unless taken after a torn request, the server's answer to that very attempt's request and to none of the earlier ones. |
| ConnectionPool.StepKeepsAccount | internal/rpc/rpc.go:724-775 | Every step keeps `created` equal to idle, held and dying connections together. |
| ConnectionPool.StepKeepsBound | internal/rpc/rpc.go:733-740 | Every step keeps created plus dialling connections within maxSize - 1 plus the number of getters. |
| ConnectionPool.RunKeepsInv | internal/rpc/rpc.go:724-775 | So does every run. |
| ConnectionPool.CreatedIsAccountedAndBounded | internal/rpc/rpc.go:724-775 | In every interleaving the account holds, created is at most maxSize - 1 + N with N callers in Get, and Put turns a connection away only when more than maxSize are counted. |
| ConnectionPool.OneGetterKeepsTheCap | internal/rpc/rpc.go:724-775 | With one caller in Get at a time created is at most maxSize, and what Put has found running always goes back into the channel. |
| PoolLedger.BooksBalance | internal/rpc/rpc.go:724-775 | In every interleaving running connections come only from dialling and go only by dying or by being turned away from a full pool; only what Get or Put found dead, or Put turned away, is discarded and uncounted; and what is idle, lent, being put back and in Get is what the steps make of it. |
| PoolLedger.NothingIsLostWithoutDeath | internal/rpc/rpc.go:759-775 | While no connection dies none is found dead, for any number of callers; with one caller in Get none is discarded either, and created never falls. |
| ConnectionPool.BoundIsReached | internal/rpc/rpc.go:733-740 | For every size and number of callers some interleaving counts exactly maxSize - 1 + N connections. |
| ConnectionPool.RPCConnectionPool.Get | internal/rpc/rpc.go:724-756 | Get terminates and follows its plan, whatever clients are put back while it waits: fields and caller get exactly what the plan says. |
| ConnectionPool.PlanIs | internal/rpc/rpc.go:724-756 | The plan in closed form: the dead clients before the first live one in the channel are dropped and that one is lent; with none, the dead ones put back meanwhile are dropped until one lives, there is room, or no more come, and Get lends the live one, dials, or gives up. |
| ConnectionPool.RPCConnectionPool.Put | internal/rpc/rpc.go:759-775 | A dead client is uncounted, a live one goes to the end of the channel, or is closed and uncounted when that is full; a pool within its cap keeps every live client. |
| ActorMailbox.RunKeepsInv | internal/actor/actor.go:99-213 | Every interleaving of Start, Stop, Tell and the run loop keeps the invariants on goroutines, lock, log, counters and life cycle. |
| ActorMailbox.LogIsConsumedHandledAndMailbox | internal/actor/actor.go:142-213 | At every step, across restarts, the accepted messages are those consumed (skipped nils included), the one in the handler and the mailbox, in order; the handler got the proper ones in that order. |
| ActorMailbox.OneHandlerAtATime | internal/actor/actor.go:99-139 | At most one run loop is alive, and messages get in only while the actor runs. |
| ActorMailbox.CountersBalance | internal/actor/actor.go:150-204 | Enqueued messages are consumed, handled or in the mailbox once their senders have counted them, and processed counts the handled ones. |
| ActorMailbox.CountersCount | internal/actor/actor.go:150-204 | Over any run each counter grows by exactly the steps it counts: accepted messages, handled ones, those whose handler ended in an error, and rejected ones. |
| ActorMailbox.LifeCycleIsOrdered | internal/actor/actor.go:99-139 | Each incarnation orders a successful OnStart before its messages, handled one at a time, before OnStop. |
| ActorMailbox.BaseActor.Start | internal/actor/actor.go:99-121 | Runs OnStart exactly if the actor was not running, and runs afterwards if it succeeded; the mailbox is kept. |
| ActorMailbox.BaseActor.Tell | internal/actor/actor.go:142-158 | Accepts exactly when running and the mailbox has room or the loop comes round in time: last in line, or directly into the handler when there is no mailbox to wait in; else a full mailbox counts a rejection. What the loop handles meanwhile is counted, its error too. |
| ActorMailbox.BaseActor.Deliver | internal/actor/actor.go:193-206 | One pass takes the first message, skips nil and hands anything else to the handler; that is counted as processed, and as failed exactly if the handler errs. |
| ActorMailbox.BaseActor.Drain | internal/actor/actor.go:188-213 | Left alone the loop empties the mailbox, handles its messages one by one in order, and adds to processed the number of them and to failed the number whose handler errs; everything ever accepted has been consumed in order. |
| ActorMailbox.BaseActor.Stop | internal/actor/actor.go:124-139 | A running actor ends with OnStop and keeps its mailbox; one that is not running does nothing. |
| ObjectPool.Message.Reset | internal/pool/object_pool.go:110-118 | Empties the message and replaces a buffer in use beyond 4096 bytes by one of 1024. |
| ObjectPool.Message.SetData | internal/pool/object_pool.go:121-128 | The message shows exactly the bytes, in its own buffer or a fresh one, which is as long as the longer of the old one and the bytes. |
| ObjectPool.MessagePool.Get | internal/pool/object_pool.go:39-60 | Lends the oldest idle message; with none, a new one that is counted if there is room; else the one another holder puts back in time, or a new one that is not counted. Nobody else holds it and it is empty. |
| ObjectPool.MessagePool.SetData | internal/pool/object_pool.go:121-128 | The holder's data become the bytes; no other holder's data change. |
| ObjectPool.MessagePool.Read | internal/pool/object_pool.go:103-107 | A holder reads what it last set. |
| ObjectPool.MessagePool.Put | internal/pool/object_pool.go:63-80 | The message is no longer held; it is reset and last among the idle ones, of which there are never more than maxSize, or dropped; its buffer is replaced by one of 1024 bytes exactly if the holder had set more than 4096 last. |
| ObjectPool.LargeBufferStays | internal/pool/object_pool.go:110-128 | After large data, then small, then a reset, the large buffer is still there. |
| ObjectPool.Lend | internal/pool/object_pool.go:39-60 | A message put back during an acquisition is handed over if the acquisition has to wait for one, else it goes behind; either way the acquirer gets an empty message of its own and all other holders keep theirs. |
| ObjectPool.Do | internal/pool/object_pool.go:39-128 | Each operation, an acquisition during which another holder puts its message back included, keeps every holder's message its own and showing what it should. |
| ObjectPool.Serve | internal/pool/object_pool.go:39-128 | Non-interference: whatever many holders do on one pool of any size, hand-overs to waiting holders included, they read what they would read if each had a private value. |
| RateLimiter.RateLimitManager.CheckLimit | internal/security/security.go:381-411 | The verdict and the new limiters are those of rolling the window, then counting if below the maximum; other keys are untouched. |
| RateLimiter.BoundOverEveryInterval | internal/security/security.go:381-411 | In any time interval of at most k windows at most (k + 1) * maxRequests calls for a key are let through, whatever the calls and the clock. |
| RateLimiter.BoundIsMet | internal/security/security.go:385-410 | For every maximum, every k and every window of at least k ticks, some calls have exactly (k + 1) * maxRequests let through in k windows: the bound cannot be lowered. |
| RateLimiter.RejectionIsJustified | internal/security/security.go:396-407 | A rejected call finds a window opened at most one window ago, in which exactly the maximum were let through. |
| RateLimiter.KeysDoNotInterfere | internal/security/security.go:385-394 | A key's limiter and verdicts are what they would be if no other key were used. |
| Decimal.ParseOfFormat | internal/server/login_server.go:443 | An unsigned 64-bit number survives printing and parsing. |
| Decimal.ParseOfFormatInt | internal/server/login_server.go:447-454 | So does a signed one. |
| Decimal.ReadIffInRange | internal/server/login_server.go:443-454 | Digits with or without a sign are read as the number they stand for, exactly if that is in the 64-bit range. |
| Decimal.FormatIntIsInjective | internal/server/login_server.go:416 | Different integers print differently. |
| Decimal.HexIsInjective | internal/server/login_server.go:416-419 | Different byte strings have different hex codes. |
| Decimal.SplitOfJoin | internal/server/login_server.go:430-435 | Splitting at dots undoes joining with dots, if no part holds one. |
| Decimal.JoinOfSplit | internal/server/login_server.go:430-435 | Joining undoes splitting, for every string. |
| LoginToken.TokenSplits | internal/server/login_server.go:409-431 | A generated token splits into its three numbers, its nonce and its code. |
| LoginToken.ValidationOfGenerated | internal/server/login_server.go:409-464 | For every user, issue and expiry time, nonce and pair of secrets: the claims come back exactly when the codes agree and the time is at most the expiry; otherwise a signature or an expiry error. |
| LoginToken.SameSecretRoundTrip | internal/server/login_server.go:409-464 | Under one secret the claims come back if and only if the token has not expired. |
| LoginToken.PayloadIsInjective | internal/server/login_server.go:416 | Different claims or nonces print to different payloads. |
| LoginToken.AcceptedIsSigned | internal/server/login_server.go:429-464 | Every accepted token is a payload of four parts followed by its code, holds the returned claims and has not expired. |
| CardGameState.GameState.ValidatePlayCard | plugins/game_logic.go:76-116 | The verdict, with its error in the order of the checks, for the first card with the ID. |
| CardGameState.GameState.ProcessPlayCard | plugins/game_logic.go:119-154 | The new game is the play's meaning: every card with the ID leaves the hand, the last of them is paid for, put on the board and takes effect. |
| CardGameState.GameState.ProcessCardEffect | plugins/game_logic.go:244-291 | Draw, heal up to 30, or one damage to every card on the board; other effects change nothing. |
| CardGameState.GameState.ValidateAttackBy | plugins/game_logic.go:157-183 | The verdict, with its error in the order of the checks. |
| CardGameState.GameState.ProcessAttack | plugins/game_logic.go:186-241 | The new game is the attack's meaning (see AttackOnCard and AttackOnHero), also when attacker and target are one card; an error exactly when the attacker is not on the board. |
| CardGameState.GameState.EndTurnOf | plugins/game_logic.go:294-329 | The turn passes exactly if its owner ends it, with mana and deck of the other player renewed. |
| CardGameState.GameState.CheckWinCondition | plugins/game_logic.go:342-353 | Whether a hero is dead, and the opponent of the first dead one. |
| CardGameState.GameState.GetValidActions | plugins/game_logic.go:356-388 | The offered actions, in order. |
| CardGameState.ShuffleDeck | plugins/game_logic.go:455-466 | A fresh deck, made by swaps from the last position down at the clock's readings; the given deck is untouched. |
| CardGameState.ShufflePermutes | plugins/game_logic.go:455-466 | Shuffling loses no card and adds none, for all clock readings. |
| CardGameState.EveryOrderIsReached | plugins/game_logic.go:460-463 | For every order of the cards and every time to start at, there are readings of a clock that does not run backwards that shuffle to it. |
| CardGameMoves.AttackOnCard | plugins/game_logic.go:186-226 | The last cards with the two IDs each lose the other's attack, a card that attacks itself twice its own; exactly the cards with health left stay, in order and otherwise as they were, and nothing else in the game changes. |
| CardGameMoves.AttackOnHero | plugins/game_logic.go:227-241 | With no such target the opponent's hero loses the attacker's attack and the phase is "ended" exactly if that leaves it no health; with no attacker nothing happens. |
| CardGameMoves.PlayDoes | plugins/game_logic.go:119-154 | Every card with the ID leaves the hand, the others stay in order; the last of them is paid for and comes last on the board, and its effect is a card less in the deck, 3 health up to 30, or one damage to all on the board; nothing else changes. |
| CardGameMoves.PlayIsRefusedFor | plugins/game_logic.go:76-116 | When exactly a play gets each error, judged by the first card with the ID. |
| CardGameMoves.AttackIsRefusedFor | plugins/game_logic.go:157-183 | When exactly an attack gets each error. |
| CardGameMoves.OffersAre | plugins/game_logic.go:356-388 | The offer is the affordable cards in hand order, then the end of the turn; in combat all cards on the board in order, then the end of combat; else nothing. |
| CardGameMoves.TurnPasses | plugins/game_logic.go:294-329 | The other player gets one more mana up to 10, all of it to spend, and a card less in the deck if there is one; nothing else changes, and nothing at all if another player ends the turn. |
| CardGameMoves.ManaIsWhatIsLeft | plugins/game_logic.go:119-329 | In every game the mana of the player to move is its maximum less the costs of what it played since its turn began. |
| CardGameMoves.DecksAreDrawnFrom | plugins/game_logic.go:244-329 | In every game a deck is what it was less what its player drew by beginning turns and by cards, and never below 0. |
| CardGameProofs.WinnerEndedTheGame | plugins/game_logic.go:186-241 | In every game from two living heroes a winner is reported if and only if the phase is "ended"; then exactly one hero is dead and the winner is the player whose attack ended the game. |
| CardGameProofs.WinnerStays | plugins/game_logic.go:342-353 | However the game goes on, the reported winner stays. |
| CardGameProofs.LimitsAlwaysHold | plugins/game_logic.go:119-329 | In every game 0 <= mana <= maximum <= 10, health <= 30 and decks stay at or above 0; a player's maximum is what it began with plus the turns it began, at most 10. |
| CardGameProofs.PlayConservesCardsIff | plugins/game_logic.go:119-154 | A validated play keeps the multiset of card IDs in hands and on the board if and only if the ID occurs once in the hand. |
| CardGameProofs.EveryPlayConservesCards | plugins/game_logic.go:119-154 | With distinct IDs in each hand at the start, every play in every game keeps it. |
| CardGameProofs.OfferAgreesIff | plugins/game_logic.go:356-375 | Offer and validation of a card at a legal position agree if and only if it is not the case that the first card with the ID is too expensive and another one is not. |
| CardGameProofs.OfferedPlaysAreLegal | plugins/game_logic.go:356-388 | With distinct IDs in the hand, playing a card is offered if and only if the validation accepts it at a legal position. |
| CardGameProofs.OfferedAttacksAreLegal | plugins/game_logic.go:377-385 | Attacking with a card is offered if and only if the validation accepts it. |
| Migrations.MigrationRunner.constructor | internal/database/migrations.go:35-40 | The caller's own slice is sorted and kept. |
| Migrations.MigrationRunner.Up | internal/database/migrations.go:42-69 | Store and error are those of running up, under every fault of the store. |
| Migrations.MigrationRunner.Down | internal/database/migrations.go:71-92 | Store and error are those of running down, under every fault of the store. |
| Migrations.SortAscends | internal/database/migrations.go:36-38 | Distinct versions come out in ascending order, none lost. |
| Migrations.SortIsForced | internal/database/migrations.go:36-38 | There is only one ascending order, so the library's algorithm does not matter. |
| MigrationRuns.UpAppliesTheMissing | internal/database/migrations.go:42-69 | Up calls exactly the missing migrations once each in ascending order and records them; a failure at a version leaves the missing ones below it recorded; a failure before that changes nothing. |
| MigrationRuns.DownUndoesTheSurplus | internal/database/migrations.go:71-92 | Down undoes exactly the known applied versions above the target, once each in descending order, up to the first that fails, which is itself known, applied and above the target; a failure before that changes nothing. |
| MigrationRuns.UpIsIdempotent | internal/database/migrations.go:50-53 | After a success a further Up changes nothing and calls nothing. |
| MigrationRuns.NextRunBeginsWhereTheLastStopped | internal/database/migrations.go:50-67 | After a failed run the next one begins with the version that failed, and the two together record every version; that version's function is called twice exactly if the first run had called it. |
| MigrationRuns.UpThenDownRestores | internal/database/migrations.go:42-92 | Schema and records are restored if the target separates the known applied versions from the others and those are reversible. |
| MigrationRuns.RecordsRestoredIff | internal/database/migrations.go:42-92 | For the records that condition on the target is necessary and sufficient. |
| MigrationSteps.UpEndsFor | internal/database/migrations.go:42-69 | A run up fails for want of the index or the records, and then changes nothing, or at the first missing migration, each applied to the schema the ones before left, that has no function, whose function fails, or whose record is refused; otherwise it succeeds; the schema left is that of the functions called. |
| MigrationSteps.DownEndsFor | internal/database/migrations.go:71-92 | A run down likewise, with the applied migrations above the target taken from the last. |
| NsqPublish.NSQManager.NextStart | internal/mq/nsq.go:235-239 | The locked part hands out consecutive turns. |
| NsqPublish.NSQManager.PublishWithLoadBalancing | internal/mq/nsq.go:234-259 | Whatever the producers answer, the tries follow the order (the turn's producer, then with failover the others in list order) up to the first acceptance, and nil is returned exactly if there is one. |
| NsqPublish.NSQManager.Publish | internal/mq/nsq.go:226-231 | The same, or one try of the main producer when load is not shared. |
| NsqPublish.NilIffOneAccepted | internal/mq/nsq.go:234-259 | A call returns nil if and only if exactly one producer accepted, no producer is tried twice, and an error with failover means every producer was tried once and refused. |
| NsqPublish.FailoverFindsAWillingProducer | internal/mq/nsq.go:244-256 | With failover a call succeeds if and only if some producer would accept. |
| NsqPublish.StepKeepsInv | internal/mq/nsq.go:234-259 | Every step of concurrent calls keeps each call on its own order and turn. |
| NsqPublish.ConcurrentCallsPublishOnce | internal/mq/nsq.go:234-259 | The same promise for every returned call in every interleaving of calls. |
| NsqPublish.TriesAreAnswers | internal/mq/nsq.go:234-259 | In every interleaving every call that began is there, and its tries are the producers' answers to it, one for one and in order. |
| NsqPublish.ConsecutiveCallsStartEverywhere | internal/mq/nsq.go:235-239 | Any n calls that take the lock in a row start at each of the n producers exactly once. |
| LoadBalancers.RoundRobinLoadBalancer.Select | internal/discovery/etcd.go:463-479 | The position and the counters after a call; nothing is chosen only from an empty list. |
| LoadBalancers.SelectionIsFair | internal/discovery/etcd.go:463-479 | Over any run, with any calls for other types in between, two positions of lists of one length are chosen equally often, give or take one. |
| LoadBalancers.EveryRoundHitsEach | internal/discovery/etcd.go:463-479 | Every n calls for a type hit each of n positions exactly once, from any counter. |
| LoadBalancers.ChangingListsStarve | internal/discovery/etcd.go:472-476 | With a service missing from every second list, that service is never chosen. |
| LoadBalancers.SelectByLoad | internal/discovery/etcd.go:490-512 | The first of the least loaded eligible services; the first service of the list if none is eligible; nothing for an empty list. |
| LoadBalancers.LeastLoadedIsUnique | internal/discovery/etcd.go:499-504 | At most one position is the first of the least loaded, so that contract admits one answer. |
| Rotation.TurnsAre | internal/discovery/etcd.go:475-476 | How many of the first t turns fall to a position, in closed form. |
| Rotation.FairShare | internal/discovery/etcd.go:475-476 | Over any stretch of turns two positions differ by at most one. |
| Rotation.OneRound | internal/mq/nsq.go:237-238 | Any n consecutive turns give each position one. |

## Left out

- Sockets, deadlines, goroutine scheduling and real timers: they are environment steps, chunk sizes and clock readings. Deadline setters that fail before a write are not modelled. The user, session and activity time that Connections.Connection.Reset also clears are not modelled.
- JSON, protobuf, reflection and the cryptography behind tokens: message codecs are taken as faithful (decoding undoes encoding, no encoding is empty), the authentication code is an arbitrary function. That a forged code is hard to find is not part of this model.
- RpcWire.EndToEnd: covers runs whose frames carry messages shorter than 2^32 bytes; longer ones meet the truncated length check of `Frame.AcceptedFrameReadsBackIff`.
- A response the client cannot decode, and a request whose arguments cannot be marshalled: both return before anything the model tracks changes.
- Connecting an RPC client that was used before, and closing an RPC connection pool or using it afterwards: Close empties the channel without accounting.
- ConnectionPool.RPCConnectionPool.Get: other callers only put clients back while it waits. Getters that race each other are steps of the interleaved model.
- The 64-bit overflow of the actor's, pool's and breaker's counters, of the publisher's turn counter and of the selection counters, and the saturation of durations: those are unbounded numbers. The wrap-around of request IDs and the 32-bit truncation of lengths are modelled.
- ObjectPool.MessagePool.Get: does not bound how many messages exist, because the source makes uncounted ones after its 100 ms wait. Holders are assumed to put each message back at most once per Get, and SetData takes the bytes by value, so a holder that passes a slice of a pooled buffer is not modelled.
- The byte-buffer pool and the connection and actor pools built on the generic pool: they would add only easy members.
- The actor system's map of actors and its statistics: lookups and sums over actors. Deadlocks of a handler that tells its own actor during Stop are not ruled out: no liveness is claimed.
- The card game's logs, event texts, buffs, score, deck building and the empty-hand panic of ProcessPlayCard (its model requires a hand that is not empty, as every validated play has).
- CardGameProofs.LimitsAlwaysHold: does not bound health from below or the board's size, because the source does neither.
- The library's sort algorithm: any result that is sorted is the one modelled. Migration functions that touch the table of records themselves, and a store changed by another runner during a run, are not modelled.
- Message queue consumers, the discovery client, databases, the game and lobby servers, anti-cheat, logging and configuration: input and output around other services.
