# cppim: a verified model

cppim is an instant-messaging back end in C++: gate servers hold the client
connections, a logic server authenticates clients and indexes who is online, a
job server carries messages from the log to the gates, and all of them talk over
one RPC layer on non-blocking sockets. This project models the parts of it where
correctness depends on more than one function (the buffer and the wire codecs, the
RPC channels end to end, the write pump of a session, the adaptive rate limiter,
the HTTP parser, the online indexes and the push path, the key generator) and two
pieces of its bundled libraries (the spdlog log queue, the date-times of cpptoml),
and proves what they keep in all inputs and all runs.

Check everything with `dafny verify dfyconfig.toml` (Dafny 4.11).

## How it is built

Objects that the source updates in place are classes whose methods are proved
against functions on values; loops are loops. Concurrency is modelled as a
machine: every point where another thread, a peer or the network can get in
between is a step of its own, a run is any sequence of enabled steps from the
initial state, and the theorems hold in every state of every run.

| file | content |
|---|---|
| `Endian`, `Text`, `Decimal` | network-order integers, searching, numbers as text |
| `Incremental` | parsers fed in arbitrary pieces: why the cuts cannot matter, proved once for both codecs and the HTTP parser |
| `Buffer` | the growable buffer, including its in-place compaction |
| `RpcCodec`, `ClientCodec` | the two wire formats |
| `RpcChannel`, `RpcSystem` | the channel object; two channels joined by byte streams |
| `SessionPump` | senders and the loop thread of one session |
| `Sample`, `Vegas`, `VegasRuns`, `VegasMeasures` | the rate limiter: one sample, the control law and its history, all interleavings of the closures, and what their samples hold |
| `Limiter`, `VegasGrants` | admission: a gate with any limits, and the gate in the runs of the limiter |
| `HttpRequest`, `HttpContext`, `HttpRoundTrip`, `HttpLaws` | HTTP requests, the incremental parser, printing then parsing, and what the parser accepts |
| `Presence`, `PushPath` | who is online; how a push reaches them |
| `Snowflake` | session keys |
| `RingQueue`, `DateTime` | the log queue of spdlog; date-times of cpptoml |

## What turned out not to hold

In each case the code is modelled as it is and the exact condition is proved.

* A write completion that reports fewer bytes than the buffer holds loses the
  rest: bytes are conserved if and only if every completion was full-size
  (`SessionPump.BytesKeptIffFullSize`, `SessionPump.ShortWriteLoses`).
* A session that sends an empty buffer can get any number of writes in flight at
  once (`SessionPump.EmptySendsBreakIt`). For a given list of sends there is never
  more than one write if and only if no buffer before the last is empty
  (`SessionPump.OneWriteIffNoEmptyBeforeLast`); the codecs never send an empty one.
* A session closed between its authentication request and the handling of the
  reply is indexed when the reply is handled, and stays so: the gate's indexes hold
  exactly the live sessions if and only if there is no such session
  (`Presence.IndexesLiveIffNoneStranded`, `Presence.EarlyCloseStrands`).
* Resetting an HTTP context keeps the previous request's query map and body, and
  old query entries win: the next request is parsed back right if and only if its
  queries include all old entries and the old body is replaced or was empty
  (`HttpRoundTrip.RoundTripAfterReset`, `HttpRoundTrip.StaleQueryShows`,
  `HttpRoundTrip.StaleBodyShows`).
* Changes of the rate limit can come closer than their window (five averages, at least
  500 ms and at most 2 s): they are spaced
  in all runs with at most n done closures at work if and only if n is at most 1
  (`VegasRuns.SpacedIffOneAtATime`). The new sample is published before the new
  update time is stored, and the check is not repeated under the mutex. With any
  number of closures, a run in which none loads the update time in that gap is
  spaced (`VegasRuns.SpacedWithoutStaleLoads`).
* The number of requests granted at a time is bounded by the largest limit so far
  (`Limiters.GrantsAreBounded`, and `VegasGrants.GrantsAreBounded` for the limits
  the closures store). It is bounded by the limit in force, in all runs
  with a given schedule of limits, if and only if the schedule never lowers it
  (`Limiters.LimitBoundsIffNeverLowered`).
* Session keys increase if and only if the clock readings the calls take never go
  back (`Snowflake.GrowsIffClockDoes`, `Snowflake.IdsIncreaseIffClockDoes`); a
  clock set back one millisecond makes a key come round again
  (`Snowflake.BackwardClockRepeats`).
* A printed time-zone offset has one sign, that of the hours: date-times survive
  printing and parsing if and only if the two parts of the offset agree with it
  (`DateTimes.RoundTripIffSignsAgree`, `DateTimes.HalfHourEastTurnsWest`).
* An RPC frame comes back if and only if its name has a colon and two bytes and
  the frame at most 64 MB (`RpcCodec.ComesBackIffSendable`); a client packet if and
  only if its body has at most 65520 bytes (`ClientCodec.ComesBackIffShort`).
* A malformed RPC frame whose name is up to four bytes too long passes the decoder's
  guard, which counts 8 bytes in front of the name where the layout in
  `rpc/RpcCodec.h` has 12. The name is then read past the frame's end: the verdict on
  a frame is the same whatever lies behind it if and only if its name is not so long
  (`RpcCodec.ReadsWithinIffNotTooLong`); `RpcCodec.FourBytesBehind` is a frame that is
  a message or an error depending on the next byte. All other frames are read as the
  model's decoder does (`RpcCodec.RawParseIsParse`), which gives the over-long ones an
  event of their own, `Overread`.

## Model

| member | source | states |
|---|---|---|
| `Endian.EncodeDecode` | common/EndianTransfer.h:15-43 | reading bytes as a network-order number and writing it out again gives the bytes back, for any length |
| `Endian.DecodeEncode` | common/EndianTransfer.h:15-43 | the converse: every number that fits survives writing and reading |
| `Endian.Field32RoundTrip` | common/Buffer.h:204-303 | a 32-bit field gives back any `int32_t`, and anything else modulo 2^32 |
| `Endian.Field16RoundTrip` | common/Buffer.h:204-303 | a 16-bit field gives back any `int16_t` |
| `Endian.Field64RoundTrip` | common/Buffer.h:204-303 | a 64-bit field gives back any `uint64_t` |
| `Endian.FieldBytes` | common/EndianTransfer.h:15-43 | every byte of a 16-, 32- and 64-bit field on the wire: the most significant comes first |
| `Endian.FieldsRead` | common/EndianTransfer.h:15-43 | a number read has, cut to its width, the bytes it was read from, in that order |
| `Decimal.DecimalRoundTrip` | rpc/RpcChannel.cc:109-118 | strtoull in base 0 reads back every 64-bit id that was printed in decimal, with no octal surprise, and saturates beyond |
| `Decimal.DecimalDigit` | rpc/RpcChannel.cc:84 | which decimal digit of the number stands at which place |
| `Decimal.DecimalInjective` | logicserver/LogicServer.cc:191-192 | different numbers print differently |
| `Buffers.Buffer.constructor` | common/Buffer.h:32-40 | empty, with the requested room behind and 8 bytes in front |
| `Buffers.Buffer.Retrieve` | common/Buffer.h:97-108 | drops exactly the first bytes; taking all of them restores the initial layout |
| `Buffers.Buffer.RetrieveAsString` | common/Buffer.h:148-154 | returns the first bytes and drops exactly those |
| `Buffers.Buffer.Unwrite` | common/Buffer.h:196-200 | drops exactly the last bytes |
| `Buffers.Buffer.Compact` | common/Buffer.h:363-371 | moving the readable bytes forward in place, source and target overlapping, keeps the contents |
| `Buffers.Buffer.MakeSpace` | common/Buffer.h:354-373 | makes room and keeps the contents; reallocates exactly when the free space in front and behind together does not suffice; the exact space in front and behind afterwards, in both cases |
| `Buffers.Buffer.EnsureWritableBytes` | common/Buffer.h:175-182 | room for the request, same contents |
| `Buffers.Buffer.Append` | common/Buffer.h:163-168 | contents grow by exactly the bytes, whether or not space had to be made |
| `Buffers.Buffer.Fill` | common/Buffer.h:190-194 | bytes stored in the writable area and claimed afterwards are appended |
| `Buffers.Buffer.Prepend` | common/Buffer.h:333-339 | bytes go in front and the space in front shrinks by as much |
| `Buffers.Buffer.PeekInt32` | common/Buffer.h:282-288 | the signed number in the first four readable bytes, nothing consumed |
| `Buffers.Buffer.FindCRLF` | common/Buffer.h:64-69 | the first CR LF of the contents, or the end |
| `Buffers.Buffer.Perform` | common/Buffer.h:97-373 | any list of operations acts as on a plain byte sequence, up to the first that asks for more than there is, and stops only there |
| `Incremental.ChunkingIsIrrelevant` | net/Session.cc:27-46 | for every parser whose decisions more input cannot change, any chunking leaves state, unread bytes and verdict as one call on all the input does |
| `Incremental.DeliveredInOrder` | rpc/RpcCodec.cc:72-117 | a stream of frames cut anywhere: the whole frames received are delivered in order, once each, and the bytes held are the received part of the next one |
| `RpcCodec.FillEmptyBuffer` | rpc/RpcCodec.cc:7-25 | appending the fields and prepending the length yields the frame, through the real buffer, from any empty buffer with room for the length in front; over-long names are cut as the 32-bit length is |
| `RpcCodec.DecodeLaws` | rpc/RpcCodec.cc:72-117 | the decoder makes progress, never revises a decision when more bytes arrive, and waits on no input; a frame with an over-long name is decided by the event `Overread` |
| `RpcCodec.OnMessage` | rpc/RpcCodec.cc:72-117 | the loop over the buffer delivers and leaves exactly what the decoder prescribes, including its three exits, up to the first frame with an over-long name |
| `RpcCodec.RawParseIsParse` | rpc/RpcCodec.cc:80-106 | the code's own reads, with the memory behind the frame, are what the decoder says, unless the name is one to four bytes too long; then a name that is accepted comes with a negative data length |
| `RpcCodec.ReadsWithinIffNotTooLong` | rpc/RpcCodec.cc:90-97 | the verdict on a frame is the same for all bytes behind it if and only if not (3 <= nameLen and len - 12 < nameLen <= len - 8) |
| `RpcCodec.FourBytesBehind` | rpc/RpcCodec.cc:90-97 | a frame that one byte behind it makes a message with -4 bytes of data, and another an error |
| `RpcCodec.SentIsFrame` | rpc/RpcCodec.cc:7-117 | a sendable message is decoded into its id, flag, service, method and payload, using its own bytes only and never before the last |
| `RpcCodec.ComesBackIffSendable` | rpc/RpcCodec.cc:7-117 | decoding undoes encoding exactly for names with a colon and at least two bytes in frames up to 64 MB |
| `RpcCodec.StreamDelivered` | rpc/RpcCodec.cc:72-117 | every list of messages in every chunking: a prefix of them delivered in order, no error, only the unfinished frame held, and all of them once the stream is complete |
| `RpcCodec.MalformedStops` | rpc/RpcCodec.cc:72-117 | messages followed by a frame with a length out of range, or without a proper name, cut anyhow: all messages are delivered, then one error, and the decoder stops, with nothing of the bad length used or the whole bad frame |
| `RpcCodec.Receive` | rpc/RpcCodec.cc:72-117 | the same on the real buffer, chunk after chunk |
| `ClientCodec.FillEmptyBuffer` | gateserver/ClientCodec.h:47-55 | builds the packet layout through the real buffer, whatever its reader index; bytes already there come to lie behind the length |
| `ClientCodec.FrameFields` | gateserver/ClientCodec.h:47-55 | the fields of a packet at their places: total length, header length 16, version 1, operation, sequence number, body |
| `ClientCodec.DecodeLaws` | gateserver/ClientCodec.h:15-37 | progress, stability under more input, patience |
| `ClientCodec.TakePacket` | gateserver/ClientCodec.h:22-34 | op, sequence number and body are the fields at their offsets and exactly the packet is consumed |
| `ClientCodec.OnMessage` | gateserver/ClientCodec.h:15-37 | the loop over the buffer does what the decoder prescribes, including the invalid-length exit |
| `ClientCodec.SentIsFrame` | gateserver/ClientCodec.h:15-55 | a packet is decoded into its own op, number and body, whole and not before its last byte |
| `ClientCodec.ComesBackIffShort` | gateserver/ClientCodec.h:15-55 | decoding undoes encoding exactly for bodies of at most 65520 bytes |
| `ClientCodec.StreamDelivered` | gateserver/ClientCodec.h:15-37 | every list of packets in every chunking is delivered in order, once each, without the invalid-length exit |
| `ClientCodec.MalformedStops` | gateserver/ClientCodec.h:15-37 | packets followed by a length out of range or too short, cut anyhow: all packets are delivered, then one error, and the decoder stops |
| `RpcChannels.ReplyFindsId` | rpc/RpcChannel.cc:109-118 | the id and name written into a closure's text are the ones read back for the reply, for any service and method names, colons included |
| `RpcChannels.RpcChannel.CallMethod` | rpc/RpcChannel.cc:27-40 | a new id, registered and sent with the request under the method's name |
| `RpcChannels.RpcChannel.OnRpcMessage` | rpc/RpcChannel.cc:44-107 | a response takes its call out and completes it if it parses; a request binds a closure exactly when service, method and payload are acceptable |
| `RpcChannels.AcceptsRegistered` | rpc/RpcChannel.cc:69-95 | a call as it arrives from the own client is accepted if and only if its service is registered, has the method, and the method parses the request |
| `RpcChannels.RpcChannel.DoneCallback` | rpc/RpcChannel.cc:109-118 | sends the reply of the closure's name, and nothing when the name has no colon |
| `RpcSystem.RealIsLawful` | rpc/RpcCodec.cc:7-117 | codec and channel together meet the laws the run proofs rest on: framing, transparency, answering under the request's id |
| `RpcSystem.StepsAreTheChannels` | rpc/RpcChannel.cc:44-107 | the handling steps of a run change client and server as the channel object's own method does |
| `RpcSystem.CallMethodIsSteps` | rpc/RpcChannel.cc:27-40 | an undisturbed call of the object is the three caller steps in a row |
| `RpcSystem.DoneCallbackIsFinish` | rpc/RpcChannel.cc:109-118 | in every reachable state a pending closure's name has a colon, and finishing it sends the object's reply |
| `RpcSystem.RunKeeps` | rpc/RpcChannel.cc:27-118 | every interleaving of callers, byte arrivals, callbacks and closures keeps the system invariant: bytes under way are the messages due, requests are pending or served exactly once |
| `RpcSystem.EveryRunIsSafe` | rpc/RpcChannel.cc:27-118 | in every run each request is sent once with its call's own data; no call is served twice or unsent; the reply under an id is the response of the closure that was given that very call's request; a call completes at most once, exactly when that reply has arrived and parses; outstanding are the registered calls minus the replies received |
| `RpcSystem.QuietMeansAnswered` | rpc/RpcChannel.cc:27-118 | once nothing is under way: how often each call has completed is decided by the registry alone, once for a sent call whose service and method are registered and whose request parses, and never otherwise; each with the response of the closure given its own request, and the rest are outstanding |
| `SessionPump.OneWriteNoLostWakeup` | net/Session.cc:48-92 | over all interleavings of senders and loop: at most one write in flight, its buffer untouched meanwhile, and a session with nothing under way has nothing queued |
| `SessionPump.LostIffShort` | net/Session.cc:78-91 | bytes have been lost exactly if some completion reported less than the buffer |
| `SessionPump.BytesKeptIffFullSize` | net/Session.cc:48-92 | what went out followed by what is held is what was sent, in lock order, if and only if every completion so far was full-size |
| `SessionPump.SentIsDelivered` | net/Session.cc:27-92 | pump and RPC codec together: if the buffers sent are frames of messages and every completion was full-size, what went out, cut anyhow, is decoded into a prefix of the messages, in order and without error, and into all of them once the session is quiet |
| `SessionPump.ShortWriteLoses` | net/Session.cc:78-91 | a run in which one byte of two is written, nothing is held and nothing is under way |
| `SessionPump.EmptySendsBreakIt` | net/Session.cc:48-92 | with empty buffers any number of writes can be in flight at once |
| `SessionPump.OneWriteIffNoEmptyBeforeLast` | net/Session.cc:48-92 | for every list of sends: all runs that queue it, or its beginning, keep to one write in flight if and only if no buffer before the last is empty |
| `SessionPump.WriteIsSteps` | net/Session.cc:65-77 | an undisturbed `write` is a run of the machine's steps and gathers the whole queue in order |
| `SessionPump.Session.Send` | net/Session.cc:48-63 | queues the buffer and posts exactly when the write buffer is empty |
| `SessionPump.Session.Write` | net/Session.cc:65-77 | moves the whole queue, in order, into the write buffer; starts exactly if there was something |
| `SessionPump.Session.OnWritten` | net/Session.cc:78-91 | drops the whole write buffer whatever was reported, and goes on exactly if more is queued |
| `SessionPump.Session.OnRead` | net/Session.cc:27-46 | delivers what the codec prescribes for the bytes held plus the chunk, and leaves room for at least as large a read |
| `Samples.RunKeeps` | rate/Sample.h:12-25 | every interleaving of the atomic steps keeps the sample consistent with the calls so far |
| `Samples.MaxNeverDecreases` | rate/Sample.h:14-20 | the compare-exchange loop never lowers the maximum |
| `Samples.SampleIsExact` | rate/Sample.h:12-25 | over all interleavings the maximum was offered, and when all calls are done it is the maximum of 0 and all of them, count and sum are exact, and the flag is set exactly if some call dropped |
| `VegasWindows.VegasLimiter.Acquire` | rate/Vegas.h:34-39 | one more in flight; granted exactly if within the limit |
| `VegasWindows.VegasLimiter.RunDone` | rate/Vegas.h:41-114 | undisturbed, the closure's branches change counters, sample, window, probe and limit as the step function that `VegasRuns.UndisturbedIsNext` ties to the runs |
| `VegasWindows.VegasLimiter.Retarget` | rate/Vegas.h:91-111 | the method computes the control law that `VegasWindows.UpdateMovesLimit` and `VegasWindows.QueueDecides` are about |
| `VegasWindows.UpdateMovesLimit` | rate/Vegas.h:77-111 | where every update takes the limit: by half, three halves or three times its root, up or down, according to drop, traffic and the band of the queue, which is described by limit, average and minRTT; rounded down and clamped |
| `VegasWindows.QueueDecides` | rate/Vegas.h:91-111 | a full window without a drop: a queue above three roots lowers the limit, one below one and a half raises it, in between it stays |
| `VegasWindows.UpdateMovesProbe` | rate/Vegas.h:80-90 | exactly when the probe resets minRTT and with what countdown; otherwise minRTT only falls and the countdown goes on |
| `VegasWindows.FullWindowDecides` | rate/Vegas.h:41-112 | an undisturbed closure that fills a window: its window, own measurement included, moves limit and probe so, and the next time is five averages away, within 500 ms and 2 s |
| `VegasWindows.WindowIsExact` | rate/Sample.h:12-25 | a window counts and adds up exactly its measurements and keeps the largest number in flight and the drop flag |
| `VegasWindows.AverageIsExact` | rate/Sample.h:27-34 | the average is the sum over the number without the fraction, and 0 for none |
| `VegasRuns.RunKeeps` | rate/Vegas.h:34-114 | every interleaving of callers and closures keeps the invariant: the mutex has one owner, samples and updates are accounted for |
| `VegasRuns.WindowsCloseOnce` | rate/Vegas.h:57-62 | in every interleaving at most one closure is under the mutex, every sample replaced has at least 16 measurements, and each moves the limit at most once, in order |
| `VegasRuns.UpdatesAreSerial` | rate/Vegas.h:57-112 | in every interleaving, with the loads and stores under the mutex as separate steps and late measurements between them: the limit is that of the updates stored, minRTT and probes those of the updates begun, applied one after the other |
| `VegasRuns.LimitInRange` | rate/Vegas.h:91-111 | in every interleaving the limit stays between 8 and 4096 |
| `VegasRuns.MinRTTIsMinimum` | rate/Vegas.h:57-90 | in every interleaving minRTT is the least average of the updates begun since the last probe reset, and 0 before the first |
| `VegasRuns.SpacedIffOneAtATime` | rate/Vegas.h:57-111 | any two changes of the limit are more than five averages apart, within 500 ms and 2 s, in all runs with at most n closures at work at a time, if and only if n is at most 1; the run that breaks it can start at any time |
| `VegasRuns.SpacedWithoutStaleLoads` | rate/Vegas.h:57-76 | with any number of closures at work, the changes are spaced in every run in which no closure loads the update time while another has replaced the sample and not stored its new time |
| `VegasMeasures.SamplesAreExact` | rate/Vegas.h:41-62 | in every interleaving every sample ever made is exactly the window of some closures' measurements, with their times, tickets and drops, and every closure that has added is in exactly one sample, once |
| `VegasWindows.DropLowersRootByQuarter` | rate/Vegas.h:91-111 | a window with a drop lowers the square root of the limit by at least a quarter or reaches the minimum |
| `VegasWindows.DropsAccumulate` | rate/Vegas.h:91-111 | over a row of updates whose windows report drops, these quarters add up |
| `VegasRuns.DropsReachMinimum` | rate/Vegas.h:91-111 | in every interleaving, after four times the root of the limit many such updates the limit is the minimum and stays there |
| `VegasRuns.UndisturbedIsNext` | rate/Vegas.h:41-114 | a closure no other thread disturbs takes the runs' state where the object's method takes its fields |
| `Limiters.GrantsAreBounded` | rate/Vegas.h:34-45 | over all interleavings of increment, load, release and limit changes: the counter is acquired minus released, and the grants held at a time never exceed the largest limit so far |
| `Limiters.LimitBoundsIffNeverLowered` | rate/Vegas.h:34-45 | for every schedule of limits: all runs that follow it, or its beginning, keep the grants held at a time within the limit in force if and only if the schedule never lowers the limit |
| `Limiters.LoweredLimitIsNoBound` | rate/Vegas.h:34-45 | for every schedule that lowers the limit somewhere, a run with more grants than the limit in force |
| `VegasGrants.RunRefinesGate` | rate/Vegas.h:34-112 | every run of callers and closures is, seen from counter, limit and callers, a run of the gate whose limits are those the closures store |
| `VegasGrants.GrantsAreBounded` | rate/Vegas.h:34-112 | in every interleaving the counter is the number of callers that have not run their closure, and no more of them are granted than the largest limit an update has set |
| `VegasGrants.GrantsWithinLimit` | rate/Vegas.h:34-112 | as long as no update has lowered the limit, no more callers are granted than the limit in force |
| `Limiters.Allow` | rate/Limiter.h:8-18 | undisturbed, a granted caller gets its ticket and start time, and a refused one leaves the limiter exactly as it was |
| `Limiters.Finish` | rate/Limiter.h:15-17 | the granted caller's closure runs with the start time it was given |
| `HttpRequests.MethodRoundTrip` | http/HttpRequest.h:23-66 | every method name parses back to its method |
| `HttpRequests.SplitLoop` | common/util.hpp:9-23 | the token loop yields the pieces between separators, and nothing for the empty string |
| `HttpRequests.SplitInverse` | common/util.hpp:9-23 | joining the pieces gives the text back, and no piece contains the separator |
| `HttpRequests.TrimFrom` | http/HttpRequest.h:82-93 | the two trimming loops remove exactly the white space at both ends |
| `HttpRequests.HttpRequest.SwapWithFresh` | http/HttpRequest.h:116-122 | all fields are renewed except the body and the query map |
| `HttpRequests.HttpRequest.SetPathAndQuery` | http/HttpContext.cc:17-35 | path, query text and query map as the split of the target prescribes, earlier entries staying |
| `HttpLaws.TargetSplits` | http/HttpContext.cc:16-31 | for every target: the path ends at the first question mark and path, mark and query text make up the target; without one the target is the path and the queries stay |
| `HttpLaws.QueriesAre` | http/HttpContext.cc:21-28 | for every query text: an entry already there stays, otherwise the first token naming the key decides, and no other key is added |
| `HttpRequests.HttpRequest.AddHeaderLine` | http/HttpRequest.h:82-93 | the trimmed value under the text before the colon, a later line replacing an earlier |
| `HttpLaws.HeaderLineIs` | http/HttpRequest.h:82-93 | every header line: the text between the white space at both ends, under the text before the colon, replacing an earlier one |
| `HttpRequests.HttpRequest.AppendToBuffer` | http/HttpRequest.h:124-154 | appends the printed request with every query and header exactly once, in some order |
| `HttpLaws.PrintedForm` | http/HttpRequest.h:124-154 | the printed text of a request with one query and one header, written out |
| `HttpContexts.StepStable` | http/HttpContext.cc:48-102 | no branch of the parser is revised when more input arrives |
| `HttpContexts.ParsingIgnoresChunking` | http/HttpContext.cc:48-102 | whatever the request object still holds and however the input is cut, state, verdict, fields and unread bytes are those of one call on all of it |
| `HttpContexts.HttpContext.TryRequestLine` | http/HttpContext.cc:9-46 | the verdict, and the fields set on the way even when it fails |
| `HttpLaws.LineAcceptedIff` | http/HttpContext.cc:9-46 | a request line is accepted if and only if it is one of five methods, a target without spaces and HTTP/1.0 or HTTP/1.1 |
| `HttpLaws.DrainAnyLine` | http/HttpContext.cc:52-64 | every complete line at the start of a parse: accepted and used up, or an error that leaves it unread |
| `HttpLaws.PlainTargetIsPath` | http/HttpContext.cc:9-64 | in a new context a request for a target without a question mark is parsed to that path, with no query |
| `HttpLaws.BadHeaderStops` | http/HttpContext.cc:65-83 | a line that is neither a header nor blank ends the parse with an error and is used up |
| `HttpLaws.BodyIsTaken` | http/HttpContext.cc:84-99 | exactly the announced number of bytes becomes the body, and what follows stays unread |
| `HttpContexts.HttpContext.ParseRequest` | http/HttpContext.cc:48-102 | the loop terminates and leaves request, state, verdict and buffer as stepping the parser does |
| `HttpContexts.HttpContext.Reset` | http/HttpContext.h:25-29 | back to the first state, with body and query map kept |
| `HttpRoundTrip.DrainHead` | http/HttpRequest.h:124-154 | the head of every printed request is parsed back to the same method, path and headers, for any order of printing, with queries and body of the previous request where a reset leaves them |
| `HttpRoundTrip.RoundTrip` | http/HttpContext.cc:48-102 | in a new context a printed request, cut anyhow, is parsed back completely with nothing left over if and only if its body has the announced length |
| `HttpRoundTrip.RoundTripAfterReset` | http/HttpContext.h:25-29 | in a context reset after any previous request the same holds if and only if, besides, every old query is among the new ones and the old body is replaced or was empty |
| `HttpRoundTrip.DecimalAnnounces` | http/HttpContext.cc:79-95 | a decimal Content-Length announces exactly its number |
| `HttpLaws.AtoiReads` | http/HttpContext.cc:85 | the announced length for white space, sign, digits and anything behind: the number, saturated at 64 bits and cut to 32 |
| `HttpRoundTrip.QueriesAfterReset` | http/HttpContext.h:25-29 | for every target, with or without a query: after a reset the queries are those of a fresh context overridden by the old, hence right exactly if all old entries are among them |
| `HttpRoundTrip.StaleQueryShows` | http/HttpRequest.h:116-122 | a request without queries that has one after a reset |
| `HttpRoundTrip.StaleBodyShows` | http/HttpRequest.h:116-122 | a request that announces no body has the old one after a reset |
| `Presence.TcpServer.NewSession` | net/TcpServer.h:24-37 | a new id, added to the connections |
| `Presence.TcpServer.DefaultDisconnectCallback` | net/TcpServer.cc:13-30 | runs the handler exactly if the connection was still there, and removes it |
| `Presence.FirstSessionKeepsKey` | gateserver/GateServer.cc:61-77 | a key that is taken stays with its first session, and the room takes both |
| `Presence.RunKeeps` | gateserver/GateServer.cc:61-102 | every interleaving of accepts, requests, replies, closes and reports keeps the gate's key and room indexes and the shared indexes in step with the sessions |
| `Presence.HandlerRunsOnce` | net/TcpServer.cc:13-30 | however often a session is closed, its handler has run once if it is closed and not at all if it is open |
| `Presence.IndexesLiveIffNoneStranded` | gateserver/GateServer.cc:61-102 | in every run the key and room indexes hold exactly the live authenticated sessions if and only if there is no session that was closed while its authentication was under way and whose reply has been handled since |
| `Presence.EarlyCloseStrands` | gateserver/GateServer.cc:61-102 | a run in which a closed session stays indexed |
| `PushPath.GateServer.OnConnected` | gateserver/GateServer.cc:61-76 | indexes the session by key and room and answers it |
| `PushPath.GateServer.OnDisconnected` | gateserver/GateServer.cc:80-102 | reports the session's mid and key to the logic server, removes its key and its entry in its room, and sends no packet |
| `PushPath.GateServer.SendToClient` | gateserver/GateServer.cc:104-110 | one packet if the key is known, none otherwise |
| `PushPath.GateServer.SendToRoom` | gateserver/GateServer.cc:111-118 | one packet to each member of the room, in some order |
| `PushPath.GateServer.BroadCast` | gateserver/GateServer.cc:119-123 | one packet to each channel, in some order |
| `PushPath.GateServer.PushKeys` | gateserver/GateServiceImpl.cc:4-12 | the packets of the known keys, in the order given |
| `PushPath.JobPush` | jobserver/JobServer.cc:52-100 | each kind of log message becomes the matching gate call, with operation 9 |
| `PushPath.RunLog` | jobserver/JobServer.cc:52-76 | for a log of key pushes, the job server's pushes make the gate send exactly the packets `PushPath.PushReaches` counts, in log order |
| `PushPath.GroupByServer` | logicserver/LogicServer.cc:132-134 | each key exactly once, in the group of its own server, and no empty group |
| `PushPath.KeyServersFrom` | logicserver/LogicServer.cc:126-131 | every key looked up comes from one of the members named, with the server it has there |
| `PushPath.PushMsgByMids` | logicserver/LogicServer.cc:123-172 | one log message per server; together they hold each of the members' keys exactly once, with its own server, however often a member is named |
| `PushPath.PushToMembers` | logicserver/LogicServer.cc:123-172 | lookup, grouping, log and gate in one: the gate sends the packets of one log message per server, which hold each of the members' keys once |
| `PushPath.BroadcastReaches` | gateserver/GateServer.cc:119-123 | in every consistent state a broadcast brings one packet to each indexed session and none to others |
| `PushPath.RoomSendReaches` | gateserver/GateServer.cc:111-118 | likewise for the indexed sessions of the room |
| `PushPath.BroadcastReachesLive` | gateserver/GateServer.cc:119-123 | in every run with nobody stranded, a broadcast brings one packet to each live session and none to others |
| `PushPath.RoomSendReachesLive` | gateserver/GateServer.cc:111-118 | in every run with nobody stranded, a room send brings one packet to each live session of the room and none to others |
| `PushPath.PushReaches` | logicserver/LogicServer.cc:123-172 | from lookup to packets, with any steps in between: exactly one packet to each session indexed at sending time and registered under a listed member at lookup time, no other packet, and every message on the log names this gate |
| `PushPath.PushReachesLive` | logicserver/LogicServer.cc:123-172 | with no step in between and nobody stranded: exactly one packet to each live session of a listed member |
| `Snowflake.FieldsDoNotOverlap` | logicserver/LogicServer.cc:191 | masking, shifting and or-ing the three fields gives their sum, which the other statements are about |
| `Snowflake.KeyGenerator.GenerateKey` | logicserver/LogicServer.cc:178-193 | the branches and the spin loop over any clock readings compute the id the theorems are about |
| `Snowflake.IdCarriesClock` | logicserver/LogicServer.cc:178-193 | an id carries the last clock reading the call took, and counts the ids of that millisecond from 0 |
| `Snowflake.DecodeId` | logicserver/LogicServer.cc:191 | timestamp, server and sequence number can be read back from an id |
| `Snowflake.IdsAreUnique` | logicserver/LogicServer.cc:191-192 | two keys are the same text exactly if all three parts agree, so different servers never collide |
| `Snowflake.GrowsIffClockDoes` | logicserver/LogicServer.cc:178-193 | a call returns a larger id than the last exactly if no clock reading it takes goes back behind the last millisecond; in a full millisecond it waits for another and starts again from 0 |
| `Snowflake.IdsIncreaseIffClockDoes` | logicserver/LogicServer.cc:178-193 | any number of calls: the ids are strictly increasing if and only if the clock readings taken after the first id never go back |
| `Snowflake.IdsIncrease` | logicserver/LogicServer.cc:178-193 | on a clock that never goes back any two keys are different texts, in increasing order of id |
| `Snowflake.BackwardClockRepeats` | logicserver/LogicServer.cc:178-193 | a run of four calls whose first and last ids are equal |
| `RingQueue.CircularQ.PushBack` | opt/spdlog/include/spdlog/details/circular_q.h:26-36 | index arithmetic modulo the vector's size behaves as a bounded FIFO that drops and counts its oldest item when full |
| `RingQueue.CircularQ.PopFront` | opt/spdlog/include/spdlog/details/circular_q.h:40-44 | returns and removes the oldest item |
| `RingQueue.CircularQ.IsEmpty` | opt/spdlog/include/spdlog/details/circular_q.h:46-49 | true exactly when nothing is held |
| `RingQueue.CircularQ.IsFull` | opt/spdlog/include/spdlog/details/circular_q.h:51-55 | true exactly when the capacity is reached |
| `RingQueue.FifoInEveryRun` | opt/spdlog/include/spdlog/details/mpmc_blocking_q.h:35-69 | in every interleaving items leave in the order they entered, and entered = dequeued + held + overrun |
| `RingQueue.BlockingLosesNothing` | opt/spdlog/include/spdlog/details/mpmc_blocking_q.h:35-69 | without the non-waiting enqueue nothing is overrun and consumers receive exactly what entered, in order |
| `DateTimes.PrintMicros` | opt/cpptoml/include/cpptoml.h:198-220 | the printing loop yields the fraction's digits without trailing zeros |
| `DateTimes.EatDigitsLoop` | opt/cpptoml/include/cpptoml.h:1806-1816 | exactly the given number of digits, or an error |
| `DateTimes.EatDigitsIff` | opt/cpptoml/include/cpptoml.h:1806-1816 | digits are accepted exactly if there are so many, with their number as value |
| `DateTimes.ReadMicrosLoop` | opt/cpptoml/include/cpptoml.h:2898-2929 | digits weighted from 100000 down, those beyond the sixth worth nothing |
| `DateTimes.SixDigitsCount` | opt/cpptoml/include/cpptoml.h:2914-2923 | any number of digits behind the point: six of them count, missing ones as zeros |
| `DateTimes.MicrosRoundTrip` | opt/cpptoml/include/cpptoml.h:198-220 | every fraction reads back as the microseconds it was printed from |
| `DateTimes.TimeRoundTrip` | opt/cpptoml/include/cpptoml.h:2898-2929 | every time is read back from its printed form and reading stops at its end |
| `DateTimes.ReadPrintedOffset` | opt/cpptoml/include/cpptoml.h:222-248 | an offset comes back with both parts carrying the sign printed |
| `DateTimes.ParsePrinted` | opt/cpptoml/include/cpptoml.h:2937-2989 | a printed date or date-time parses, inside any text that goes on after it, and stops at its end |
| `DateTimes.SpaceParses` | opt/cpptoml/include/cpptoml.h:2937-2989 | the same with a space between date and time |
| `DateTimes.OffsetAcceptedIff` | opt/cpptoml/include/cpptoml.h:2967-2986 | behind the time exactly Z or a sign and HH:MM is accepted |
| `DateTimes.DateShape` | opt/cpptoml/include/cpptoml.h:186-196 | the printed date is YYYY-MM-DD |
| `DateTimes.TimeShape` | opt/cpptoml/include/cpptoml.h:198-220 | the printed time is HH:MM:SS with the digits of the fraction, without trailing zeros |
| `DateTimes.OffsetShape` | opt/cpptoml/include/cpptoml.h:222-248 | the printed offset is Z, or the sign of the hours and HH:MM |
| `DateTimes.RoundTripIffSignsAgree` | opt/cpptoml/include/cpptoml.h:2937-2989 | printing and parsing returns the same value if and only if the offset's parts agree in sign |
| `DateTimes.HalfHourEastTurnsWest` | opt/cpptoml/include/cpptoml.h:222-248 | a date-time half an hour east of UTC comes back half an hour west |

## Left out

- Sockets, timers, reconnection, thread pools and the close and error paths of a session: reads and completions are steps that may come at any time.
- Protobuf: payloads are opaque bytes of less than 2 GB, and which of them parse is a parameter.
- Redis and Kafka: the shared index is a pair of maps without expiry, and the log is first-in first-out; the formatting of `mid_` and `key_` names is not modelled.
- Heartbeats, `PushMsgByKeys`, the HTTP handlers of the logic server, HttpServer, HttpResponse and HttpClient, logging, and the rest of spdlog and cpptoml: they forward or format what the modelled parts compute and keep no state of their own that these results depend on.
- More than one gate: the job server ignores the server field of a push, and so the model has one gate; the operation number of a push is not delivered either, as the job server always sends 9.
- Malformed frames: a frame that makes a decoder read past its own end ends the run with the event `Overread` or `Undersized`; what the process does then is undefined.
- RpcCodec.DecodeLaws: frames with an over-long name (see `RpcCodec.ReadsWithinIffNotTooLong`) end in `Overread`, where the code goes on with bytes behind the frame.
- RpcCodec.OnMessage: likewise, a run ends at the first such frame.
- RpcCodec.FillEmptyBuffer: names whose length plus one, cut to 32 bits, is negative make the buffer throw, and are excluded.
- RpcSystem.EveryRunIsSafe: calls and replies whose frames do not come back (see `RpcCodec.ComesBackIffSendable`) are not made, ids stay below 2^63, and a closure runs at most once.
- RpcChannels.RpcChannel: the table of outstanding calls is the set of their ids, without the response pointers; allocation, registration and sending are separate steps in `RpcSystem`.
- SessionPump, Samples, VegasRuns, Limiters, Presence: the interleavings are modelled on values, one atomic operation, locked section or event handler per step; the handlers of the gate (`HandleConnect`, `HandleDisconnect` and the send loops, gateserver/GateServer.cc:61-123) take no lock in the source and are taken to be atomic; the classes beside them show undisturbed calls, and aliasing between threads is not modelled otherwise.
- VegasRuns.UpdatesAreSerial: the calls `Sample::Add` and `Sample::RTT` are one step each (the operations of `Add` are interleaved in `Samples`), the loads of limit and minRTT, which only the owner of the mutex changes, are one step with the probe, memory is sequentially consistent, and the unsynchronised access to the sample pointer is taken to be atomic.
- VegasWindows.VegasLimiter.RunDone: 64-bit overflow and the rounding of doubles are left out, except that the square root may be off by a sixteenth when squared.
- VegasWindows.VegasLimiter.Acquire: the increment and the load of the limit are one step here and two in `VegasRuns` and `Limiters`.
- RingQueue: that a waiting thread is woken in the end is not stated; each operation runs when its condition holds.
- HttpContexts.HttpContext.ParseRequest: is not entered in the state GotAll, where the loop of the source would not end; the callers reset first.
- HttpRequests.HttpRequest.SetMethod: the debug assertion that no method was set before is not modelled.
- HttpRoundTrip.RoundTrip: paths, query parts and header names without the characters that delimit them, header values without white space at their ends; the source has no escape for the others.
- HttpRequests.HttpRequest.AppendToBuffer: a map is printed in any order, which includes the order of the library's map.
- PushPath.GateServer.OnConnected: the answer to a malformed token, which carries an empty key (logicserver/LogicServiceImpl.cc:26-29), is not modelled; every authentication gives out a key.
- Presence.TcpServer.NewSession: session ids are unbounded, without the cut to `int`.
- Presence.HandlerRunsOnce: a session asks for authentication at most once, and the logic server never gives out a key twice (see `Snowflake.IdsIncrease`).
- DateTimes: white space characters are those of the C locale, and years, months and days are checked for their width only, as in the source.
