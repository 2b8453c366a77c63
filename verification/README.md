# A model of librtmp2 in Dafny

librtmp2 is an RTMP and Enhanced-RTMP library. This project models the parts of it where
correctness is hardest to see from the code, and proves what they are for:

- **The chunk protocol.** `ChunkWire`, `ChunkState`, `ChunkReader`, `ChunkRegistries`, `ChunkWriter` and
  `MediaOut` model framing, the chunk reader with its registry of half-received messages, the writers,
  and the tracker that compresses media headers. `FrameDelivery` models what the client shows its
  application: frames, tracks of multitrack containers and parts of aggregate messages, all counted
  against the budget of a poll. `Receivers`, `Demux`, `StreamIndependence`, `Decoding`, `Arrival`,
  `Staging`, `Sync` and `Outboxes` prove what these do together over whole runs: a receiver recovers
  exactly what a sender sent, however the bytes are fragmented and however the chunk streams are
  interleaved, and exactly when its staging buffer can be overfilled, or a message cut short by the
  budget, on the way.
- **The relay fan-out** (`Relay`, `StagedSends`, `StagedRelay`): one encoding of a frame shared by many
  players, copied into their send buffers or staged and written to their sockets in pieces, and what the
  receiver behind each of them gets.
- **The byte buffer** that all of it works on (`Buffers`), against a bounded FIFO.
- **The DNS work queue** (`DnsQueue`), a step system over its condition variables.
- **Window acknowledgements** (`WindowAck`), over every run of receiving, queueing and draining.
- **SHA-256 and HMAC** (`Sha256s`), against FIPS 180-4 and RFC 2104.
- **Four grammars** walked by loops or recursion: AMF0 values (`Amf0`), multitrack containers
  (`Multitrack`), ModEx wrappers (`ModexWrappers`) and the video FourCC info map (`ConnectCaps`). Each has a
  datatype and an encoder, and the walker is proved to accept exactly the encodings.

Code that updates fields or loops over buffers is modelled by classes and methods, and each method is
proved against a function of values; the theorems about runs are lemmas about those functions. Bytes
are integers from 0 to 255, except in the hash, which works on bit vectors. Machine widths are written
out: 32-bit timestamps and counters wrap, 64-bit totals saturate or wrap as they do in the source. A
`Vec` is a `seq` field that methods reassign, a fixed buffer an `array`. The socket is a list of
answers, the clock an event that may happen at any time.

Two comments in the source disagree with its code, and the model follows the code.
`src/chunk/media_out.rs:101-103` and `src/chunk/reader.rs:191-192` say that a zero message length
cannot be inherited by a fmt 2 or fmt 3 header; the reader tests `has_message_header` instead, so it
can (`ChunkReader.ZeroLengthIsInherited`). `src/ertmp/connect_caps.rs:183-185` says that a map with
masks can coincidentally satisfy the key-only walk; with the length test that follows, it cannot
(`ConnectCaps.LayoutsAreDisjoint`).

The main theorems are `Sync.ReceiverRecoversEverything`, `Sync.RecoveredFromAnyFragmentation` and
`Sync.RecoveredWhenDrained`, `Receivers.FragmentationIndependence`, `Staging.PacedRunsAgree`,
`Demux.EveryDeliveryIsExact`, `StreamIndependence.DrainedStreamsAreIndependent`,
`Receivers.RunKeepsValid`, `ChunkRegistries.ChunkRegistry.ChunkRead`, `Outboxes.SendAll`,
`Relay.EveryPlayerReceives`, `StagedRelay.StagingIsBuffering`, `StagedRelay.RelayBatch`,
`Buffers.Replay`, `DnsQueue.RunKeepsInv`, `WindowAck.AtMostOneUnsent`, `Sha256s.HmacSha256`,
`Amf0.SkipIsExact`, `Multitrack.ForeachTrack`, `ModexWrappers.PeelIsExact` and
`ConnectCaps.MapRoundTrip`.

`dafny verify dfyconfig.toml` checks the whole project.

## Model

| member | source | states |
|---|---|---|
| `Buffers.Buffer.constructor` | src/buffer.rs:42-49 | a new buffer is empty, owned, and may hold 64 MiB |
| `Buffers.Buffer.WithCapacity` | src/buffer.rs:52-59 | empty, with the given capacity; capacity never changes the limit of an owned buffer |
| `Buffers.Buffer.FromSlice` | src/buffer.rs:62-69 | the slice is the unread content |
| `Buffers.Buffer.FromStatic` | src/buffer.rs:72-80 | the slice is the unread content and its length the limit |
| `Buffers.Buffer.Write` | src/buffer.rs:93-103 | appends all bytes if the unread ones and these fit, else changes nothing; never leaves more than 64 MiB after a successful non-empty write |
| `Buffers.Buffer.Reserve` | src/buffer.rs:108-110 | succeeds exactly when a write of that size would, without changing the content |
| `Buffers.Buffer.Read` | src/buffer.rs:113-120 | exactly `n` bytes from the front, or an error and no change |
| `Buffers.Buffer.Reset` | src/buffer.rs:133-140 | empties the buffer and gives a grown allocation back |
| `Buffers.Buffer.ReleaseExcess` | src/buffer.rs:145-152 | shrinks an owned allocation that is mostly read, keeping the content |
| `Buffers.Buffer.Drain` | src/buffer.rs:155-158 | drops up to `n` bytes from the front |
| `Buffers.Buffer.Take` | src/buffer.rs:166-183 | moves exactly the unread bytes out; a fixed buffer keeps its capacity |
| `Buffers.Buffer.MakeRoom` | src/buffer.rs:224-239 | rewinding, compacting and growing never change the content, and succeed exactly when the bytes fit |
| `Buffers.Buffer.Compact` | src/buffer.rs:242-255 | the content moves to the front unchanged |
| `Buffers.Buffer.EnsureCapacity` | src/buffer.rs:258-278 | the doubling loop ends with enough capacity, clamped to the cap, for every request an owned buffer may make |
| `Buffers.Perform` | src/buffer.rs:93-183 | every operation is one step of a bounded FIFO, wherever the cursors are |
| `Buffers.Replay` | src/buffer.rs:93-278 | over every run of operations the answers and the final content are those of the FIFO |
| `Buffers.UnreadIsASuffix` | src/buffer.rs:93-183 | after any run the unread bytes are a suffix of the initial and accepted bytes, in order, and within the limit unless they started above it |
| `ChunkWire.BasicHeaderDecodes` | src/chunk/writer.rs:256-271 | a basic header reads back as its chunk stream id if and only if the id is in 2..65599 |
| `ChunkWire.BasicHeaderRoundTrip` | src/chunk/reader.rs:51-69 | in that range it reads back in front of any bytes, even none |
| `ChunkWire.ContinuationsIsQuotient` | src/chunk/writer.rs:179-184 | the number of continuation headers is the quotient the length computation uses |
| `ChunkWire.ChunkBodySize` | src/chunk/writer.rs:195-233 | a chunked body is its payload plus one header per continuation |
| `ChunkWire.ChunkBodyLenExact` | src/chunk/writer.rs:179-184 | the computed length equals the bytes produced for every id, length, chunk size and timestamp form |
| `ChunkState.PutValid` | src/chunk/state.rs:183-220 | opening or replacing a stream within the caps keeps the accounting exact |
| `ChunkState.GetPut` | src/chunk/state.rs:223-231 | a stored stream is the one found under its id, and no other is affected |
| `ChunkState.SetAllChunkSizeKeepsValid` | src/chunk/state.rs:313-323 | changing the peer's chunk size keeps every stream and total consistent |
| `ChunkState.AbortKeepsValid` | src/chunk/state.rs:350-364 | an abort keeps the accounting exact |
| `ChunkState.AbortDropsOnlyThePartial` | src/chunk/state.rs:345-364 | an abort drops one partial message, keeps all that a later compressed header inherits, and touches no other stream |
| `ChunkState.ResetKeepsValid` | src/chunk/state.rs:335-343 | resetting a stream keeps the accounting exact |
| `ChunkReader.AcceptedIsAdmissible` | src/chunk/reader.rs:89-195 | a chunk that passes phase 1 satisfies what phases 2 and 3 rely on |
| `ChunkReader.ZeroLengthIsInherited` | src/chunk/reader.rs:191-195 | a fmt 2 or 3 header after a zero-length message is accepted, with an empty body |
| `ChunkReader.AdvanceOk` | src/chunk/reader.rs:325-440 | every admissible chunk keeps the stream invariant, and a message is complete exactly when the stream stops reassembling, with the declared length |
| `ChunkReader.ReadKeepsValid` | src/chunk/reader.rs:176-201 | a consumed chunk leads from a valid registry to a valid one: exact totals, all three caps |
| `ChunkReader.VerdictIsFinal` | src/chunk/reader.rs:42-205 | what is consumed or refused on a buffer is consumed or refused identically on every extension of it |
| `ChunkReader.BodyOnTheWire` | src/chunk/reader.rs:382-395 | the body of a consumed chunk is the last part of the bytes it took off the wire |
| `ChunkReader.OwnBytesSuffice` | src/chunk/reader.rs:42-205 | a consumed chunk is consumed identically from its own bytes alone |
| `ChunkRegistries.ChunkRegistry.constructor` | src/chunk/state.rs:155-167 | a new registry is empty and valid |
| `ChunkRegistries.ChunkRegistry.Lookup` | src/chunk/state.rs:223-231 | the index finds exactly the stream with that id |
| `ChunkRegistries.ChunkRegistry.CanGetOrCreate` | src/chunk/state.rs:255-266 | true exactly when the stream is active, or the active cap and the table leave room |
| `ChunkRegistries.ChunkRegistry.GetOrCreateIndex` | src/chunk/state.rs:183-220 | opens or reuses a slot, keeps the index a bijection, and refuses only at a cap |
| `ChunkRegistries.ChunkRegistry.ReleaseStreamReassembly` | src/chunk/state.rs:276-280 | takes a stream's bytes off the total without saturating |
| `ChunkRegistries.ChunkRegistry.ReleaseReassemblyBytes` | src/chunk/state.rs:285-287 | subtracts the released bytes, and exactly those unless more are released than are in use, in which case it stops at zero |
| `ChunkRegistries.ChunkRegistry.SetStreamReassembling` | src/chunk/state.rs:299-309 | the active count follows the flags exactly |
| `ChunkRegistries.ChunkRegistry.SetAllChunkSize` | src/chunk/state.rs:313-323 | a size in range reaches the default and every stream, any other is ignored |
| `ChunkRegistries.ChunkRegistry.AbortStream` | src/chunk/state.rs:350-364 | drops one stream's partial message, keeps its header context and every other stream |
| `ChunkRegistries.ChunkRegistry.ResetStream` | src/chunk/state.rs:335-343 | returns one stream to its initial state and settles its accounting |
| `ChunkRegistries.ChunkRegistry.Destroy` | src/chunk/state.rs:367-373 | forgets everything |
| `ChunkRegistries.ChunkRegistry.Peek` | src/chunk/reader.rs:42-205 | phase 1 decides as specified and changes nothing |
| `ChunkRegistries.ChunkRegistry.Decide` | src/chunk/reader.rs:85-205 | the checks, in their order, give the specified verdict |
| `ChunkRegistries.ChunkRegistry.ReadHeader` | src/chunk/reader.rs:207-266 | consumes exactly the header phase 1 measured and extracts its fields |
| `ChunkRegistries.ChunkRegistry.NextHeader` | src/chunk/reader.rs:325-380 | the stream's header context and the number of payload bytes under it |
| `ChunkRegistries.ChunkRegistry.Consume` | src/chunk/reader.rs:207-290 | after acceptance the second cap check and the stream lookup cannot fail |
| `ChunkRegistries.ChunkRegistry.Reassemble` | src/chunk/reader.rs:292-397 | appends the body to its stream; none of the error returns can be reached |
| `ChunkRegistries.ChunkRegistry.Settle` | src/chunk/reader.rs:407-446 | flags and totals are settled, and a finished message is handed over whole |
| `ChunkRegistries.ChunkRegistry.ChunkRead` | src/chunk/reader.rs:34-447 | atomic: either buffer and registry are untouched, or exactly one whole chunk is consumed and the registry is the specified one |
| `ChunkWriter.WriteFirstHeader` | src/chunk/writer.rs:125-176 | writes exactly the first header, or nothing, with the source's refusals |
| `ChunkWriter.BodyLen` | src/chunk/writer.rs:179-184 | the computed body length is the number of bytes that will be written |
| `ChunkWriter.WriteChunkBody` | src/chunk/writer.rs:195-233 | after its reservation the loop writes exactly the chunked body; a refusal changes nothing |
| `ChunkWriter.AppendMessage` | src/chunk/writer.rs:63-85 | header and body are appended together or not at all |
| `ChunkWriter.ChunkWrite` | src/chunk/writer.rs:12-85 | a whole fmt 0 message or nothing, with the source's refusals in their order |
| `MediaOut.BodyFitsEveryHeader` | src/chunk/media_out.rs:76-123 | whatever was sent before, the chosen header has an extended timestamp exactly when the shared body repeats one |
| `MediaOut.MediaHeaderTracker.CommitHeader` | src/chunk/media_out.rs:126-128 | records the header in its slot and no other |
| `MediaOut.EncodeMediaBody` | src/chunk/media_out.rs:135-145 | the shared body, whole or not at all |
| `MediaOut.WriteMediaMessage` | src/chunk/media_out.rs:159-180 | bytes and tracker change together or not at all |
| `MediaOut.WriteMediaMessageWithBody` | src/chunk/media_out.rs:184-204 | the same with a body encoded beforehand |
| `MediaOut.SharedSendIsDirectSend` | src/chunk/media_out.rs:159-204 | one receiver, one frame: sending the body it would have encoded itself gives the same bytes, tracker and refusal |
| `MediaOut.MessageWireBound` | src/client/mod.rs:52-78 | the wire size of any message up to 4 MiB at any chunk size of at least 128 |
| `MediaOut.TwoLargestMessagesFit` | src/client/mod.rs:52-78 | two of them fit the receive-buffer cap |
| `Control.ReadSetChunkSize` | src/message/control.rs:151-162 | an accepted size is at least 128 and at most the largest message length |
| `Control.ReadWindowAckSize` | src/message/control.rs:181-190 | an accepted window is zero or at least 1024 |
| `Control.SetChunkSizeRoundTrip` | src/message/control.rs:151-162 | an announced size in range is read back unchanged |
| `FrameDelivery.UnpacksEncoded` | src/client/mod.rs:944-1028 | an aggregate shows the frames of its parts, in order, timed relative to the first, up to a malformed container or the 4097th part |
| `FrameDelivery.MessageCounts` | src/client/mod.rs:848-854 | no message counts more often than it has bytes, or once if it has none |
| `FrameDelivery.HandlesPrefix` | src/client/mod.rs:977-980 | a poll handles a message in order as far as its budget goes; completely if and only if it has as many left as the message holds, and otherwise the rest is lost, with any error there |
| `FrameDelivery.DeliverAvFrame` | src/client/mod.rs:1035-1078 | a frame behind its wrappers is shown as itself or as its tracks, as many of them as the budget allows; a malformed container is refused whole |
| `FrameDelivery.DeliverFrame` | src/client/mod.rs:988-1023 | the same by message type, with or without a frame callback |
| `FrameDelivery.HandleAggregate` | src/client/mod.rs:944-1028 | the loop over the parts handles what the budget allows, and fails where a part it reaches is malformed |
| `Receivers.TurnWithin` | src/client/mod.rs:846-851 | a turn within a budget is a turn without one, unless its message holds more than is left |
| `Receivers.StepThenFeed` | src/client/mod.rs:837-928 | a turn of the drain loop commutes with the arrival of more bytes |
| `Receivers.TruncationMarks` | src/client/mod.rs:977-980 | a run in which a poll cuts a message short has handled less of it than draining at once, for good |
| `Receivers.SinglesAreNeverCut` | src/client/mod.rs:977-980 | that never happens while every message counts once |
| `Receivers.FragmentationIndependence` | src/client/mod.rs:837-928 | for every split into reads and every polling with any budgets, the final messages, what was handled of each, registry and error are those of draining the whole stream at once, if and only if no read overfills the staging buffer and no poll handles an aggregate or multitrack message with fewer messages left than it has parts or tracks |
| `Receivers.OverrunFails` | src/client/mod.rs:779-781 | a read that overfills it ends the connection with a protocol error |
| `Receivers.OverrunDiffers` | src/client/mod.rs:779-781 | in a state that draining at once never ends in |
| `Receivers.TurnKeepsValid` | src/client/mod.rs:855-864 | one turn, with its chunk-size change or abort, keeps the registry valid |
| `Receivers.RunKeepsValid` | src/chunk/state.rs:183-220 | in every reachable state, whatever the peer sends, totals and counts are exact and all three caps hold |
| `Receivers.HandleMessage` | src/client/mod.rs:847-911 | a complete message changes the registry as asked, shows what the budget allows, and fails as specified |
| `Receivers.DrainReadyMessages` | src/client/mod.rs:837-928 | the drain loop terminates and delivers and handles what the specification drains within the budget |
| `Demux.HeaderFollowsLog` | src/chunk/reader.rs:325-368 | a stream inherits the length and type of its last fmt 0 or 1 header and the stream id of its last fmt 0 header |
| `Demux.StreamFollowsLog` | src/chunk/reader.rs:292-300 | a stream is inside a message exactly when its bodies since the last start are shorter than declared, and then holds exactly these |
| `Demux.DeliveredPayload` | src/chunk/reader.rs:382-447 | for any interleaving, restarts, aborts and resizes, a chunk completes a message exactly when its own stream's bodies since the start reach the declared length; payload, length, type and stream id are these bodies and the declared ones |
| `Demux.RunningTimestamp` | src/chunk/reader.rs:325-363 | a stream's timestamp is the last absolute one plus every later delta modulo 2^32; a starting fmt 3 repeats the delta, a continuing one adds nothing |
| `Demux.DeliveredTimestamp` | src/chunk/reader.rs:325-363 | a delivered message carries that timestamp |
| `Demux.DrainFollowsLog` | src/client/mod.rs:837-928 | what a receiver does on any bytes is described by such a log |
| `Demux.DeliveriesAreTheMessages` | src/chunk/reader.rs:34-447 | the reader delivers exactly the messages that can be read off the log of chunks, aborts and resizes: none missing, none extra, every field |
| `Demux.EveryDeliveryIsExact` | src/chunk/reader.rs:34-447 | the same whatever bytes arrive |
| `StreamIndependence.PlanAlone` | src/chunk/reader.rs:42-205 | a chunk accepted among others is accepted identically by its stream alone |
| `StreamIndependence.CapsAreTheOnlyCoupling` | src/chunk/reader.rs:176-201 | conversely, the other streams matter only through a cap |
| `StreamIndependence.StreamsAreIndependent` | src/chunk/state.rs:350-364 | while no cap is hit, removing every chunk and abort of the other streams changes no message of this one |
| `StreamIndependence.DrainIsEvents` | src/client/mod.rs:837-928 | whatever a receiver drains is such a list of accepted chunks, aborts and resizes, and delivers what they emit |
| `StreamIndependence.DrainedStreamsAreIndependent` | src/client/mod.rs:837-928 | so the messages of one stream, among all that is drained from any bytes, are those of its own chunks by themselves |
| `Staging.WaitingIsShort` | src/chunk/reader.rs:80-82 | a reader that waits for bytes holds less than a header and a message of the largest length |
| `Staging.ChunkSpends` | src/chunk/reader.rs:382-447 | of the bytes held, staged or in flight, a chunk costs at least one, and a message it completes all of its own besides |
| `Staging.BudgetSpends` | src/client/mod.rs:837-843 | a poll that could go on has taken its whole budget from the bytes held |
| `Staging.AmplePollNeverCuts` | src/client/mod.rs:977-980 | a budget of all the bytes held cuts no message short |
| `Staging.PacedNeverOverruns` | src/client/mod.rs:779-781 | a schedule whose reads fit by the sizes of its reads and budgets never overfills the buffer, whatever the bytes are |
| `Staging.AmpleNeverTruncates` | src/client/mod.rs:977-980 | one whose budgets cover what can be held never cuts a message short |
| `Staging.PacedRunsAgree` | src/client/mod.rs:837-928 | so on schedules that are both fragmentation never matters |
| `Staging.DrainEachIsPaced` | src/client/mod.rs:764-788 | draining after each read of up to 4 MiB is such a schedule |
| `Staging.BacklogOverruns` | src/client/mod.rs:837-843 | polled with the budget of 256, one-byte messages pile up by 65280 bytes a read until one does not fit |
| `Staging.ClientCanOverrun` | src/client/mod.rs:779-781 | a concrete input on which this ends the client's connection although the same bytes at once drain to nothing |
| `Staging.ClientCanTruncate` | src/client/mod.rs:977-980 | a concrete input of 255 commands and an aggregate on which the budget loses a part and an error, although polled apart, or drained at once, it ends the connection |
| `Decoding.FirstChunkDecodes` | src/chunk/reader.rs:108-148 | every first header the writer emits reads back field by field |
| `Decoding.ContinuationDecodes` | src/chunk/reader.rs:117-128 | and so does every continuation header |
| `Arrival.ReadFirst` | src/chunk/reader.rs:136-205 | the reader accepts a written first chunk as itself |
| `Arrival.RestArrives` | src/chunk/reader.rs:382-447 | the continuation chunks of a message, however many, complete it |
| `Arrival.MessageArrives` | src/chunk/writer.rs:12-85 | a whole written message is delivered once, and the stream is left with its header |
| `Sync.ChosenHeaderMeans` | src/chunk/media_out.rs:76-123 | a compressed header, read against the receiver's context, means the message sent |
| `Sync.AnnounceArrives` | src/client/mod.rs:522-546 | an announced chunk size is applied before the first chunk that relies on it |
| `Sync.MediaArrives` | src/chunk/media_out.rs:159-180 | a media message arrives and the two header contexts stay equal |
| `Sync.EventArrives` | src/client/mod.rs:645-680 | each thing sent is received as itself and keeps sender and receiver in step, or is itself malformed and ends the connection |
| `Sync.ReceiverRecoversEverything` | src/client/mod.rs:522-546 | for every run of commands, control messages, announcements and media, exactly the sent contents are received and handled, in order, and no byte is left over, if and only if no message sent is a malformed aggregate or container |
| `Sync.RecoveredFromAnyFragmentation` | src/client/mod.rs:837-928 | the same for every fragmentation and polling, if and only if moreover no read overfills the staging buffer and no poll handles a message with fewer messages left than it has parts or tracks |
| `Sync.RecoveredWhenPaced` | src/client/mod.rs:837-928 | and always on a schedule whose read sizes and budgets keep up, which can be checked without running anything, if the budgets also cover what can be held or every message counts once |
| `Sync.RecoveredWhenDrained` | src/client/mod.rs:837-928 | in particular when reads of up to 4 MiB, cut anywhere, are each drained |
| `Sync.QueuePublishChunkSize` | src/client/mod.rs:522-546 | the announcement and the new size take effect together or not at all |
| `Outboxes.OfferedIsWire` | src/client/mod.rs:645-680 | over every run of writes, some of them refused, the bytes added are the wire of the events written |
| `Outboxes.WrittenIsRecovered` | src/client/mod.rs:645-680 | from which a receiver recovers exactly these |
| `Outboxes.SendOne` | src/chunk/writer.rs:12-85 | each writer adds the whole wire of its event and remembers it, or changes nothing |
| `Outboxes.SendAll` | src/client/mod.rs:645-680 | so does any sequence of them on one bounded buffer |
| `Relay.ServedAsDirectly` | src/server/mod.rs:2391-2417 | sharing a body serves a player exactly as encoding for it would, including when the encoding does not fit a buffer |
| `Relay.RelayRefinesDirect` | src/server/mod.rs:2269-2298 | over every run, for any header histories, chunk sizes and decisions of flow control, each player is where it would be on its own |
| `Relay.RelayedIsWire` | src/server/mod.rs:2410-2415 | the bytes a run adds to a player's queue are the wire of the frames accepted for it |
| `Relay.AcceptedAreMeant` | src/server/mod.rs:2418-2424 | these are all the frames flow control lets through, or those before the one the player was stopped at; it is live after the run if and only if they are all and flow control never disconnects it |
| `Relay.EveryPlayerReceives` | src/server/mod.rs:2370-2426 | a receiver in step with its player recovers exactly those frames from the shared bytes, in order, with no byte left over, unless one is a malformed container that it refuses |
| `Relay.BodyArena.Kept` | src/server/mod.rs:308-311 | finds the last body kept for this frame and chunk size, or that there is none |
| `Relay.BodyArena.Encode` | src/server/mod.rs:312-320 | encoding into a reused buffer leaves nothing of the frame before it |
| `Relay.BodyArena.BodyFor` | src/server/mod.rs:302-323 | kept or fresh, the body is the encoding of this frame for this chunk size, or none if it does not fit |
| `Relay.BodyArena.ReleaseUnstaged` | src/server/mod.rs:328-335 | drops exactly the unstaged bodies at the end and keeps an emptied buffer |
| `Relay.BodyArena.MarkStaged` | src/server/mod.rs:2406-2407 | marks one body as in use and changes no contents |
| `StagedSends.MovePosition` | src/session/conn.rs:3681-3692 | moving on by what was sent leaves exactly the rest |
| `StagedSends.QueueRest` | src/session/conn.rs:3694-3702 | what the socket did not take is queued, all of it or nothing |
| `StagedSends.SendStagedMedia` | src/session/conn.rs:3668-3704 | for every sequence of partial writes, the bytes taken and the bytes queued are together the parts, in order, each once |
| `StagedSends.StagedMessages.PushMessage` | src/server/mod.rs:339-359 | a message goes to the end of its player's list and no other list changes |
| `StagedSends.StagedMessages.MessagesOf` | src/server/mod.rs:362-374 | following a list gives the player's messages, all of them, in the order staged |
| `StagedRelay.StagingIsBuffering` | src/server/mod.rs:2391-2408 | over every run, a staging player is where it would be with a send buffer large enough for all that is staged |
| `StagedRelay.StagedPlayerReceives` | src/server/mod.rs:2370-2426 | a receiver in step with a staging player recovers exactly the frames meant for it from what is staged |
| `StagedRelay.RelayFrameToPlayer` | src/server/mod.rs:2370-2426 | one frame is staged or queued for one player as specified, and no other player's parts change |
| `StagedRelay.Stage` | src/session/conn.rs:3634-3657 | the arena holds one more header, message and use of a body, and all that it held before |
| `StagedRelay.FanOut` | src/server/mod.rs:2269-2298 | the loop over the players serves each as specified, whatever they share, stage or are refused |
| `StagedRelay.RelayBatch` | src/server/mod.rs:2237-2302 | a batch of frames leaves each player, and the parts staged for it, where its run says; no staged body is dropped on the way |
| `StagedRelay.PartsFor` | src/server/mod.rs:381-386 | the parts found through a player's list are those staged for it |
| `StagedRelay.SendTo` | src/server/mod.rs:378-397 | what the socket has taken and the send buffer keeps are together those parts |
| `DnsQueue.EnqueueKeepsWakeups` | src/client/mod.rs:116-145 | a turn of `enqueue`, including giving up and relaying, loses no wakeup |
| `DnsQueue.DequeueKeepsWakeups` | src/client/mod.rs:151-165 | nor does a turn of `dequeue_one` |
| `DnsQueue.NotifyKeepsWakeups` | src/client/mod.rs:116-165 | nor does a notification, whichever waiter it wakes |
| `DnsQueue.StepKeepsWakeups` | src/client/mod.rs:116-165 | no step of any thread loses a wakeup |
| `DnsQueue.StepKeepsOrder` | src/client/mod.rs:134-156 | jobs are only added at the back and taken from the front, at most 32 at a time |
| `DnsQueue.StepKeepsAccounts` | src/client/mod.rs:116-145 | a job is in the history exactly when its caller has succeeded, once |
| `DnsQueue.RunKeepsInv` | src/client/mod.rs:116-165 | in every interleaving, free slots never exceed the producers woken plus workers about to notify while a producer is parked, and symmetrically for workers; order, bound and accounts hold |
| `DnsQueue.NobodyWaitsInVain` | src/client/mod.rs:93-104 | when all wakeups have been acted on, producers wait only on a full queue and workers only on an empty one, so never both |
| `DnsQueue.ExpiredNeverEnqueues` | src/client/mod.rs:119-133 | a caller past its deadline never adds a job in the rest of the run |
| `DnsQueue.ServedInOrder` | src/client/mod.rs:151-165 | the jobs served are a prefix of the jobs accepted, at most 32 behind |
| `WindowAck.AdvanceKeepsCounts` | src/client/mod.rs:1177-1187 | the counters stay consistent and acknowledgements spaced, through every event |
| `WindowAck.AdvanceKeepsTrack` | src/client/mod.rs:1256-1263 | the tracked distance follows the newest acknowledgement through every event |
| `WindowAck.AdvanceKeepsPlaces` | src/client/mod.rs:1173-1191 | the acknowledgement's bytes are where it is said to lie in the outbound stream |
| `WindowAck.RunKeepsInv` | src/client/mod.rs:1173-1263 | all three over every run |
| `WindowAck.AtMostOneUnsent` | src/client/mod.rs:1166-1172 | after any run either nothing is tracked and no acknowledgement is unsent, or exactly the newest is unsent and the tracked distance is the bytes before its end; each lies where it is said to |
| `WindowAck.NoCrossingSuppressed` | src/client/mod.rs:1173-1191 | an acknowledgement is queued if and only if none is unsent, a window is owed and the buffer has room |
| `WindowAck.ReportsAreSpaced` | src/message/control.rs:181-190 | any two acknowledgements are at least 1024 bytes apart for each step between them |
| `WindowAck.WireDifference` | src/client/mod.rs:1162-1164 | the 32-bit numbers on the wire give the distance modulo 2^32 although they wrap |
| `WindowAck.AcksAreRare` | src/client/mod.rs:1166-1169 | at most one acknowledgement per 1024 bytes received, over every run |
| `WindowAck.Client.constructor` | src/client/mod.rs:353-356 | nothing counted, tracked or queued |
| `WindowAck.Client.CountReceived` | src/client/mod.rs:782-782 | the 64-bit count saturates |
| `WindowAck.Client.QueueControlMessage` | src/client/mod.rs:1141-1156 | appends a whole control message on chunk stream 2, or nothing |
| `WindowAck.Client.MaybeSendWindowAck` | src/client/mod.rs:1173-1191 | refines the check event; an error only when the buffer is full, and then nothing changes |
| `WindowAck.Client.LearnWindowAndCheck` | src/client/mod.rs:1657-1665 | a new window is applied and checked at once, a refused one ignored; it fails only when an acknowledgement is due and does not fit |
| `WindowAck.Client.NoteOutboundDrained` | src/client/mod.rs:1256-1263 | the distance shrinks by the bytes that left and ends as none |
| `WindowAck.Client.TryFlushSendBuffer` | src/client/mod.rs:1223-1251 | whatever the socket takes, sent and queued bytes together are unchanged and the acknowledgement stays tracked; it fails exactly when the socket reports an error before it stops taking bytes |
| `WindowAck.Client.SendBounded` | src/client/mod.rs:1721-1749 | a failed send leaves exactly the untransmitted tail, so a retry resumes |
| `WindowAck.Client.FlushPendingOutbound` | src/client/mod.rs:1198-1217 | with a deadline, without one, or without a transport: everything leaves the queue, or the tail stays queued and tracked |
| `WindowAck.FlushIsARun` | src/client/mod.rs:1223-1251 | every flush is a run of departures, so the run theorems cover it |
| `Sha256s.WordRoundTrip` | src/sha256.rs:88-93 | words are written and read big-endian |
| `Sha256s.MessageSchedule` | src/sha256.rs:96-108 | the two loops build the 64-word schedule of section 6.2.2 of FIPS 180-4 |
| `Sha256s.Compress` | src/sha256.rs:96-133 | the in-place compression is the FIPS function of the old state and the block |
| `Sha256s.HashedAppend` | src/sha256.rs:62-70 | folding one more block is compressing the folded state |
| `Sha256s.PaddingIsFips` | src/sha256.rs:74-87 | for inputs under 2^61 octets the padding is that of section 5.1.1 of FIPS 180-4 |
| `Sha256s.Hasher.constructor` | src/sha256.rs:38-45 | nothing fed |
| `Sha256s.Hasher.FillBlock` | src/sha256.rs:50-61 | a partly filled block is topped up and folded when full |
| `Sha256s.Hasher.AbsorbBlocks` | src/sha256.rs:62-70 | whole blocks are folded and the remainder buffered |
| `Sha256s.Hasher.Update` | src/sha256.rs:48-71 | after any updates the state is the fold over the whole blocks of the concatenation, with the rest buffered |
| `Sha256s.Hasher.Finalize` | src/sha256.rs:74-93 | gives the digest of everything fed and ends on a block boundary |
| `Sha256s.UpdateAll` | src/sha256.rs:138-140 | feeding parts is feeding their concatenation |
| `Sha256s.Sha256` | src/sha256.rs:136-142 | the digest depends on the concatenation only |
| `Sha256s.PadsOf` | src/sha256.rs:152-157 | both pads are the key xored with their constant |
| `Sha256s.KeyOf` | src/sha256.rs:146-151 | the key block for every key length |
| `Sha256s.HmacSha256` | src/sha256.rs:145-168 | section 2 of RFC 2104 for every key length and every split |
| `Amf0.SkipsBody` | src/amf/amf0.rs:305-427 | the bytes of any value, in front of anything, are skipped if it is within the limits and refused as malformed otherwise |
| `Amf0.NotTheEnd` | src/amf/amf0.rs:289-295 | no member of an object looks like its end marker |
| `Amf0.BodySound` | src/amf/amf0.rs:305-427 | a success consumed exactly one value of the given type, within the limits |
| `Amf0.SkipIsExact` | src/amf/amf0.rs:430-433 | skipping succeeds and leaves `rest` if and only if one value within the limits precedes it |
| `Amf0.LimitsAreExact` | src/amf/amf0.rs:297-298 | a well-formed value is refused exactly when it has more than 32 nested containers or 256 members |
| `Amf0.SkipBody` | src/amf/amf0.rs:305-427 | always terminates, having entered at most one value per byte consumed and one more |
| `Amf0.SkipMarked` | src/amf/amf0.rs:430-433 | enters at most one value per byte consumed, errors included |
| `Amf0.SkipValueDepth` | src/amf/amf0.rs:305-427 | the recursive method leaves the buffer and result the specification says, errors included |
| `Amf0.SkipMarkedValue` | src/amf/amf0.rs:430-433 | the same with the type marker in front |
| `Amf0.SkipItemLoop` | src/amf/amf0.rs:331-344 | the element loop of a strict array |
| `Amf0.SkipMemberLoop` | src/amf/amf0.rs:352-371 | the key loop of an object |
| `Amf0.SkipContainer` | src/amf/amf0.rs:331-424 | the four kinds of container |
| `Multitrack.ContainersAreNotLegacy` | src/ertmp/multitrack_media.rs:36-63 | the test is true exactly for first bytes that can begin a container of that frame type; never for legacy audio formats, video commands or data, and never for audio and video both |
| `Multitrack.HeaderIsNextBody` | src/ertmp/multitrack_media.rs:73-93 | reading a header at a position is parsing the bytes from there on |
| `Multitrack.ParseEncoded` | src/ertmp/multitrack_media.rs:99-161 | every container of 1 to 4096 tracks in each of the three forms is parsed back |
| `Multitrack.ParsedIsEncoded` | src/ertmp/multitrack_media.rs:99-161 | and nothing else is: the header and the track slices tile the payload |
| `Multitrack.WalkFrom` | src/ertmp/multitrack_media.rs:130-160 | the walk succeeds exactly when all remaining bytes are tracks, and has then visited each |
| `Multitrack.WalkTracks` | src/ertmp/multitrack_media.rs:99-161 | the same for the whole payload |
| `Multitrack.ForeachTrack` | src/ertmp/multitrack_media.rs:166-172 | true if and only if the payload encodes a container, then visiting exactly its tracks in order; otherwise visiting nothing |
| `ModexWrappers.ParseIsNextLayer` | src/media/modex.rs:44-65 | parsing a layer at a position is reading the bytes from there on |
| `ModexWrappers.PeelWrapped` | src/media/modex.rs:90-132 | any payload behind 1 to 32 layers of either size form is peeled back to itself; behind more it is left alone |
| `ModexWrappers.PeeledWasWrapped` | src/media/modex.rs:90-132 | whatever is peeled was wrapped in 1 to 32 layers around the result |
| `ModexWrappers.PeelIsExact` | src/media/modex.rs:90-132 | peeling gives `p` if and only if the payload is `p` behind 1 to 32 layers |
| `ModexWrappers.NormalizeModexPayload` | src/media/modex.rs:90-132 | the loop peels completely or returns the payload as it was |
| `ModexWrappers.NormalizedTwice` | src/media/modex.rs:90-132 | normalising is idempotent |
| `ModexWrappers.ModexWrite` | src/ertmp/modex.rs:97-115 | writes five bytes of one layer, or nothing, and touches nothing behind them |
| `ModexWrappers.PrefixOfLayer` | src/ertmp/modex.rs:60-85 | the one-layer parser takes exactly one layer of any kind, and refuses only a timestamp shorter than three bytes |
| `ModexWrappers.WriteRoundTrip` | src/ertmp/modex.rs:60-115 | what is written is read back unchanged if and only if the offset has 24 bits and the packet type 4 |
| `ModexWrappers.FollowAgrees` | src/ertmp/modex.rs:53-85 | following a chain layer by layer agrees with the peeling loop if and only if no timestamp in it is too short |
| `ModexWrappers.ReadsWritten` | src/ertmp/modex.rs:60-115 | extensions written one after another are read back one after another, each up to the width of its fields |
| `ModexWrappers.WrittenIsChain` | src/ertmp/modex.rs:97-115 | extensions that announce each other are a chain of layers |
| `ModexWrappers.WrittenChainPeels` | src/ertmp/modex.rs:97-115 | such a chain in front of a packet is peeled to that packet, followed to it, and read back as written |
| `ConnectCaps.WireWalks` | src/ertmp/connect_caps.rs:168-182 | the probe of a layout goes through on its wire form |
| `ConnectCaps.WireParses` | src/ertmp/connect_caps.rs:191-230 | and reading it gives the entries that were written |
| `ConnectCaps.WalkTakes` | src/ertmp/connect_caps.rs:168-182 | how many bytes a probed layout can take |
| `ConnectCaps.LayoutsAreDisjoint` | src/ertmp/connect_caps.rs:183-190 | no bytes are both layouts at once |
| `ConnectCaps.BlobParses` | src/ertmp/connect_caps.rs:154-231 | every blob of at most 16 entries is decoded in the layout it was written in, legacy ones included |
| `ConnectCaps.ParseIsSound` | src/ertmp/connect_caps.rs:154-231 | every accepted blob was one of the two layouts, all of it |
| `ConnectCaps.MapRoundTrip` | src/ertmp/connect_caps.rs:154-260 | parse after write returns the same map if and only if its entries are the bare wildcard or a code not starting like it |
| `ConnectCaps.ProbeLayout` | src/ertmp/connect_caps.rs:168-182 | the probing loop ends where the layout does, or finds that it does not fit |
| `ConnectCaps.ReadEntries` | src/ertmp/connect_caps.rs:191-230 | the reading loop gives the entries of the layout, or fails with it |
| `ConnectCaps.VideoFourccInfoMapParse` | src/ertmp/connect_caps.rs:154-231 | probe, choose and read as specified |
| `ConnectCaps.NeededIsExact` | src/ertmp/connect_caps.rs:235-238 | the room asked for is exactly the room used |
| `ConnectCaps.VideoFourccInfoMapWrite` | src/ertmp/connect_caps.rs:234-260 | the whole blob with masks, or nothing, and no byte behind it changes |

## Left out

- Receivers.DrainReadyMessages: answering pings is not modelled, and so neither is the limit on pings in a time window, nor a failure to queue an answer; what a frame callback is given is a record.
- Sync.ReceiverRecoversEverything: a command or control message here is any message but a hand-made SetChunkSize, which the client sends only through its announcement.
- StreamIndependence.StreamsAreIndependent: speaks of wires whose chunks are all accepted; `CapsAreTheOnlyCoupling` says when one is not.
- WindowAck.Client.FlushPendingOutbound: how much a failed send without deadline has transmitted is not modelled, since the client does not know it.
- StagedRelay.FanOut: how flow control decides, from backlogs and times, which frames to skip and when to disconnect is not modelled: it may decide anything. Which connections are players of a frame, and how many frames a poll takes on, is given.
- Multitrack.WalkTracks: the visitor is a record of what it is given, not arbitrary code.
- AMF commands behind the drain loop, which do not touch the chunk layer.
- The exact wait times, deadlines and poll directions of the client, and the socket itself.
- What a DNS worker does with a job after taking it.
- Scratch and payload allocations kept per chunk stream, which affect memory use and no result.
- Raw access to the buffer by `set_size`, `set_read_pos` and `as_mut_slice`, and `chunk_write_extended_timestamp`, which nothing else uses.
- Connect, handshake, TLS, URL parsing, the rest of the server and its sessions, and the stream cache, which depend on time and input or output.
- FLV, codec configuration, metadata, reconnect and the other fixed-field decoders, and the FourCC list and capability flags of `connect_caps.rs`: easier members of the same kind.
- AMF0 encoding of typed values and AMF3; numbers are opaque octets and strings are not checked for UTF-8.
