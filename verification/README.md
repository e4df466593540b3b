# NodePass: reassembly, reload and relay

A Dafny model of three parts of NodePass, and proofs about them.

**Multiplexed data path** (`internal/mux`). `Aggregator.Write` cuts a write into numbered frames and
spreads them over several transports; `Reassembler.Process` takes them in any order and puts the
chunks on a 100-slot channel in sequence, handing the sending right to a retry goroutine when the
channel is full.

- `SessionProtocol` is one session as a state machine. An event is the part of a critical section
  that others can see at once; because the consumer takes no lock, each section is cut in two between
  the channel send and the accounting after it. A run is any legal sequence of events: any number of
  `Process` calls, the retry goroutine at any of its program points, `RemoveSession`, the consumer.
- `HonestRuns` and `Delivery` prove what runs keep, that they end, and what they deliver to a consumer
  that acknowledges each chunk before it takes the next. `LazyRuns` and `Stranded` say which writes
  reach every consumer, however late it acknowledges.
- `SessionBuffers` and `Reassembly` are the code's classes; `Arrivals` says what calls of `Process` leave
  on the channel. Each critical section is a method that
  updates the fields step by step and is proved to take exactly the machine's events.
- `Framing`, `Aggregation` and `RoundRobin` are the sending side, and `EndToEnd` joins both ends.

**NP-Chain frames and relaying** (`internal/protocol/npchain`, `internal/outbound/npchain.go`,
`internal/inbound/tcp.go`). `NPChainCodec` is the byte format, `NPChainFrames` are `Encode` and
`Decode` as loops over a buffer and a cursor, `Relay` is the read-route-forward step and paths of it.
`NPChainMeaning` says byte by byte, and in the library's terms, what they write, accept and refuse.
`SampleNets` holds a library that keeps the laws the proofs assume of Go's.

**Hot reload** (`internal/agent`, `internal/routing`). `Configs` and `ConfigDiffs` are validation, the
difference of two configurations and the reconciled configuration; `Routing` is the router with its
group index; `Agents` is the agent: start-up, prepare, and the phases of the commit, where creating,
starting and stopping a handler may fail at any time and map order is arbitrary. The environment's
answers are recorded (`Answers`), and what an operation reports is stated in terms of them.

## What was found

- The default chunk size of 65536 does not fit the 16-bit size field: every full chunk is announced as
  empty. Data survives exactly when there are fewer than 65536 bytes (`Framing.DefaultChunkSizeExact`).
- A flow-control pause is never lifted: `OnConsumed` does not look for stored chunks, so a consumer
  that acknowledges late can be left waiting for ever. A write reaches every consumer, however late it
  acknowledges, exactly when all of it but the last chunk fits the window of 16 MiB
  (`Stranded.LateAcksExact`; `EndToEnd.LateAcksExact` says so of the length and the chunk size). A
  consumer that acknowledges each chunk before it takes the next gets a write of any size
  (`Delivery.CompleteDelivery`, `Delivery.NeverPaused`).
- Past 2^31 frames the transport counter is negative, and then the index may be. All frames of a write
  find a transport exactly when the counter stays below 2^31, or reaches it with the last frame on a
  number of transports that divides it, or there is only one transport
  (`Aggregation.WriteInRangeExact`, `Aggregation.CounterOverflowPanics`).
- `nodeEqual` takes a node that trades an empty tag for another one to be unchanged
  (`ConfigDiffs.SameNodeConfuses`). It is right about every other node exactly when the running one has
  no empty tag (`ConfigDiffs.NoEmptyTagExact`).
- Adding an outbound under a name that a member of a group already holds leaves the old handler in the
  group (`Routing.AddKeepsIndex`, `Routing.StaleMember`). `Start` after `Stop` adds every outbound
  again, so the group index survives it exactly when no outbound belongs to a group (`Agents.Restart`).
- Encode takes any number for a port and keeps its low 16 bits: a hop with port 70000 is accepted, and
  the node that decodes the frame dials port 4464 (`NPChainFrames.PortIsCut`,
  `SampleNets.Port70000Becomes4464`). A hop comes back with the same text exactly when its port is in
  range, host and port are joined as Go joins them, and the host is a name of at most 30 bytes or an
  address in Go's own spelling (`NPChainFrames.CanonicalExact`). More than 255 hops are cut silently
  (`NPChainCodec.FrameRoundTrip`).
- Encode does not undo Decode on every frame: an IPv4 address sent as an IPv6 entry, or a domain spelled
  like an address, changes its type (`NPChainFrames.MappedEntryChanges`; exact condition in
  `NPChainFrames.FrameReencodeExact`).
- Round-robin selection is fair across the wrap of its 64-bit counter exactly when the number of members
  divides 2^64 (`Routing.RoundRobinExact`).
- `docs/protocol.md:52-59` shows the chain getting shorter at each relay. The code puts the target back
  (`internal/outbound/npchain.go:59-64`), so every link carries the whole chain; the model follows the
  code. `docs/protocol.md:45` limits a domain to 26 bytes, the code to 30
  (`internal/protocol/npchain/codec.go:158`).
- `internal/agent/agent.go:292` says that a reload excludes `Stop`, but `Stop` does not take the reload
  lock (`internal/agent/agent.go:200`); the model makes no claim about the two together.

## Model

| member | source | states |
|---|---|---|
| EndToEnd.WriteArrives | internal/mux/aggregator.go:51-104 | for all data, transports, interleavings, arrival orders and repetitions: once every frame is processed and nothing can happen, output is closed and the consumer holds exactly the data (chunk sizes 1..65535); at the default size, the last length mod 65536 bytes |
| EndToEnd.WriteCanArrive | internal/mux/reassembler.go:44-277 | for every write and placement there is such a run: frames processed, nothing left to happen |
| EndToEnd.LinksCarryTheWire | internal/mux/aggregator.go:93-98 | the transports together carry the frames of the write and nothing else |
| EndToEnd.FedIsHonest | internal/mux/reassembler.go:44-102 | what Process stores from the wire is a frame of the write, and the other way round |
| EndToEnd.ChunksArrive | internal/mux/reassembler.go:44-277 | the chunks received are those the size field carried, in order |
| Delivery.CompleteDelivery | internal/mux/reassembler.go:44-277 | a quiescent session all of whose frames were processed has delivered the whole write and closed output |
| Delivery.WriteCanArrive | internal/mux/reassembler.go:44-277 | every write has a run from a fresh session that delivers it |
| Delivery.HonestRunsAreFinite | internal/mux/reassembler.go:117-277 | between two frames a run with a prompt consumer takes at most a bounded number of steps |
| Delivery.CanFinish | internal/mux/reassembler.go:117-277 | every reachable session can be driven to quiescence without another frame |
| Delivery.EveryRunIsSafe | internal/mux/reassembler.go:171-277 | over all interleavings: no send after close, no second close, one retry goroutine, retrying true exactly while it lives, outputClosed implies done and not retrying; what was sent is numbered 0, 1, 2, ...; nextSeq counts it less the one unaccounted chunk; bytes accounted are consumed plus buffered |
| Delivery.ShutdownTerminates | internal/mux/reassembler.go:178-205 | after done is closed the retry goroutine takes at most two more steps, none needs the consumer, and then output is closed |
| Delivery.ExitStep | internal/mux/reassembler.go:243-275 | a live retry goroutine always has an enabled step once done is closed |
| Delivery.ShutdownStep | internal/mux/reassembler.go:196-275 | each of its steps brings it nearer to its exit, no other step takes it further away, and after done nothing is stored or accounted any more |
| Delivery.NeverPaused | internal/mux/reassembler.go:133-136 | with a prompt consumer: buffered stays within -65535 and 101*65535, below the window; the consumer holds a prefix of the write; a stored next chunk always has somebody who will send it |
| Delivery.QuiescentIsIdle | internal/mux/reassembler.go:117-277 | when no step is possible there is no call under way, no retry goroutine, and the channel is drained |
| Delivery.NextIsStored | internal/mux/reassembler.go:102 | an unfinished session all of whose frames were processed still has its next chunk |
| EndToEnd.LateAcksExact | internal/mux/reassembler.go:133-136 | at an accepted chunk size, every run that has processed all frames and come to rest has delivered the write, however late acknowledgements come, if and only if the full chunks before the last one fit the window: (length - 1) / size * size <= 16 MiB |
| Stranded.LateAcksExact | internal/mux/reassembler.go:291-299 | the same for any write of chunks: if and only if the bytes of all chunks but the last fit the window |
| LazyRuns.FittingWriteIsDelivered | internal/mux/reassembler.go:133-136 | a write that fits is never paused, so it is delivered |
| Stranded.LateAckStrands | internal/mux/reassembler.go:291-299 | a write that does not fit has a run in which the consumer acknowledges everything it got, late, and is left with the rest stored and nobody to send it |
| LazyRuns.SomeRunSettles | internal/mux/reassembler.go:44-277 | every write of non-empty chunks has a run of the kind these theorems quantify over |
| Stranded.EagerConsumerIsStranded | internal/mux/reassembler.go:291-299 | an instance: a run of 258 full chunks after which the account is zero, the last chunk is stored, and no goroutine will send it |
| HonestRuns.OnlyAPauseLosesAWakeup | internal/mux/reassembler.go:132-141 | in any run, a step leaves a sendable chunk with nobody to send it if and only if it is the flow-control pause of the last call under way |
| HonestRuns.BufferedBound | internal/mux/flowcontrol.go:22-35 | the byte account of a prompt consumer is bounded on both sides although OnBuffered lags the send |
| HonestRuns.SentIsPrefix | internal/mux/reassembler.go:117-169 | the chunks sent are a prefix of the write |
| HonestRuns.LastInFlight | internal/mux/reassembler.go:104-107 | when the last chunk is in flight its FIN has been recorded |
| HonestRuns.InvStep | internal/mux/reassembler.go:93-277 | every step keeps all the session invariants |
| SessionProtocol.SafeStep | internal/mux/reassembler.go:176-318 | every step keeps channel safety and the ownership of the sending right |
| SessionProtocol.InOrderStep | internal/mux/reassembler.go:117-277 | every step keeps the numbering of what was sent and the position of nextSeq |
| SessionProtocol.BalancedStep | internal/mux/flowcontrol.go:27-35 | every step keeps accounted bytes equal to consumed plus buffered |
| SessionProtocol.InvariantsHold | internal/mux/reassembler.go:93-318 | these three hold in every state any run reaches |
| SessionBuffers.SessionBuffer.Store | internal/mux/reassembler.go:94-108 | the first critical section of Process is the machine's Store event |
| SessionBuffers.SessionBuffer.StepTry | internal/mux/reassembler.go:133-164 | pause, missing chunk, non-blocking send, or hand-over: the machine's TryStep |
| SessionBuffers.SessionBuffer.AccountTry | internal/mux/reassembler.go:146-158 | accounting after a send, and the FIN branch: the machine's TryAccount |
| SessionBuffers.SessionBuffer.TryReassemble | internal/mux/reassembler.go:117-169 | the whole call, with the consumer moving anywhere inside it, is a legal run that ends with the lock free and nothing left that it could send; on a session that is done, removed or not, it returns at once |
| SessionBuffers.SessionBuffer.OthersMove | internal/mux/reassembler.go:108-111 | what other calls, the retry goroutine, the consumer and RemoveSession do while the lock is free is a legal run that leaves the caller's pending call alone |
| SessionBuffers.RunsStayReachable | internal/mux/reassembler.go:93-318 | so whatever is called on a new buffer, the promises about every run hold of it |
| SessionBuffers.SessionBuffer.RetryLocked | internal/mux/reassembler.go:197-237 | the locked half of the retry loop is the machine's RetryLocked |
| SessionBuffers.SessionBuffer.RetryAccount | internal/mux/reassembler.go:218-233 | its accounting inside the lock is RetryAccount |
| SessionBuffers.SessionBuffer.RetrySend | internal/mux/reassembler.go:243-244 | the blocking send outside the lock is RetrySend |
| SessionBuffers.SessionBuffer.RetryAbort | internal/mux/reassembler.go:271 | the done branch of that select is RetryAbort |
| SessionBuffers.SessionBuffer.RetryExit | internal/mux/reassembler.go:271-274 | leaving through retryExit with the lock taken is RetryExit |
| SessionBuffers.SessionBuffer.RetryAfterSend | internal/mux/reassembler.go:246-269 | taking the lock again after the blocking send is RetryAfterSend |
| SessionBuffers.SessionBuffer.GiveUpRetry | internal/mux/reassembler.go:178-194 | retrying is given back, and output is closed when done is |
| SessionBuffers.SessionBuffer.Remove | internal/mux/reassembler.go:311-317 | done is closed, and output too unless a retry goroutine will do it |
| SessionBuffers.SessionBuffer.OnConsumed | internal/mux/reassembler.go:297-298 | only the byte account changes |
| FlowControl.WindowFlowController.ShouldPause | internal/mux/flowcontrol.go:22-24 | true exactly when more than the window is buffered |
| FlowControl.WindowFlowController.OnConsumed | internal/mux/flowcontrol.go:27-30 | moves n bytes from buffered to consumed |
| FlowControl.WindowFlowController.OnBuffered | internal/mux/flowcontrol.go:33-35 | adds n bytes to buffered and leaves consumed alone |
| Reassembly.ReadFrame | internal/mux/reassembler.go:45-76 | the cursor reads exactly the header and chunk of ParseFrame, with the same error at the same field |
| Reassembly.Reassembler.LoadOrStore | internal/mux/reassembler.go:84-91 | an existing session is kept, a new one starts fresh, and no two ids share a buffer |
| Reassembly.Reassembler.Process | internal/mux/reassembler.go:44-112 | a bad frame changes nothing; a good one is stored in its own session and no other; then, unless that was done, others may move, and then the call runs a section of its own that gives up its pending entry and leaves nothing it could send |
| Reassembly.Reassembler.OnConsumed | internal/mux/reassembler.go:291-299 | a session in the table has its account changed, and nothing else happens |
| Arrivals.ProcessEach | internal/mux/reassembler.go:44-169 | one call for every frame of a write, in any order and with repetitions, nobody else moving: no call is pending, and the chunks are on the channel in sequence, up to 100 of them; the session is closed exactly if that was all, else a retry goroutine has the rest |
| Reassembly.Reassembler.RemoveSession | internal/mux/reassembler.go:305-318 | the id is dropped and its buffer shut down |
| Framing.SplitJoins | internal/mux/aggregator.go:58-64 | the chunks concatenate to the data |
| Framing.SplitSizes | internal/mux/aggregator.go:59-64 | there are ceil(length/chunkSize) chunks, all full but the last, none empty |
| Framing.FrameParses | internal/mux/reassembler.go:45-76 | parsing a frame gives back session id, number mod 2^32, FIN, and the chunk cut to its length mod 65536 |
| Framing.FrameBytes | internal/mux/aggregator.go:67-90 | every byte of a frame: id, number and size high byte first, 1 for FIN, 0, chunk |
| Framing.ParseExact | internal/mux/reassembler.go:45-76 | exactly which bytes are taken for which frame |
| Framing.SmallChunksSurvive | internal/mux/aggregator.go:44-48 | for the sizes SetChunkSize accepts, every chunk is read back whole |
| Framing.DefaultChunkSizeLoses | internal/mux/aggregator.go:21-22 | at the default size exactly the last length mod 65536 bytes are read back |
| Framing.DefaultChunkSizeExact | internal/mux/aggregator.go:77 | at the default size the data survives if and only if it is shorter than 65536 bytes |
| Aggregation.Aggregator.SetChunkSize | internal/mux/aggregator.go:44-48 | sizes outside 1..65535 are ignored |
| Aggregation.Aggregator.Write | internal/mux/aggregator.go:51-104 | the frames placed are a prefix of the framed split, each on its round-robin transport; it is the whole of it unless a transport refuses a frame or the index is negative, and the result says which and where |
| Aggregation.BuildFrame | internal/mux/aggregator.go:67-90 | the bytes of one frame, for a sequence number that has wrapped like a uint32 |
| Aggregation.SlotInRange | internal/mux/aggregator.go:93-94 | exactly when the index of one frame is out of range |
| Aggregation.WriteInRangeExact | internal/mux/aggregator.go:93-94 | every frame of a write of m has an index in range if and only if there is one transport, or the counter stays below 2^31, or it reaches 2^31 with the last frame and the number of transports divides 2^31 |
| Aggregation.CounterOverflowPanics | internal/mux/aggregator.go:93-94 | three transports and a counter at 2^31-1 give a negative index |
| Aggregation.PlacedExactly | internal/mux/aggregator.go:93-98 | each frame is on the transport its index names, and no transport has anything else |
| Aggregation.PlacedFairly | internal/mux/aggregator.go:93-94 | m frames put floor(m/n) or one more on each of n transports |
| RoundRobin.Fair | internal/mux/aggregator.go:93 | m consecutive counts fall floor(m/n) times or once more on each residue |
| NPChainFrames.EncodeHop | internal/protocol/npchain/codec.go:131-173 | writes the entry the hop resolves to, or nothing and the error |
| NPChainFrames.Encode | internal/protocol/npchain/codec.go:35-63 | the frame of the resolved hops, or the first error |
| NPChainMeaning.EncodeSucceedsExact | internal/protocol/npchain/codec.go:35-63 | Encode succeeds if and only if the id is a UUID and every hop splits, with an address or at most 30 bytes of name |
| NPChainMeaning.EncodeErrorExact | internal/protocol/npchain/codec.go:46-57 | otherwise the error names the session id, or what is wrong with the first bad hop |
| NPChainMeaning.EncodedMeans | internal/protocol/npchain/codec.go:35-222 | decoding what was encoded gives back id and payload, and hops with the same address, or the same name, and the port mod 65536, however they were spelled |
| NPChainMeaning.FrameBytes | internal/protocol/npchain/codec.go:39-60 | every byte of a frame: magic 4E 50 43 32, version 1, count mod 256, zeros, id, per hop 34 bytes of type, port, length, address and zeros, payload |
| NPChainMeaning.DecodeEntryExact | internal/protocol/npchain/codec.go:176-222 | exactly which bytes are read as which entry, and what is left after it |
| NPChainMeaning.DecodeHeaderExact | internal/protocol/npchain/codec.go:66-109 | when a frame is too short, has the wrong magic or version, and that nothing else in the header matters |
| NPChainFrames.ReadEntry | internal/protocol/npchain/codec.go:177-201 | the raw entry at the cursor, and a cursor past its padding, or at the end when the padding is cut short |
| NPChainFrames.DecodeHop | internal/protocol/npchain/codec.go:176-222 | the text of the entry at the cursor, or the error |
| NPChainFrames.DecodeHops | internal/protocol/npchain/codec.go:111-119 | the texts of the announced number of entries, or the first error |
| NPChainFrames.Decode | internal/protocol/npchain/codec.go:66-128 | session id, hop texts and payload, or the error of the first field that is wrong |
| NPChainCodec.FrameRoundTrip | internal/protocol/npchain/codec.go:42 | decoding gives the first (count mod 256) hops; the other entries end up in the payload |
| NPChainCodec.FrameRoundTripExact | internal/protocol/npchain/codec.go:35-128 | a frame reads back as written if and only if it has at most 255 hops |
| NPChainCodec.EntryRoundTrip | internal/protocol/npchain/codec.go:130-222 | an encodable entry reads back, and what follows it is left over |
| NPChainFrames.TextRoundTrip | internal/protocol/npchain/codec.go:35-222 | frame length 24+34n+payload, within the 2-byte prefix when there is no payload; Decode undoes Encode if and only if there are at most 255 hops, each canonical: a port in range, joined as Go joins, a short name or an address in Go's spelling |
| NPChainFrames.CanonicalExact | internal/protocol/npchain/codec.go:131-222 | those conditions, all of which a caller can test beforehand, hold if and only if the hop has the same text after a frame as before |
| NPChainFrames.PortKeptExact | internal/protocol/npchain/codec.go:137-163 | the port written is the port given if and only if that is in 0..65535; otherwise it is the port mod 65536 |
| NPChainFrames.PortIsCut | internal/protocol/npchain/codec.go:137-163 | a hop with a port out of range is encoded, and decodes to a hop with another port |
| SampleNets.Port70000Becomes4464 | internal/protocol/npchain/codec.go:137-163 | an input for which that happens |
| SampleNets.SampleIsLawful | internal/protocol/npchain/codec.go:131-156 | the laws assumed of the library's text functions can be kept |
| NPChainFrames.FrameCanonical | internal/protocol/npchain/codec.go:66-128 | writing the decoded entries again, as entries, changes only the reserved field and hop padding, also when the last padding is cut short |
| NPChainFrames.FrameReencodeExact | internal/protocol/npchain/codec.go:35-222 | Encode of what Decode returned gives back that same frame if and only if every entry is written as Encode writes it: IPv4, IPv6 that is not IPv4-mapped, or a domain that splits back and is no address |
| NPChainFrames.MappedEntryChanges | internal/protocol/npchain/codec.go:145-156 | an accepted frame that it does not give back |
| NPChainFrames.ReencodeExact | internal/protocol/npchain/codec.go:145-156 | exactly which entries survive decoding to text and encoding again |
| NPChainFrames.ResolveStable | internal/protocol/npchain/codec.go:131-156 | after one pass through Encode, text and entries no longer change |
| Relay.ReadStream | internal/inbound/tcp.go:29-71 | what a node reads off a connection: length, frame, target and rest, or the error |
| Relay.Dial | internal/outbound/npchain.go:59-83 | what it writes for that: length prefix and the frame with the target put back, or nothing |
| Relay.AdmitExact | internal/inbound/tcp.go:29-71 | what a node accepts, and which hop becomes the target |
| Relay.ForwardExact | internal/outbound/npchain.go:61-79 | two length bytes, high byte first, and the frame of target and chain |
| Relay.EncodedIsFixed | internal/outbound/npchain.go:59-83 | an encoded payload-free frame of 1..255 hops is byte-identical on the next link, length prefix included |
| Relay.ForwardedIsEncoded | internal/inbound/tcp.go:50-71 | only frames of 1..255 hops are forwarded, and what is forwarded is an encoded frame |
| Relay.PathIsIdentity | internal/inbound/tcp.go:29-71 | along a path of any length after the first relay, the bytes, session id, target and hop chain stay the same |
| Relay.EncodedPath | internal/outbound/npchain.go:59-83 | from Encode on, every link carries the same bytes, and the last node dials the first hop as it was given exactly when it is canonical: port in range and Go's spelling |
| ConfigDiffs.DiffInbounds | internal/agent/config.go:244-271 | added, updated and removed are exactly what separates the two inbound maps, each once, in whatever order |
| ConfigDiffs.DiffOutbounds | internal/agent/config.go:273-300 | the same for outbounds |
| Configs.DeltaExact | internal/agent/config.go:255-271 | applying the difference to the old map gives the new one; its three parts are disjoint; it is empty if and only if the maps are equal |
| ConfigDiffs.AuthEqual | internal/agent/config.go:329-343 | true exactly for equal authentication settings |
| ConfigDiffs.InboundEqual | internal/agent/config.go:311-317 | true exactly for equal inbound entries |
| ConfigDiffs.OutboundEqual | internal/agent/config.go:366-373 | true exactly for equal outbound entries |
| ConfigDiffs.RoutingEqual | internal/agent/config.go:376-388 | true exactly for equal rule lists |
| ConfigDiffs.NodeEqual | internal/agent/config.go:346-363 | computes SameNode, where a missing tag reads as the empty string |
| ConfigDiffs.SameNodeExact | internal/agent/config.go:356-360 | it means equality exactly when no empty tag is missing on the other side |
| ConfigDiffs.NoEmptyTagExact | internal/agent/config.go:356-360 | it means equality for every new node if and only if the running node has no empty tag |
| ConfigDiffs.SameNodeConfuses | internal/agent/config.go:356-360 | two different nodes it takes for equal, in one direction only |
| ConfigDiffs.DiffConfig | internal/agent/config.go:236-308 | node flag, both entry differences and rules flag are exact |
| ConfigDiffs.HasChangesExact | internal/agent/config.go:400-409 | false if and only if the nodes pass for the same and both maps and the rules are equal |
| ConfigDiffs.ValidateConfig | internal/agent/config.go:33-136 | no error exactly for the configurations that satisfy every condition, spelled out; in particular an error for every TCP inbound beside a TCP outbound; otherwise the first error there is, with its index |
| ConfigDiffs.ValidateInbounds | internal/agent/config.go:58-95 | the first inbound with a fault, and the first of its faults in the order of the tests |
| ConfigDiffs.ValidateOutbounds | internal/agent/config.go:97-128 | the same for outbounds |
| ConfigDiffs.DetectTcpOverTcp | internal/agent/config.go:139-166 | found exactly when there are both a TCP inbound and a TCP outbound; names the first such outbound |
| ConfigDiffs.BuildReconciled | internal/agent/agent.go:635-660 | the reconciled configuration: the old one in all but the inbounds, and those in their old order |
| ConfigDiffs.KeptIndex | internal/agent/agent.go:644-660 | as a map it is the old one without the lost listens and with the committed updates |
| ConfigDiffs.PartialReloadConverges | internal/agent/agent.go:540-574 | its difference to the new configuration is the undone work: committed updates vanish, lost listens are added, skipped updates and everything else stay |
| Routing.AddKeepsIndex | internal/routing/router.go:158-168 | adding keeps the group index if and only if the name is free or its holder has no group |
| Routing.StaleMember | internal/routing/router.go:163-168 | otherwise the replaced handler stays in its group |
| Routing.RemoveKeepsIndex | internal/routing/router.go:177-198 | removing always keeps it |
| Routing.RoundRobinExact | internal/routing/router.go:127-136 | n consecutive selections take n different members wherever the counter stands, if and only if n divides 2^64 |
| Routing.SelectionRound | internal/routing/router.go:127-136 | as many calls of SelectRoundRobin as an unchanged group has members return exactly its members, each once, in order from some member on, unless the counter wraps and their number does not divide 2^64 |
| Routing.Router.AddOutbound | internal/routing/router.go:158-174 | name map gains any outbound, its group gains it at the end; the index stays right exactly when the name was free or held by an outbound of no group |
| Routing.Router.RemoveOutbound | internal/routing/router.go:177-204 | name map and group lose it, the order of the others and all other groups stay |
| Routing.DropFirst | internal/routing/router.go:192-197 | the list without its first member of that name |
| Routing.Router.SelectRoundRobin | internal/routing/router.go:127-136 | the member at the counter's next index; only this group's counter moves |
| Routing.SelectLeastLoad | internal/routing/router.go:139-155 | the first member with the highest score |
| Routing.Router.SelectFromGroup | internal/routing/router.go:95-124 | a member of the group as its strategy says, or none exactly when the group is empty |
| Routing.Router.Route | internal/routing/router.go:41-92 | of the rules that match by their kind and name a registered outbound, or no outbound but a group, the first is obeyed; without one there is no outbound; only registered outbounds are returned |
| Routing.FirstDecides | internal/routing/router.go:46-75 | the decision is that of the first such rule |
| Routing.PickIs | internal/routing/router.go:134 | the index is the counter plus one, mod 2^64, mod the number of members |
| Agents.Agent.PrepareDiff | internal/agent/agent.go:386-431 | all new handlers are made, or a creation was refused and nothing running is touched |
| Agents.Agent.StartAndWait | internal/agent/agent.go:671-741 | all were asked to start; it reports success exactly if all came up, else all were asked to stop, and whether a Stop failed |
| Agents.Agent.StopAll | internal/agent/agent.go:543-551 | all were asked to stop; says exactly whether some Stop failed |
| Agents.Agent.UpdateOne | internal/agent/agent.go:474-536 | new handler in place exactly if the old one stopped and it came up; old one kept exactly if its Stop failed; neither if it did not come up |
| Agents.Agent.UpdateInbounds | internal/agent/agent.go:467-538 | the map holds new handlers for the updates that came up, old ones where Stop failed, and none for those that did not come up |
| Agents.Agent.RollBack | internal/agent/agent.go:541-574 | the added handlers are stopped, and the configuration is reconciled exactly when something has changed |
| Agents.Agent.RemoveInbounds | internal/agent/agent.go:580-592 | the removed listens are gone, their handlers stopped or known not to be |
| Agents.Agent.RegisterOutbounds | internal/agent/agent.go:615-620 | new outbounds are in the map, the names and the groups |
| Agents.Agent.ApplyOutbounds | internal/agent/agent.go:599-626 | outbound map, names, group index and rules go from the old configuration to the new, also when an update changes a group |
| Agents.Agent.CommitDiff | internal/agent/agent.go:439-629 | success exactly without a failed Start and a failed Stop of an updated inbound, and then the new configuration with every unchanged handler kept; a plain error has changed nothing; partial exactly if an old inbound was stopped or an added one could not be |
| Agents.Agent.ReloadConfig | internal/agent/agent.go:293-340 | what it reports follows exactly from what creation, Start and Stop answered; maps, router and stored configuration agree afterwards, every inbound in the map came up and is live; a failure that is not partial leaves everything as it was, and a failed commit leaves inbounds to be changed |
| Agents.Agent.InitOutbounds | internal/agent/agent.go:348-372 | whatever was registered before: outbound map, names and rules of the configuration, laid over it; the index stays right exactly when no name taken over belonged to a group |
| Agents.Agent.InitInbounds | internal/agent/agent.go:836-865 | the inbounds of the configuration, all started and in the map; or the map as it was, with nothing live but what a Stop failed on |
| Agents.Agent.Start | internal/agent/agent.go:111-169 | succeeds exactly if it was not running, nothing was refused and every inbound came up, be it a first start, one after a failure, or one after Stop; the maps, names and rules are then those of the configuration; the agent is valid exactly when no name was held by a member of a group |
| Agents.Agent.Stop | internal/agent/agent.go:172-214 | every inbound is asked to stop, success exactly if all did, and the agent can be started again |
| Agents.Restart | internal/agent/agent.go:111-214 | after Stop and Start the agent is valid if and only if no outbound of its configuration belongs to a group |
| Agents.Lifecycle | internal/agent/agent.go:93-340 | New, one Start, any reloads: the agent mirrors its stored configuration, which is the first one while no reload was carried out even in part |
| Agents.ReloadAfterFailure | internal/agent/agent.go:540-574 | after a failed commit a second reload of the same configuration finds something to do, and after a partial one it is exactly the undone work |
| Agents.ReloadAgain | internal/agent/agent.go:311-317 | a reload of what was just reloaded is a no-op |

## Left out

- Sockets, accept loops, TLS, QUIC and WebSocket adapters, dial timeouts, the copy loop of a session: input and output.
- Whether a listener is really bound: a failing `Start` also closes `ready` (`internal/inbound/tcp.go:168-173`), so the ready branch can win the select (`internal/agent/agent.go:695-697`). The model knows which handlers were started and which had a successful `Stop`.
- `Stop` of the agent while a reload runs, and the wait for its goroutines: `Stop` is one step here.
- Reloads of an agent whose group index a restart has broken: what a router with stale members answers.
- The text functions of Go's net and uuid packages: parameters (`NetLib`, `SessionId`) with the laws Go promises (`Lawful`).
- The retry goroutine's loop as one method: its critical sections are separate methods, and all their interleavings are runs of the machine. A method of the classes is a critical section, with the consumer moving inside it and, for `Process`, everybody between its two.
- Handlers as objects: a handler is its configuration and an identity. What its own methods do is left to the environment.
- Frames that arrive after `RemoveSession` (they open a fresh session) and a second write under one session id (its numbers start again at 0).
- The data race on the round-robin counters (`Route` writes them under a read lock): the router is sequential here.
- The text of an error message: errors are a kind and an index.
- Sections of the configuration that `DiffConfig` does not look at: carried along unread (field `other`); a change only there is not stored by a reload.
- Pattern matching of domains, addresses and users, and health scores: parameters of the router's methods.
- `MergeConfig`, `DeepCopy`, `WindowSize`, `Reset`, `GetStats`, `GetOutput`, `GetOutbound`, connection tracking, transport pools, the lifecycle manager, the control server: correct claims about them are short.
- YAML, logging, metrics, profiling, HTTP handlers, command line.
