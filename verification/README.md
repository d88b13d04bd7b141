# proxyforward: a model of its stateful core

proxyforward exposes services behind a firewall through a public gateway: an agent dials out to the
gateway, registers tunnels, and the gateway splices public connections onto it. This project models
the parts of it whose correctness spans many calls, and proves what those parts are for.

- **Bandwidth history** (`Buckets`, `Rings`, `Ladder`, `Histories`, `Charts`, `TrafficChart`): five
  ring buffers whose resolutions divide one another, fed by a sampler and read by charts. It refines
  a direct fold over the raw samples.
- **Its incremental store** (`Snapshots`, `SaveTable`, `FlushRuns`, `ReturningAgent`): saves write only
  from a watermark on. In every run this refines writing everything, and a restart gets it back.
- **Minecraft login sniffer** (`VarInts`, `Packets`, `Sniffers`, `SniffedLogins`): codec, framing, the two
  parsers and the capped streaming parser, against one parse of the whole stream, and that against
  the bytes alone.
- **Gateway-authoritative config** (`TunnelConfig`, `Policies`, `ConfigSync`): merge and hash of
  tunnel sets, port policy, and the two-party protocol over FIFO channels.
- **Gateway actor** (`Actors`, `ActorSafety`, `Binding`, `AntiFlap`): admission, eviction, binding,
  reassignment and reconcile over nested maps.
- **Concurrent pieces** (`DialBack`, `WriterQueue`, `Splice`): the dial-back handoff, the analytics
  write queue with barriers and the two-way copy, each as a step machine whose runs are all
  interleavings.
- **Uptime** (`Uptime`) and the **identity allowlist** (`Allowlist`).

Objects the program updates in place are classes here, and each of their methods is proved equal to a
function of the old state; the theorems are lemmas about runs of those functions. Verify everything
with `dafny verify dfyconfig.toml`.

## What the proofs found

The code differs from its own comments, or from what a reader would expect, in these places. Each is
stated by a lemma that names the input, next to the exact condition under which the promise holds.

- A chart window that does not start on a group boundary can yield one bucket more than `maxBuckets`
  when every group in it holds data (`Charts.BucketCapExact`, `Charts.BucketCapExceeded`).
- Index 0 of a ring looks valid while it was never written; on real clocks it lies outside every
  window (`Rings.RingReads`).
- An evicted agent that returns before a save keeps its old rows, so its save is not a full one
  (`ReturningAgent.ReturningAgentRun`); when it is: `FlushRuns.SaveIsFullExactly`.
- A stream whose verdict comes after the first 12288 bytes is sniffed or not depending on how it was
  cut (`Sniffers.ChunkingExact`, `Sniffers.LateStreamExists`).
- An ephemeral port under an allowlist or port scope is stored, then fails validation on the next
  connect, so one generation names two sets (`Policies.ResolvedStaysValid`,
  `ConfigSync.EphemeralForksGeneration`).
- "Adopted only when based on the current generation" is not what the code decides: two edits in a row
  are both adopted (`ConfigSync.BackToBackBothAdopted`). It holds as long as the gateway's belief was
  confirmed by the agent (`ConfigSync.AdoptedOnCurrentExactly`).
- An ack of an older generation makes the gateway refuse an edit based on its own, and the re-push
  then overwrites that edit on the agent (`ConfigSync.RefusedEditIsOverwritten`).
- Reconciling a set after its ports were resolved rebinds every ephemeral or reassigned tunnel
  (`ActorSafety.ResolvedRebinds`).
- Two tunnels that swap their ports in one pushed set do not get them: the earlier one is moved to
  another port or fails (`Binding.EarlierCannotTakeOver`).
- A failed `open_data` write can leave a delivered connection held by nobody (`DialBack.FailedWriteLeaks`).
- "The new op always lands" needs a write in the queue to evict (`WriterQueue.SlowPathLandsExactly`,
  `WriterQueue.BarriersAloneReached`).

## Model

| member | source | states |
|---|---|---|
| Buckets.FoldConcat | internal/stats/stats.go:152-178 | folding two runs of buckets one after the other is folding their concatenation, the associativity every tier relies on |
| Buckets.FoldRates | internal/stats/stats.go:155-172 | the merged rate family is first, maximum, minimum and last of the folded rates |
| Buckets.FoldGaugesMeaning | internal/stats/stats.go:174-200 | a gauge family is unknown exactly when no folded bucket knew it, and otherwise first, maximum, minimum and last of those that did |
| Rings.Ring.Start | internal/stats/stats.go:145-150 | opening a slot overwrites just that slot and the current index |
| Rings.Ring.MergeCur | internal/stats/stats.go:152-178 | a point is merged into the current slot only, the first one taking the whole slot over |
| Rings.Ring.IsValid | internal/stats/stats.go:202-209 | validity is decided by the window and the stored start time |
| Rings.RingReads | internal/stats/stats.go:129-209 | a ring fed points in time order is valid at exactly the window indices that received a point (and at index 0 while untouched), and stores the direct fold of those points |
| Ladder.LadderRefines | internal/stats/stats.go:113-127 | ladder refinement: after any run, whatever the gaps and laps, every tier's newest index, valid indices and stored buckets are those of the direct fold of the samples that have cascaded to it |
| Ladder.NewestNeverFalls | internal/stats/stats.go:592-610 | a point in time order is older than the current bucket of no tier its cascade reaches, so no tier takes the drop branch |
| Ladder.ReachingIsAdded | internal/stats/stats.go:592-610 | the point followed up the cascade is the one each tier merges, and a tier it does not reach is unchanged |
| Ladder.NothingDropped | internal/stats/stats.go:592-610 | the drop for a clock gone backward is unreachable at every step of every run of samples in time order, at every tier |
| Ladder.BytesConserved | internal/stats/stats.go:592-610 | bytes ever folded into a tier plus those in the finer tiers' current buckets are all bytes sampled |
| Ladder.CompletedIsCut | internal/stats/stats.go:594-610 | what a tier hands up is its input cut off at its current bucket, each finished bucket once |
| Histories.History.Add | internal/stats/stats.go:592-610 | the recursive cascade over the ring objects equals the ladder function |
| Histories.History.Sample | internal/stats/stats.go:243-289 | one reading changes baseline and rings as the sampler function says, and reports the deltas it accounted |
| Histories.SamplerFeedsLadder | internal/stats/stats.go:248-289 | any run of readings leaves exactly the ladder of its points, so every ladder theorem holds of a sampled history |
| Histories.ReadingNeverDropped | internal/stats/stats.go:248-289 | whatever clocks and totals a run of readings carries, its next reading is dropped at no tier |
| Histories.PointsMeasure | internal/stats/stats.go:248-289 | field by field, each point is what was measured from one accounted reading to the next: rises, their rates over the time between, and the gauges, unknown when unmeasured |
| Histories.TouchedLast | internal/stats/stats.go:243-245 | the eviction clock follows every reading, those that produce no point included |
| Histories.SampledRises | internal/stats/stats.go:583-590 | whatever the totals do, the sampled bytes are the sum of the rises from each accounted reading to the next, a fall counting nothing; the baseline is the last accounted reading |
| Histories.SampledBytes | internal/stats/stats.go:583-590 | when the totals never shrink the sampled bytes are the last accounted total minus the first |
| Snapshots.RestoreRoundTrip | internal/stats/stats.go:422-452 | reloading what a ring persisted gives the same valid indices, the same buckets and the same current bucket |
| Snapshots.AddEvolves | internal/stats/stats.go:592-610 | a point changes a tier only at or after its current bucket: the fact that makes a watermark sound |
| Snapshots.SnapshotRing | internal/stats/stats.go:470-494 | the snapshot loop collects exactly the valid buckets, in order, with the floor of the window |
| Snapshots.RestoreTier | internal/stats/stats.go:422-452 | both passes of the reload equal the restore function |
| SaveTable.Table.SaveStats | internal/analytics/statspersist.go:82-146 | one save replaces the table by the saved one, or, when the transaction fails, leaves it as it was |
| SaveTable.IncrementalIsFull | internal/analytics/statspersist.go:109-144 | deleting expired rows and writing only from the watermark on leaves exactly the live buckets if and only if each live bucket below the watermark was stored already and no row at or above the floor is at a time that is not live |
| FlushRuns.SaveIsFull | internal/stats/stats.go:496-541 | incremental save equals full save, in every run of samples, evictions, failed saves, samples during a save and restarts, for the global series and for every agent that did not return while its deletion was pending |
| FlushRuns.SaveIsFullExactly | internal/stats/stats.go:496-541 | for every series in every run, agents that returned included: a landing save leaves exactly the live buckets if and only if the table was ready for it; without a watermark that means no row from the floor on at a time the history does not hold |
| FlushRuns.MarkedExactly | internal/stats/stats.go:522-541 | a finished flush leaves the watermark of each saved tier at the start of the newest bucket saved |
| FlushRuns.NextSaveStartsThere | internal/stats/stats.go:496-541 | so the next save writes of that tier only this bucket and later ones, whatever samples and failed saves come between |
| FlushRuns.RestartRecovers | internal/stats/stats.go:350-378 | a restart recovers, for each persisted tier of the global series and of every agent that did not return while its deletion was pending, exactly the buckets live at the last save |
| FlushRuns.ReturningAgentKeepsStaleRows | internal/stats/stats.go:567-581 | an evicted agent sampled again before a save cancels its pending deletion, and every old row of it survives the save although its history is empty |
| ReturningAgent.ReturningAgentRun | internal/stats/stats.go:567-581 | such a run exists from the initial world: an agent is saved, crowded out by 32 others, sampled again and flushed, and the landed save is not its live buckets |
| Charts.HistoryAt | internal/stats/stats.go:639-707 | the served series is the direct fold, at the served width, of the valid buckets in the chosen window, in strictly increasing aligned groups, with no byte lost; the reported window is the one asked for, or the age of the oldest served daily bucket |
| Charts.RegroupIsFold | internal/stats/stats.go:677-706 | regrouping by absolute group is the direct fold at the coarser width and conserves bytes |
| Charts.ChooseTrailing | internal/stats/stats.go:661-675 | a trailing window is served from the finest tier that spans it |
| Charts.ChooseAll | internal/stats/stats.go:647-660 | the all-time window runs from the oldest valid daily index to the newest, and its length is the time since that start, one slot at least |
| Charts.GroupSize | internal/stats/stats.go:677 | the fewest indices a bucket can cover for maxBuckets buckets to hold the window |
| Charts.BucketCapExact | internal/stats/stats.go:677-688 | for any ring and window, gaps included, maxBuckets is kept if and only if it is not so that the ends lie maxBuckets groups apart and each of those groups holds a valid index |
| Charts.BucketCapExceeded | internal/stats/stats.go:677-688 | a history that recorded four points, asked for its last 400 ms in at most two buckets, yields three |
| TrafficChart.BucketTraffic | internal/analytics/queries.go:593-624 | one point for each slot that has samples, in increasing time, stamped with the slot start and carrying the slot's bytes; at most 300 points when the samples fit the span |
| TrafficChart.WidthFor | internal/analytics/queries.go:598-605 | the slot width is the least, from 15 s on, of which 299 exceed the span |
| VarInts.DecodeMeaning | internal/mc/varint.go:20-48 | decoding yields a value exactly when the bytes start with a VarInt and then the int32 it spells, canonical or not; asks for more exactly when all bytes continue; rejects exactly when five continue |
| VarInts.RoundTrip | internal/mc/varint.go:50-63 | every int32 encodes to one to five bytes and decodes back whatever follows |
| VarInts.DecodeExtends | internal/mc/sniffer.go:161-179 | a verdict on a prefix is final |
| VarInts.AppendVarInt | internal/mc/varint.go:50-63 | the append loop writes the encoding |
| VarInts.ReadVarInt | internal/mc/varint.go:20-48 | the stream decoder agrees with the reference in value, length, truncation and overflow and consumes exactly the value |
| VarInts.ReadVarIntPrefix | internal/mc/sniffer.go:161-179 | the prefix decoder agrees with the same reference |
| Packets.BodyReader.Varint | internal/mc/varint.go:86-111 | the body decoder agrees with the same reference, under a sticky error |
| Packets.BodyReader.Str | internal/mc/varint.go:113-130 | a string is its declared bytes; too long, negative or truncated sticks as an error |
| Packets.BodyReader.SkipByteArray | internal/mc/varint.go:183-195 | a byte array is skipped whole or the reader sticks |
| Packets.Split | internal/mc/sniffer.go:143-159 | frame splitting equals the frame function |
| Packets.SplitPacketId | internal/mc/sniffer.go:181-189 | id and payload of a packet body |
| Packets.ReadPacket | internal/mc/packet.go:17-38 | a packet is read exactly when frame splitting and packet id accept the same bytes, with their id and body and exactly that many bytes consumed; each refusal is one of its errors |
| Packets.WritePacket | internal/mc/packet.go:40-48 | the frame written, including the cast of the length to int32 |
| Packets.PacketRoundTrip | internal/mc/packet.go:20-48 | reading inverts writing within the cap, whatever follows on the stream |
| Packets.SplitExtends | internal/mc/sniffer.go:140-159 | a whole or malformed frame is recognised as soon as its bytes are there |
| Packets.ParseHandshake | internal/mc/handshake.go:32-57 | the handshake parser equals the parsing function |
| Packets.HandshakeExact | internal/mc/handshake.go:32-57 | a handshake is accepted if and only if the body is the handshake layout, in any spelling of its VarInts, and every field is read from it |
| Packets.ParseLoginStart | internal/mc/login.go:24-74 | the login parser equals the parsing function on every protocol version |
| Packets.LoginRoundTrip | internal/mc/login.go:30-74 | a login start laid out for any protocol version gives back the name, and the UUID on exactly the versions that carry one |
| Packets.LoginExact | internal/mc/login.go:24-74 | a login start is accepted if and only if it begins with a valid name, in any spelling of its length, and a UUID is found exactly where its version's layout has one, in malformed and cut off tails too |
| Packets.NameDecides | internal/mc/login.go:36-49 | acceptance and the name depend on the name field alone, whatever follows it |
| Sniffers.Sniffer.Feed | internal/mc/sniffer.go:46-68 | feeding a chunk equals the step function and reports whether the sniffer is finished |
| Sniffers.Sniffer.Advance | internal/mc/sniffer.go:76-123 | the parsing loop equals the recursive parse |
| Sniffers.AdvanceResumes | internal/mc/sniffer.go:76-123 | parsing a prefix and resuming with more bytes sees what parsing everything sees |
| Sniffers.RunBounded | internal/mc/sniffer.go:50-68 | over every run a waiting sniffer holds one incomplete frame of at most 8196 bytes, so the give-up at a full buffer is unreachable, and the cap is never exceeded |
| Sniffers.ChunkingExact | internal/mc/sniffer.go:50-159 | every cutting of a stream gives the whole parse's outcome if and only if a verdict, when there is one, lies within the first 12288 bytes |
| Sniffers.LateFoundInTwo | internal/mc/sniffer.go:54-61 | otherwise feeding the stream whole finds no verdict while feeding it in two pieces does |
| Sniffers.LateLosesTail | internal/mc/sniffer.go:54-61 | a stream whose verdict comes after the cap loses its tail when fed whole |
| Sniffers.LateStreamExists | internal/mc/sniffer.go:50-68 | such a stream exists: the longest handshake followed by the longest login |
| SniffedLogins.WholeSniffs | internal/mc/sniffer.go:70-139 | said of the bytes alone, for every stream: the handshake found is the one it opens with, the login found is the one in the packet that follows, and it waits exactly for a frame that is not all there |
| SniffedLogins.RunSniffs | internal/mc/sniffer.go:46-139 | the same of the sniffer, however the stream is cut, when its verdict, if any, comes within 12288 bytes |
| SniffedLogins.LoginFound | internal/mc/sniffer.go:96-122 | a client that logs in is found with its handshake, name and UUID, on every protocol version, in any cutting, whatever follows |
| SniffedLogins.NameFound | internal/mc/sniffer.go:116-121 | whatever follows the name, the sniffer ends with the handshake, and with the name exactly when it is valid |
| SniffedLogins.OtherPacketEnds | internal/mc/sniffer.go:111-115 | a second packet that is no login start ends it with the handshake alone |
| SniffedLogins.StatusEnds | internal/mc/sniffer.go:102-109 | a status ping ends with its handshake alone |
| SniffedLogins.NoHandshakeEnds | internal/mc/sniffer.go:84-102 | a first packet that is no handshake ends it with nothing |
| TunnelConfig.EnabledSpecs | internal/agent/agent.go:760-770 | the enabled tunnels' specs in order |
| TunnelConfig.MergeTunnels | internal/agent/hotapply.go:126-160 | the map-and-append merge equals the merge function |
| TunnelConfig.MergeRoundTrip | internal/agent/hotapply.go:126-160 | the enabled specs after a merge are exactly the pushed list, for all inputs |
| TunnelConfig.MergeKeepsLocal | internal/agent/hotapply.go:128-151 | a pushed tunnel keeps the agent-local fields of the last tunnel held under its id |
| TunnelConfig.MergeBlanksNew | internal/agent/hotapply.go:140-151 | a tunnel new to the agent gets blank local fields |
| TunnelConfig.MergeKeepsDrafts | internal/agent/hotapply.go:153-158 | a disabled tunnel survives as often as before exactly when the push does not name it |
| TunnelConfig.MergedInOrder | internal/agent/hotapply.go:153-158 | whether a draft survives depends on it and the push alone, and drafts keep their order |
| TunnelConfig.AgentConfig.ApplyPushedConfig | internal/agent/hotapply.go:88-124 | tunnels, generation and the port table after a push: pushed ports in, dropped enabled tunnels out, nothing else |
| TunnelConfig.PushedPortExactly | internal/agent/hotapply.go:101-107 | the port a push sets for an id is that of the last spec naming it with a port |
| TunnelConfig.HashExact | internal/control/control.go:395-412 | hashes of lists without repeated ids are equal if and only if the lists are permutations of each other |
| TunnelConfig.AnySortAgrees | internal/control/control.go:402-403 | any sort by id, stable or not, gives the hashed order |
| Policies.ValidateSpec | internal/gateway/gateway.go:1283-1315 | a spec is accepted exactly under the protocol, range, scope and allowlist rules |
| Policies.ConstraintsNarrow | internal/gateway/gateway.go:1283-1315 | without constraints every TCP tunnel with an id and a port in range is valid, and each of the three lists takes away exactly what is not on it |
| Policies.ValidSpecs | internal/gateway/gateway.go:1358-1371 | filtering keeps the valid specs in order |
| Policies.ResolvePorts | internal/gateway/gateway.go:1373-1391 | each spec gets the port the last successful outcome bound for its id |
| Policies.ValidExact | internal/gateway/gateway.go:1358-1371 | filtering keeps a list whole if and only if all of it is valid |
| Policies.ValidInOrder | internal/gateway/gateway.go:1358-1371 | whether a spec is kept depends on that spec alone, and the kept ones stay in order |
| Policies.BoundPortsExactly | internal/gateway/gateway.go:1373-1391 | the port on record for an id is that of its last success with a port, and there is none without one |
| Policies.ResolvedStaysValid | internal/gateway/gateway.go:1299-1313 | a validated set resolved to bound ports validates again if and only if no ephemeral request landed outside scope or allowlist |
| Policies.ReassignCandidates | internal/gateway/conflict.go:80-120 | the candidate loop equals the candidate function |
| Policies.CandidatesExact | internal/gateway/conflict.go:80-120 | the candidates are exactly the other allowed ports, once each, ascending; the operating system's choice when nothing constrains; none for an ephemeral request |
| ConfigSync.GatewaySession.AdoptProposal | internal/gateway/gateway.go:1421-1458 | adopt or refuse: the record, the believed generation and the push sent |
| ConfigSync.GatewaySession.PushConfigOnConnect | internal/gateway/gateway.go:1393-1419 | what a fresh session is pushed |
| ConfigSync.GenerationsAreForever | internal/gateway/agentstore.go:275-286 | over every run generations only grow and the set a generation names never changes |
| ConfigSync.QuietAgrees | internal/gateway/gateway.go:1393-1458 | whenever a session has no proposal and no push in flight, the agent holds the stored generation and the stored set, or what of it is still valid; with no ack in flight the gateway's belief is right |
| ConfigSync.QuietAgreesExactly | internal/gateway/gateway.go:1393-1458 | when no reconcile hands out a port outside policy the agent runs exactly the stored set and every push carries the set its generation names |
| ConfigSync.EphemeralForksGeneration | internal/gateway/gateway.go:1405-1418 | an ephemeral port under an allowlist is stored and then dropped on the next connect under the same generation |
| ConfigSync.Converges | internal/gateway/gateway.go:1237-1260 | from any reachable session deliveries end within a computed number of steps, in agreement |
| ConfigSync.ConnectSendsExactly | internal/gateway/gateway.go:1393-1419 | a connect seeds if and only if nothing is stored, and pushes if and only if the agent's generation or its set, in any order, differs |
| ConfigSync.ReconnectIsSilent | internal/gateway/gateway.go:1405-1418 | over every run in policy, a quiet session dropped and connected anew sends nothing in either direction |
| ConfigSync.QuietEditAdopted | internal/agent/hotapply.go:42-53 | an edit made when nothing is in flight is adopted under the next generation and the agent ends up running it resolved |
| ConfigSync.OffBeliefOnlyRepushes | internal/gateway/gateway.go:1251-1260 | once the belief is off the stored generation, over every run up to the agent's ack of it: each proposal read is refused and answered with the stored set, record and log as they were |
| ConfigSync.ConfirmationEndsIt | internal/gateway/gateway.go:1251-1260 | reading that ack ends it: the next proposal is adopted |
| ConfigSync.RefusedEditIsOverwritten | internal/gateway/gateway.go:1434-1458 | the refused edit is lost: a run from the initial world whose second edit is refused after a backward ack and overwritten by the re-push |
| ConfigSync.AdoptedOnCurrentExactly | internal/gateway/gateway.go:1434-1440 | over every run, a proposal read is based on the stored generation if and only if the agent has itself confirmed it, and then it is adopted; it is adopted on another basis if and only if nothing is stored or the belief in the stored generation is the gateway's own unconfirmed adoption |
| ConfigSync.AdoptedSawSession | internal/gateway/gateway.go:1434-1440 | in a session that began with a config in force, only proposals composed holding that config or a later one are adopted |
| ConfigSync.BackToBackBothAdopted | internal/gateway/gateway.go:1423-1425 | two edits in a row are both adopted although the second is based on an older generation than the stored one |
| Actors.Actor.Admit | internal/gateway/actor.go:292-340 | admission, supersede and dampening on the maps |
| Actors.Actor.NoteSupersede | internal/gateway/actor.go:342-364 | the anti-flap record after a supersede |
| Actors.Actor.Evict | internal/gateway/actor.go:378-401 | an eviction removes the agent's entry and all its listeners |
| Actors.Actor.Disconnected | internal/gateway/actor.go:366-376 | a session that is not its agent's live one is ignored |
| Actors.Actor.BindLocked | internal/gateway/actor.go:403-451 | replace the tunnel's listener on the requested port, else on the first free candidate, else fail |
| Actors.Actor.BindTunnel | internal/gateway/actor.go:500-518 | a bind through an inactive session is refused |
| Actors.Actor.UnbindLocked | internal/gateway/actor.go:484-498 | a listener is closed only for its owner |
| Actors.Actor.Reconcile | internal/gateway/actor.go:534-588 | prune and ensure loops over the nested map equal the reconcile function |
| ActorSafety.ActorSafe | internal/gateway/actor.go:292-588 | in every run each listener is owned by its agent's live, unevicted session and carries its tunnel's id, ports are pairwise distinct and within policy where one was asked for, and generations strictly increase |
| ActorSafety.EvictedForGood | internal/gateway/actor.go:378-401 | an evicted session never regains an entry or a listener |
| ActorSafety.OthersUntouched | internal/gateway/actor.go:378-401 | a command of one agent leaves every other agent's session and listeners as they were |
| ActorSafety.StaleChangesNothing | internal/gateway/actor.go:366-376 | a command through a stale session changes nothing at all |
| ActorSafety.DisconnectFrees | internal/gateway/actor.go:366-401 | a live session's disconnect evicts it and frees every port it held, and nothing else |
| ActorSafety.UnbindFrees | internal/gateway/actor.go:484-498 | a live session's unbind closes that listener, frees its port, and nothing else |
| ActorSafety.PortForFree | internal/gateway/actor.go:417-431 | a chosen port is free and, when a valid port was asked for, within scope and allowlist |
| Binding.PortForExactly | internal/gateway/actor.go:403-464 | which port a request ends on, in terms of held, foreign and refused ports: the one asked for, else the least allowed alternative or the system's, and none exactly when these are not to be had |
| Binding.BindExactly | internal/gateway/actor.go:403-451 | a bind succeeds exactly when there is such a port, on that port, for exactly this spec and session, and leaves every other listener |
| Binding.ReconcileExactly | internal/gateway/actor.go:534-588 | each spec of a reconcile keeps its listener's port if that serves it already, the bandwidth limit aside, and otherwise gets the right port among those held when its turn comes, which are listed |
| Binding.FreshGetsAll | internal/gateway/actor.go:534-588 | a fresh agent whose tunnels ask for different free ports gets all of them |
| Binding.EarlierCannotTakeOver | internal/gateway/actor.go:561-587 | within one reconcile a tunnel cannot take the port of one later in the set, so two tunnels cannot swap |
| ActorSafety.ReconcileExact | internal/gateway/actor.go:534-588 | after a reconcile the agent's listeners are exactly the successful outcomes, on the reported ports; a listener already serving its spec is the very same one |
| ActorSafety.ReconcileIdempotent | internal/gateway/actor.go:561-587 | a second reconcile after full success binds and closes nothing, reassigned and ephemeral ports included |
| ActorSafety.ReconcileHonours | internal/gateway/actor.go:417-431 | every port reconcile reports for a spec that asked for one is within scope and allowlist |
| ActorSafety.ReconcileStaysAllowed | internal/gateway/actor.go:534-588 | what a reconcile reports stays within policy, as exact agreement of the config sync asks, if and only if the ports picked for ephemeral requests do; always when there are none |
| ActorSafety.ResolvedRebinds | internal/gateway/actor.go:567-587 | reconciling the resolved set keeps a tunnel's listener if and only if it is on the port it first asked for |
| AntiFlap.FlapBound | internal/gateway/actor.go:305-364 | any three consecutive supersedes of one agent id span a second, and the penalty is only ever 0, 1 or 2 seconds |
| AntiFlap.AdmittedExactly | internal/gateway/actor.go:292-364 | over every run a newcomer is refused if and only if its agent is live and it comes sooner after the last supersede than the earlier ones call for; otherwise it takes over, and the incumbent is evicted with its listeners |
| AntiFlap.ContestIsSlow | internal/gateway/actor.go:342-364 | n supersedes take at least (n - 1) / 2 seconds |
| DialBack.PendingConn.DeliverLocked | internal/gateway/perconn.go:40-52 | deliver's critical section |
| DialBack.PendingConn.TakeUnderLock | internal/gateway/perconn.go:65-73 | take's critical section |
| DialBack.ExactlyOnce | internal/gateway/perconn.go:37-74 | under every interleaving at most one deliver wins a slot, and take returns a connection if and only if one did, and that one |
| DialBack.AnsweredByOwnAgent | internal/gateway/perconn.go:94-101 | over every interleaving the connection a slot holds or hands its player was dialed back for that slot by its own agent |
| DialBack.LookupExactly | internal/gateway/perconn.go:84-101 | a lookup finds the slot if and only if it is in the map and the dialing agent's own, and closes the connection otherwise |
| DialBack.OwnAgentGetsThrough | internal/gateway/perconn.go:37-74 | from any reachable world the first dial-back of a waiting player's own agent is delivered and taken |
| DialBack.LoserCloses | internal/gateway/perconn.go:102-109 | a deliver loses exactly on a slot that is done, and then closes its connection |
| DialBack.PlayerGetsAway | internal/gateway/perconn.go:54-74 | a cancel or timeout always lets the player go, with the connection delivered or none, and the slot leaves the map |
| DialBack.EveryConnectionAccounted | internal/gateway/perconn.go:80-123 | once all is finished every dialed-back connection is closed by its handler or held by the one player it was delivered to, unless that player's open_data write failed |
| DialBack.FailedWriteLeaks | internal/gateway/perconn.go:118-121 | after a failed open_data write a delivered connection is held and closed by nobody |
| WriterQueue.EveryOpAccounted | internal/analytics/db.go:190-233 | every accepted operation is exactly one of queued, pending, handed to a batch, evicted and counted, or a barrier on its way back; no barrier is evicted; the count is exact |
| WriterQueue.NoWriteForgotten | internal/analytics/db.go:190-232 | before a write enters, too: over every interleaving each call has entered its write, waits for the lock, or holds it with the write in hand |
| WriterQueue.BarrierCovers | internal/analytics/db.go:235-250 | when a barrier's batch has run, every write accepted before it was handed to a batch or evicted |
| WriterQueue.BarrierRunsAtOnce | internal/analytics/db.go:271-292 | while not draining, a received barrier or a full batch hands over at once all that was pending, in order; otherwise the timer does |
| WriterQueue.NoBarrierPending | internal/analytics/db.go:276-284 | until it drains, the writer never sits on a barrier |
| WriterQueue.RoomLetsIn | internal/analytics/db.go:190-203 | a producer that finds room enters at once, and one that does not changes nothing |
| WriterQueue.CloseHandsAll | internal/analytics/db.go:299-314 | from any world of any run, told to stop the writer hands over all that is queued, in order, and exits |
| WriterQueue.WritesInOrder | internal/analytics/db.go:254-316 | writes reach the batches in the order they were accepted |
| WriterQueue.ExitDrains | internal/analytics/db.go:299-314 | the writer's exit leaves nothing pending |
| WriterQueue.SlowPathDropsOldestWrite | internal/analytics/db.go:204-232 | undisturbed, the slow path rotates the leading barriers, evicts the oldest write and no other, and lands the new one |
| WriterQueue.RetryLands | internal/analytics/db.go:229-232 | a producer that finds the queue emptied before it took a victim tries again and lands without a loss |
| WriterQueue.SlowPathLandsExactly | internal/analytics/db.go:204-232 | an undisturbed slow path lands, and then within one round more than the queue is long, if and only if some queued operation is a write |
| WriterQueue.BarriersAloneReached | internal/analytics/db.go:193-195 | a full queue of barriers alone with a producer in the slow path is reached by a run, and no number of rounds lands its operation |
| Uptime.StateAt | internal/analytics/summary.go:432-444 | the state is that of the latest event at or before the instant |
| Uptime.UpKnown | internal/analytics/summary.go:398-430 | one sweep counts exactly the instants of the window that are up, and that are known |
| Uptime.EngineCoverage | internal/analytics/summary.go:343-370 | the intervals are in order, disjoint, and cover exactly the instants at which the engine was last started |
| Uptime.ComputeUptimePct | internal/analytics/summary.go:372-396 | the percentage is of known covered instants those that are up, -1 when there are none, and otherwise within 0 to 100 |
| Uptime.UptimeOf | internal/analytics/summary.go:258-288 | one report row from both event lists, as a share of instants |
| Uptime.UptimeAdds | internal/analytics/summary.go:398-430 | counts add up over adjacent windows |
| Splice.CopyHalf | internal/relay/relay.go:134-181 | the copy loop equals the half's step machine |
| Splice.TurnEnds | internal/relay/relay.go:143-181 | what one turn of the loop comes to: which fault or clean end, after which bytes |
| Splice.CleanCopyCompletes | internal/relay/relay.go:138-181 | a copy nothing goes wrong with ends cleanly, whatever sizes the reads come in: all delivered, counted, half-closed |
| Splice.Delivers | internal/relay/relay.go:79-181 | under every interleaving a leg receives a prefix of what the other sent, counters are the bytes accepted, half-close comes only after everything read was written, and a clean end means full delivery |
| Splice.CancelledExactly | internal/relay/relay.go:90-119 | over every interleaving the splice is cancelled exactly when a half ended in a fault, and a throttled half can then, or once the agent is evicted, give up its wait |
| Splice.CleanEndNeverCancels | internal/relay/relay.go:90-119 | a half is cancelled only by an eviction or by a fault of the other that was not itself a cancellation |
| Allowlist.AgentStore.IssueEnrollment | internal/gateway/agentstore.go:152-168 | a fresh ticket is recorded unconsumed |
| Allowlist.AgentStore.Enroll | internal/gateway/agentstore.go:170-218 | ticket and collision checks in order, the record written, the ticket consumed |
| Allowlist.AgentStore.Mutate | internal/gateway/agentstore.go:245-259 | the one record under an agent id is changed |
| Allowlist.AgentStore.DesiredConfig | internal/gateway/agentstore.go:261-273 | the stored set and generation of a known agent |
| Allowlist.Validate | internal/gateway/auth.go:108-138 | the composite validator: store and verdict |
| Allowlist.ValidateIdentity | internal/gateway/auth.go:84-106 | the per-identity validator: store and verdict |
| Allowlist.AllowlistSafe | internal/gateway/agentstore.go:170-286 | over every run no two keys share an agent id, each key keeps its id and its revocation, and its config generation never decreases |
| Allowlist.KeyAcceptedExactly | internal/gateway/auth.go:84-138 | a hello is accepted under a key if and only if it proves the key and the key is enrolled and unrevoked, or joins with a ticket that is known, unspent and in time under an id nobody has |
| Allowlist.SharedAcceptedExactly | internal/gateway/auth.go:61-72 | and without one if and only if the shared token is looked at and matches, and the id is neither empty nor reserved |
| Allowlist.KeyRefusedExactly | internal/gateway/agentstore.go:170-195 | when exactly each refusal of a key or ticket is given |
| Allowlist.TokenRefusedExactly | internal/gateway/auth.go:108-138 | when exactly each refusal of a shared token, or of a hello that offers nothing, is given |
| Allowlist.OnlyJoinsChange | internal/gateway/auth.go:84-106 | a join adds the record and spends a single-use ticket; no other hello changes the store |
| Allowlist.FreshTicketAdmits | internal/gateway/agentstore.go:152-218 | a ticket admits whoever proves a new key under a free id, in time, within the scope it was issued with |
| Allowlist.EnrollExactly | internal/gateway/agentstore.go:170-218 | what Enroll takes, and the record and ticket it leaves |
| Allowlist.EnrolledAcceptedExactly | internal/gateway/auth.go:89-95 | over every run a hello that proves an enrolled key is accepted exactly as long as nobody revoked its agent |
| Allowlist.ManagedExactly | internal/gateway/agentstore.go:245-286 | managing an agent changes the named field of its one record and nothing else |
| Allowlist.TicketOnce | internal/gateway/agentstore.go:206-211 | a single-use ticket adds at most one key |
| Allowlist.RevokedStaysOut | internal/gateway/auth.go:89-95 | a revoked key is never accepted again, whatever ticket or token comes with it |
| Allowlist.DerivedMeansKey | internal/gateway/auth.go:61-72 | an accepted agt_ identity holds a verified, unrevoked key enrolled under that id |
| Allowlist.EnrollAloneForgets | internal/gateway/agentstore.go:196-205 | Enroll alone would take a revoked key back at generation 0: the validator's lookup is what prevents it |

## Left out

- Machine integers and floats: byte totals and clocks are unbounded integers (the code's int64 does not overflow in practice), rates and gauges are reals that are only copied and compared, NaN does not occur, percentages are exact.
- Rate computation inside the sampler is one real division; jitter averaging and link quality are not modelled.
- Clocks before the epoch, where the code's ring index would be negative; windows reaching back past the epoch; and, for the store theorems, clocks within 1100 days of the epoch, where index 0 lies inside a ring's window.
- FlushRuns.SaveIsFull: for agent series it is stated for agents not evicted and sampled again while their deletion was pending; for those, `FlushRuns.SaveIsFullExactly` says when it holds.
- FlushRuns.RestartRecovers: leaves out the same agents, whose rows a restart reads back as they are.
- The history store's object with its mutex, and the flush itself, are modelled as steps of a relation rather than as methods of a class; rings, histories and the table are classes. Goroutines are steps of a state machine throughout.
- Lifetime totals, per-peer statistics and the failure path of loading the table.
- SQL itself: the table is a map with a transactional save. The rollup, peak, geography and player queries, `bucketLatency` and `windowSpans`.
- Strings are sequences of bytes or characters; JSON and TOML encoding. The config digest and the identity digest are taken as injective, a signature check is a given fact of a hello, and a ticket is assumed fresh.
- Policies.ValidateSpec: models acceptance, not the error codes and texts.
- Config sync assumes one control handler per agent, a scope that does not change while it runs, a connect that is one step, and a failed write that ends the session. The shutdown answer of the actor and the legacy per-tunnel and SyncTunnels paths are left out.
- Bandwidth limiters, and the limiter update inside reconcile: that comparison is made against a spec which is never updated, so live cap equals desired cap is not an invariant.
- The gateway's event ring, the cloned-identity warning and the text naming a port's holder.
- Actors.Actor.BindLocked: the ports other processes hold do not change between the listens of one bind.
- Allowlist.Validate: one hello at a time; two concurrent first contacts of one key, or a revocation between lookup and enrolment, are not modelled.
- Persisting the allowlist to disk, and the failure of that write after the maps were changed.
- Uptime.EngineCoverage: event times are not negative, because the loop uses -1 for no open interval.
- Splice: buffers, deadlines and the filter on expected close errors; what one half's closing of a leg does to the other is left free.
- The commit of a batch may fail and lose it; a batch handed over counts as done here.
- Sockets, TLS, QUIC, the transport ladder, the offline responder, the command line, the user interface.
