# wineventchain: a verified model

wineventchain records Windows events on a CometBFT chain and keeps their data off chain. Agents push events
through a disk-backed retry queue; the chain holds identities, event metadata and one retention policy; the
off-chain nodes store the event data, gossip it to each other in frames, fetch what they have missed, and delete
what the retention policy no longer keeps.

This project models the parts of that system whose correctness is not visible from any single function, and
proves what they are for:

| component | files | what is proved |
|---|---|---|
| retention compiler | `RetentionRule`, `MongoPipeline`, `RetentionCompiler`, `RetentionRuns`, `RetentionAgent` | the compiled aggregation selects exactly what the plain rule drops; scans along any history leave what one scan over everything ever stored leaves |
| on-chain applications | `ChainSpec`, `ChainVerdicts`, `ChainHistory`, `ChainApps` | two-phase block execution equals immediate execution; what every result code means; nothing committed is overwritten; identities form a tree below the seed |
| gossip framing | `Bytes`, `Frame`, `FrameQueue`, `FrameCuts`, `FrameDecoder`, `AnyFrames`, `InboundFrames`, `Gossip`, `GossipTurns` | exactly when cutting completes; what any frames decode to; a cut message survives any delivery to a decoder, and exactly the in-order deliveries to the delegate; the byte codec round-trips; transmissions are conserved and the queues drain |
| missing-item store | `Lexicographic`, `StateKeys`, `MissingEventCodec`, `GoTime`, `StateStore`, `MissingRecords`, `OrderedScan`, `Paging`, `TableIterator` | the flat byte store refines separate tables; index and records stay one to one; paging visits every record once |
| harmoniser | `BlockGaps`, `BlockBackfill`, `EventIntake`, `EventBacklog`, `MarkerTable`, `HarmoniserRuns`, `HarmoniserLimits`, `HarmoniserEvidence` | seen and missing heights partition the chain; scans record every event; markers are never lost; data is stored on evidence only; requests are bounded, and exactly when the retry limit holds |
| agent queue | `BinaryKeys`, `KeyedTree`, `DiskQueue`, `QueueRuns`, `RetryLoop`, `RetryTimes`, `RetryGrowth` | iteration survives concurrent changes; every call waits for its delay; attempts are bounded; exactly when the size is |
| event filters | `Hex`, `EventFilters` | exactly when the live-stream meaning of a filter list agrees with its compiled Mongo query |

Code that updates objects is modelled by classes and methods (`ChainApps`, `StateStore.LevelDBStore`,
`FrameDecoder.FrameQueueDecoder`, `Gossip.Delegate`, `DiskQueue.DiskQueue`, ...). Each method is proved against a
function on values, and the results over whole runs are lemmas about those functions. The interleaving of
goroutines and tasks is a sequence of steps over a shared state.

Hashes, signatures, CRC-32, zlib, the binary time format, number, UUID and date parsers are parameters. Only
these laws are asked of them, and only where they are needed: events created at different heights have different
hashes, decompression undoes compression, an encoded time decodes to itself and is short. The last is shown to
hold of Go's format, whose times have 64-bit seconds (`GoTime.FormatIsSound`). The clock, the answers
of the blockchain client and the outcome of network calls are parameters too. Verify everything with
`dafny verify dfyconfig.toml`.

Where the code does not do what its documentation or its shape suggests, the model follows the code and a lemma
states exactly when the expected property holds:

- The codec of missing events writes the received time into the slot of the last retry time
  (`MissingEventCodec.RoundTripExactly`), so the retry interval is measured from the time an event was received
  (`EventBacklog.SpacingIgnoresLastRequest`, `EventBacklog.RequestedThenGivenUp`).
- Adding a batch looks up earlier records before the batch is written, so a batch that names an event twice leaves
  an orphan record (`MissingRecords.AddKeepsExactlyWhenDistinct`).
- A page read from a cursor that is gone skips one record (`Paging.PageExactlyWhenPresent`); over a whole pass
  exactly those records are missed (`Paging.PassMissesOnlyStepped`).
- A backfill page that ends at the top of its range drops the range although events may still be to come
  (`BlockBackfill.ScanOutcome`, `BlockBackfill.LastBlockCanBeLost`).
- The gossip delegate asks `HasReceivedFrame` before every read, which dereferences empty slots, and it deletes a
  decoder once its message is complete, so a frame that arrives again starts a new round. It survives a delivery
  exactly when the frames of every round first arrive in order, except that an unfinished last round may end with
  one frame too early and repeats of frames before the gap (`InboundFrames.DelegateNeedsOrder`). Repeats after
  completion are enough to crash it (`InboundFrames.LateRepeatsCrash`).
- A request is counted in the store and sent later, and it is sent also when the store refuses to count it. An
  event that is marked again in between is requested once more than the retry limit allows, and possibly twice by
  unicast; one whose counts are refused is requested without end. Nothing else breaks the limit
  (`HarmoniserRuns.RequestsAreBounded`, `HarmoniserLimits.LimitHoldsExactly`,
  `HarmoniserLimits.TwoUnicastsForOneRetry`, `HarmoniserLimits.UnicastsWithoutEnd`).
- The handler of backfill answers ends at the first answer that is not genuine, or cannot be stored or cleared; it
  is alive exactly while every answer has gone through (`HarmoniserLimits.AliveExactlyWhenAllWentThrough`,
  `HarmoniserLimits.OneBadAnswerIsEnough`).
- Updating a queue entry that was evicted meanwhile brings it back, beyond the size limit
  (`DiskQueue.UpdateKeepsBoundExactly`, `QueueRuns.UpdateResurrects`). The retry loop does that: with two delays or
  more its queue can come to hold any number of items, and with fewer it keeps to its limit
  (`RetryGrowth.SizeBoundedExactly`, `RetryGrowth.SizeHasNoFixedBound`).
- Two filters on the same field: the live stream asks for both, the compiled query for the last
  (`EventFilters.QueryMeansLastFilters`, `EventFilters.SearchFindsMore`). The stream compares hashes and principals
  as they are spelled and refuses unknown properties, the search ignores the case and unknown properties
  (`EventFilters.StreamAgreesWithSearch`, `EventFilters.FilterAgreesExactly`).
- The count filter's own match block is ignored; a count filter without a grouping, or with another key for it as
  in some examples of retention-policies.md, is refused by validation.

## Model

| member | source | states |
|---|---|---|
| `RetentionRule.Validate` | common/pkg/types/offchain/retentionpolicies.go:63-111 | the validator accepts exactly the valid policies: at least one filter, known types and groupings, a period for timestamp filters and a volume for count filters and not both, at most one count filter |
| `RetentionRule.ValidPoliciesSayRules` | common/pkg/types/offchain/retentionpolicies.go:63-111 | a policy is valid exactly when it writes down rules that keep what matches for a non-zero period or keep a non-empty buffer, at least one rule and at most one buffer |
| `RetentionCompiler.ClauseMeaning` | offchain-interface/pkg/repository/mongodb/retention.go:57-105 | the clause of a timestamp filter holds of a stored event exactly when the filter does not keep it |
| `RetentionCompiler.BuildClause` | offchain-interface/pkg/repository/mongodb/retention.go:57-105 | the loop body computes that clause |
| `RetentionCompiler.StoredGuidNames` | offchain-interface/pkg/repository/mongodb/retention.go:90-98 | providers are compared with the one text that names the policy's GUID in stored documents: the GUID in braces with every letter in lower case |
| `RetentionCompiler.GetCountFilter` | offchain-interface/pkg/repository/mongodb/retention.go:209-217 | finds the first count filter, or reports that there is none |
| `RetentionCompiler.PositionIsRank` | offchain-interface/pkg/repository/mongodb/retention.go:122-127 | after the sort, an event's position counts the events newer than it |
| `RetentionCompiler.ExpiredIffBeyond` | retention-policies.md:53-63 | with its competitors sorted newest first, an event is outside the buffer exactly when it lies past the volume |
| `RetentionCompiler.NoCountImplements` | offchain-interface/pkg/repository/mongodb/retention.go:107-120 | without a count filter, match and group report exactly the expired events of every collection |
| `RetentionCompiler.GlobalImplements` | offchain-interface/pkg/repository/mongodb/retention.go:122-138 | with a global buffer, match, sort, skip and group report exactly the expired events |
| `RetentionCompiler.PerPrincipalReports` | offchain-interface/pkg/repository/mongodb/retention.go:139-192 | group by principal, slice, unwind and regroup report the events past each principal's newest ones |
| `RetentionCompiler.PrincipalImplements` | offchain-interface/pkg/repository/mongodb/retention.go:122-192 | with a buffer per principal, the pipeline reports exactly the expired events |
| `RetentionCompiler.BuildAggregate` | offchain-interface/pkg/repository/mongodb/retention.go:48-198 | every valid policy builds, and on every collection and at every time its pipeline runs without error and reports exactly the expired events; an invalid policy does not build |
| `RetentionRuns.EventCollection.Store` | offchain-interface/pkg/repository/mongodb/event.go:172-184 | inserts unless the event hash is already stored |
| `RetentionRuns.EventCollection.DropExpiredEvents` | offchain-interface/pkg/repository/mongodb/event.go:190-237 | afterwards the collection holds exactly what the plain rule keeps; a policy that does not build deletes nothing |
| `RetentionRuns.ScanKeepsBuffer` | offchain-interface/pkg/repository/mongodb/event.go:190-237 | a scan keeps a bufferful of the events ahead of whatever it drops |
| `RetentionRuns.HistoryDoesNotMatter` | offchain-interface/pkg/repository/mongodb/event.go:190-237 | after any history of stores and scans at non-decreasing times, a scan leaves what one scan over everything ever stored leaves |
| `RetentionRuns.ScansAreIdempotent` | offchain-interface/pkg/repository/mongodb/event.go:190-237 | scanning again, or earlier first, changes nothing |
| `RetentionAgent.Agent.ScanAndDrop` | offchain-interface/pkg/retention/agent.go:58-89 | fetches the policy only while there is none, caches it, and scans with it; without a policy nothing is deleted |
| `RetentionAgent.AgentFollowsChain` | offchain-interface/pkg/retention/agent.go:58-83 | the cached policy is the chain's policy after any further blocks, and it is valid |
| `ChainSpec.TwoPhaseAgrees` | wineventchain/pkg/multiplexer/abci.go:135-228 | within a block, judging against committed state plus pending lists gives the codes and, after commit, the state of judging against current state |
| `ChainSpec.BlockEquivalence` | wineventchain/pkg/multiplexer/abci.go:135-228 | a block finalised and then committed is a block executed immediately, with authorisation by the identities of the block's start |
| `ChainSpec.ChainEquivalence` | wineventchain/pkg/multiplexer/abci.go:135-228 | over every sequence of blocks with increasing heights the two executions never differ |
| `ChainVerdicts.CodesMean` | wineventchain/pkg/multiplexer/abci.go:135-228 | in every chain a transaction has a result code exactly when the code's condition holds of the block's start state, the state the transaction meets and its signature; and the block leaves what its codes tell |
| `ChainVerdicts.OnlySignedRequestsPass` | wineventchain/pkg/identity/app.go:358-388 | an accepted transaction other than the seed carries a genuine signature of a principal known at the block's start; a signature that does not match is answered so and changes nothing |
| `ChainVerdicts.StoredWasAskedFor` | wineventchain/pkg/events/app.go:121-215 | every event on the chain holds what an accepted, signed request asked for, and the policy what an admin asked for |
| `ChainHistory.WriteOnce` | wineventchain/pkg/identity/app.go:189-271 | a transaction writes an identity, event or policy only where there was none |
| `ChainHistory.ChainStepPreserves` | wineventchain/pkg/events/app.go:139-215 | each block keeps everything committed before it, and the event count is the number of accepted creates |
| `ChainHistory.NothingIsOverwritten` | wineventchain/pkg/events/app.go:139-151 | whatever a prefix of the chain has committed is there unchanged in every later state |
| `ChainHistory.IdentitiesFormATree` | wineventchain/pkg/identity/app.go:163-309 | at most one seed, no principals before it, and every other identity was registered by an admin committed in a strictly earlier block |
| `ChainHistory.EveryoneDescendsFromSeed` | wineventchain/pkg/identity/app.go:163-309 | following registrars from any identity leads to the seed |
| `ChainHistory.CachedPolicyIsTrue` | wineventchain/pkg/retentionpolicy/app.go:118-190 | a policy read from the chain once stays the chain's policy, and it is a valid one |
| `ChainHistory.CachedExactlyOnceFetched` | offchain-interface/pkg/retention/agent.go:58-83 | the agent has a policy exactly when it has once asked a reachable chain that had one |
| `ChainApps.IdentityApp.ExtractIdentityData` | wineventchain/pkg/identity/app.go:358-388 | authenticates a payload against the committed identities, with the code's order of errors |
| `ChainApps.IdentityApp.FinalizeBlock` | wineventchain/pkg/identity/app.go:163-309 | gives the verdict of the specification on committed state and pending lists, and records what it accepts as pending |
| `ChainApps.EventsApp.FinalizeBlock` | wineventchain/pkg/events/app.go:121-242 | the same for event creation: duplicates are looked for in the pending list alone |
| `ChainApps.RetentionPolicyApp.FinalizeBlock` | wineventchain/pkg/retentionpolicy/app.go:118-190 | the same for the policy, which can be set once |
| `ChainApps.MultiplexedApplication.FinalizeBlock` | wineventchain/pkg/multiplexer/abci.go:135-211 | routes every transaction, collects codes and commit closures, and changes no committed state |
| `ChainApps.MultiplexedApplication.Commit` | wineventchain/pkg/multiplexer/abci.go:213-228 | runs the closures in order: the committed state is theirs, and nothing stays pending |
| `ChainApps.MultiplexedApplication.RunBlock` | wineventchain/pkg/multiplexer/abci.go:135-228 | the objects execute a block as the specification does |
| `Frame.Marshal` | offchain-interface/pkg/transport/swim/frame.go:34-72 | writes the specified bytes |
| `Frame.MarshalledLength` | offchain-interface/pkg/transport/swim/frame.go:134-143 | a frame takes the fixed overhead plus source and data, as the MTU calculation assumes |
| `Frame.Unmarshal` | offchain-interface/pkg/transport/swim/frame.go:74-132 | reads field by field with a running offset, failing exactly where the specified reader fails |
| `Frame.RoundTrip` | offchain-interface/pkg/transport/swim/frame.go:34-132 | reading back a marshalled frame returns it exactly when its source is under 2^16 and its data under 2^32 bytes |
| `Frame.ReadsExactly` | offchain-interface/pkg/transport/swim/frame.go:74-132 | any bytes are read as a frame exactly when every field is in its place and the checksum matches |
| `Frame.CorruptionIsCaughtExactly` | offchain-interface/pkg/transport/swim/frame.go:120-129 | a frame changed on the way, lengths and checksum apart, is refused exactly when the checksum of its bytes is another |
| `FrameQueue.FrameQueue.Next` | offchain-interface/pkg/transport/swim/frameset.go:52-98 | cuts the specified next frame, or fails without moving on |
| `FrameQueue.FramesFitTheirMtu` | offchain-interface/pkg/transport/swim/frameset.go:52-98 | every frame marshals to at most the MTU it was cut for |
| `FrameCuts.FramesAreFull` | offchain-interface/pkg/transport/swim/frameset.go:52-98 | every frame but the last marshals to exactly its MTU, and frames are compressed exactly when the whole message does not fit the first MTU |
| `FrameCuts.CutsExactly` | offchain-interface/pkg/transport/swim/frameset.go:52-98 | all calls succeed exactly when they are at most 64, every MTU has room and something is left before the last; then as many bytes are cut as the frames hold |
| `FrameCuts.CompletesExactly` | offchain-interface/pkg/transport/swim/frameset.go:52-98 | with MTUs that have room, cutting completes exactly when what is to be sent is no longer than the room in the first 64 frames |
| `FrameQueue.CompletedCutIsFrameSet` | offchain-interface/pkg/transport/swim/frameset.go:52-98 | frames of a completed message are numbered 0..k-1 with k at most 64, only the last is flagged, and together they hold the payload |
| `FrameDecoder.FrameQueueDecoder.ReadFrame` | offchain-interface/pkg/transport/swim/framesetdecoder.go:42-84 | stores a frame in its slot and counts it once, or refuses it |
| `FrameDecoder.FrameQueueDecoder.HasReceivedFrame` | offchain-interface/pkg/transport/swim/framesetdecoder.go:86-97 | searches the slots, and crashes at an empty one |
| `FrameDecoder.FrameQueueDecoder.Decode` | offchain-interface/pkg/transport/swim/framesetdecoder.go:116-134 | joins the slots and decompresses, crashes at an empty slot, and meets none once all frames are received |
| `FrameDecoder.CompleteExactlyWhenAllArrived` | offchain-interface/pkg/transport/swim/framesetdecoder.go:42-103 | for any order of delivery with repeats, `ReceivedAll` holds exactly when every frame has arrived |
| `FrameDecoder.MessageSurvives` | offchain-interface/pkg/transport/swim/framesetdecoder.go:42-134 | a non-empty message whose cutting completes, with any MTUs, and that is delivered in any order with repeats, decodes to itself |
| `FrameDecoder.ReadKeepsCount` | offchain-interface/pkg/transport/swim/framesetdecoder.go:42-84 | whatever frame is read, the received count stays the number of filled slots |
| `FrameDecoder.CompleteHasNoGaps` | offchain-interface/pkg/transport/swim/framesetdecoder.go:99-103 | a decoder that has received all has no empty slot |
| `AnyFrames.AnyReadsHoldFirsts` | offchain-interface/pkg/transport/swim/framesetdecoder.go:42-84 | whatever frames are read, each place holds the first frame of the stream, of the first frame's compression, that came for it; all others change nothing |
| `AnyFrames.DecodesExactly` | offchain-interface/pkg/transport/swim/framesetdecoder.go:42-134 | whatever frames are read, decoding gives a message exactly when the frames that came first for their places assemble to it |
| `InboundFrames.InboundHandler.HandleInbound` | offchain-interface/pkg/transport/swim/delegate.go:207-257 | makes the stream's decoder, asks it, lets it read, and deletes it and decodes when the message is complete; other streams are untouched |
| `InboundFrames.DeliveredOncePerRound` | offchain-interface/pkg/transport/swim/delegate.go:207-257 | frames of one message, in any order with repeats, get through exactly when each can be asked about on arrival, and then each completed round delivers the whole message once |
| `InboundFrames.SurvivesExactlyInOrder` | offchain-interface/pkg/transport/swim/delegate.go:236-250 | that is exactly when every round first arrives in order, or the unfinished last round ends with one early frame and repeats from before the gap |
| `InboundFrames.DelegateNeedsOrder` | offchain-interface/pkg/transport/swim/delegate.go:236-257 | a delivery survives exactly in that order, and delivers the message once per round |
| `InboundFrames.FinishedRoundsNeedOrder` | offchain-interface/pkg/transport/swim/delegate.go:236-250 | a delivery that leaves no round unfinished survives exactly when every round is in order |
| `InboundFrames.LateRepeatsCrash` | offchain-interface/pkg/transport/swim/delegate.go:236-250 | once a round is complete, any frame but the first that arrives twice crashes the delegate |
| `InboundFrames.RepeatsAfterCompletionCrash` | offchain-interface/pkg/transport/swim/delegate.go:236-250 | frames 0, 1, 1, 1 of a two-frame message crash it |
| `Gossip.Delegate.Send` | offchain-interface/pkg/transport/swim/delegate.go:182-188 | queues a message |
| `Gossip.Delegate.GetBroadcasts` | offchain-interface/pkg/transport/swim/delegate.go:83-172 | sends the next own frame, or else the next retransmission, and updates both queues as specified |
| `Gossip.Delegate.EnqueueInbound` | offchain-interface/pkg/transport/swim/delegate.go:217-234 | notes the first frame of a foreign stream and queues later unseen ones |
| `Gossip.TransmissionsConserved` | offchain-interface/pkg/transport/swim/delegate.go:83-172 | in every run, sent plus still owed is the transmission count for each time a frame was introduced |
| `Gossip.FramesIntroducedOnce` | offchain-interface/pkg/transport/swim/delegate.go:83-234 | with unique streams, no frame is cut or queued twice |
| `Gossip.SentAtMostExactlyWhenDrained` | offchain-interface/pkg/transport/swim/delegate.go:83-172 | each frame is sent at most max(1, transmission count) times, and exactly that often once both queues are empty |
| `Gossip.BroadcastReducesWork` | offchain-interface/pkg/transport/swim/delegate.go:83-172 | every broadcast with room for a frame decreases a measure on the queues |
| `Gossip.QueuesDrain` | offchain-interface/pkg/transport/swim/delegate.go:83-172 | without new traffic both queues become empty |
| `GossipTurns.OwnMessagesFirst` | offchain-interface/pkg/transport/swim/delegate.go:83-172 | a broadcast sends the next frame of the first message with something left and queues it for the further sends, or drops that message when it has used 64 frames or the MTU has no room |
| `GossipTurns.RetransmissionsWait` | offchain-interface/pkg/transport/swim/delegate.go:83-172 | only when no message has anything left is a frame sent again, the one queued longest |
| `GossipTurns.ForeignFramesForwardedExactly` | offchain-interface/pkg/transport/swim/delegate.go:217-234 | once the queue is empty a foreign frame has been sent the full number of times if another frame of its stream had come before it, and otherwise not at all |
| `StateKeys.FamiliesNeverCollide` | offchain-interface/pkg/state/leveldbstore.go:21-28 | keys of different families differ, whatever follows the prefix |
| `StateKeys.ByteOrderIsNumericOrder` | offchain-interface/pkg/state/leveldbstore.go:534-555 | the database's byte order, on equally long keys, is the order of the numbers they encode |
| `StateKeys.SuccessorAddsOne` | offchain-interface/pkg/state/leveldbstore.go:534-555 | the successor of a key is one more, modulo 256 to its length |
| `StateKeys.GetNextKey` | offchain-interface/pkg/state/leveldbstore.go:534-555 | the in-place loop computes the successor |
| `MissingEventCodec.RoundTrip` | offchain-interface/pkg/state/leveldbstore.go:393-486 | reading back returns every field but the last retry time |
| `MissingEventCodec.RoundTripExactly` | offchain-interface/pkg/state/leveldbstore.go:393-486 | reading back returns the very record exactly when its id is under 32768 bytes and its last retry time is its received time |
| `MissingEventCodec.ReadsExactly` | offchain-interface/pkg/state/leveldbstore.go:424-486 | bytes are read as a record exactly when they are that record's fields in order, whatever follows |
| `GoTime.FormatIsSound` | offchain-interface/pkg/state/leveldbstore.go:394-402 | times in Go's binary format are short and decode to themselves, as the record format needs |
| `StateStore.WriteRefines` | offchain-interface/pkg/state/leveldbstore.go:21-28 | a write to the flat store is a write to one of the separate tables and leaves the others alone |
| `StateStore.LevelDBStore.SetLastSeenBlockHeight` | offchain-interface/pkg/state/leveldbstore.go:62-65 | sets the height and nothing else |
| `StateStore.LevelDBStore.GetLastSeenBlockHeight` | offchain-interface/pkg/state/leveldbstore.go:48-60 | returns the height, or that there is none |
| `StateStore.LevelDBStore.AddMissingBlocks` | offchain-interface/pkg/state/leveldbstore.go:103-113 | stores the range under the next range id |
| `StateStore.LevelDBStore.UpdateMissingBlockRange` | offchain-interface/pkg/state/leveldbstore.go:115-123 | replaces one range |
| `StateStore.LevelDBStore.RemoveMissingBlockRange` | offchain-interface/pkg/state/leveldbstore.go:125-128 | removes one range |
| `StateStore.LevelDBStore.AddMissingEvents` | offchain-interface/pkg/state/leveldbstore.go:188-236 | the transaction's effect on counter, index and records, and the ids it hands out |
| `StateStore.LevelDBStore.NextIds` | offchain-interface/pkg/state/leveldbstore.go:338-376 | hands out the n successors of the counter |
| `StateStore.LevelDBStore.IncrementMissingEventRetryCount` | offchain-interface/pkg/state/leveldbstore.go:238-277 | rewrites the record with one more retry and the unicast flag set; fails exactly when there is no readable record |
| `StateStore.LevelDBStore.RemoveMissingEvent` | offchain-interface/pkg/state/leveldbstore.go:279-303 | removes index entry and record |
| `StateStore.LevelDBStore.MissingEventCount` | offchain-interface/pkg/state/leveldbstore.go:176-186 | counts the entries of the index |
| `StateStore.LevelDBStore.GetMissingEvents` | offchain-interface/pkg/state/leveldbstore.go:130-174 | returns the records of the page after a cursor in byte order, failing exactly when the limit is not positive or the page meets an id that is not 16 bytes long or a record that does not decode |
| `StateStore.PageIsNumeric` | offchain-interface/pkg/state/leveldbstore.go:130-174 | on 16-byte ids, the page in byte order is the page of the numbers |
| `TableIterator.ReadPage` | offchain-interface/pkg/state/leveldbstore.go:135-173 | seek, then step, comparing keys as the database does: the page of the specification |
| `TableIterator.PageNumbers` | offchain-interface/pkg/state/leveldbstore.go:135-173 | where the order of keys agrees with their numbers, a page of keys is a page of numbers |
| `MissingRecords.NewIds` | offchain-interface/pkg/state/leveldbstore.go:338-376 | before wrap-around the i-th id of a batch is the counter plus i, so ids follow insertion order, and no record has it yet |
| `MissingRecords.AddKeepsExactlyWhenDistinct` | offchain-interface/pkg/state/leveldbstore.go:188-236 | adding a batch keeps index and records one to one exactly when it names no event twice |
| `MissingRecords.IncrementKeeps` | offchain-interface/pkg/state/leveldbstore.go:238-277 | counting a retry keeps index and records one to one |
| `MissingRecords.RemoveKeeps` | offchain-interface/pkg/state/leveldbstore.go:279-303 | removal keeps them one to one and makes both one smaller |
| `MissingRecords.CountIsRecords` | offchain-interface/pkg/state/leveldbstore.go:176-186 | the number of index entries is the number of records |
| `MissingRecords.EveryRunIsOneToOne` | offchain-interface/pkg/state/leveldbstore.go:176-303 | in every run of well-used operations index and records correspond, no id is ahead of the counter, and the count is the number of records |
| `Paging.PageExactlyWhenPresent` | offchain-interface/pkg/state/leveldbstore.go:138-144 | a page holds the next records after its cursor exactly when the cursor is present or nothing follows it |
| `Paging.PagingVisitsOnce` | offchain-interface/pkg/harmoniser/eventbacklog.go:38-80 | paging with every cursor still present visits increasing ids, and each id that stays exactly once |
| `Paging.PagingTerminates` | offchain-interface/pkg/harmoniser/eventbacklog.go:38-174 | while ids stay below a bound paging ends, whatever is removed between pages |
| `Paging.PassMissesOnlyStepped` | offchain-interface/pkg/harmoniser/eventbacklog.go:38-174 | when cursors vanish, a pass visits an id that stays exactly when no seek lands on it |
| `BlockGaps.BlockListener.OnBlockHeight` | offchain-interface/pkg/harmoniser/harmoniser.go:71-109 | records the gap before a new highest block and moves the last seen height; crashes exactly on a first height that is not positive |
| `BlockGaps.AcceptedAndMissingPartition` | offchain-interface/pkg/harmoniser/harmoniser.go:71-109 | after any positive heights, accepted heights and recorded ranges partition [0, last seen], and last seen is the highest heard |
| `BlockGaps.HearKeepsPartition` | offchain-interface/pkg/harmoniser/harmoniser.go:71-109 | each height keeps the partition, and last seen never decreases |
| `BlockGaps.StoreFollowsListener` | offchain-interface/pkg/harmoniser/harmoniser.go:71-109 | over any run of positive heights the store holds the last height and exactly the recorded ranges, each under its own id |
| `BlockBackfill.BlockBackfiller.HandleBacklogChunk` | offchain-interface/pkg/harmoniser/blockbacklog.go:88-118 | records each event of a chunk, then shrinks or removes the range |
| `BlockBackfill.BlockBackfiller.BackfillRange` | offchain-interface/pkg/harmoniser/blockbacklog.go:47-82 | handles pages until the total is retrieved or a request fails, and removes the range in the first case |
| `BlockBackfill.CompletedScanRecordsAll` | offchain-interface/pkg/harmoniser/blockbacklog.go:38-83 | a completed scan has marked every event of the range missing |
| `BlockBackfill.FailedScanCoversRest` | offchain-interface/pkg/harmoniser/blockbacklog.go:61-118 | when a later page fails, the stored range covers every event not yet recorded exactly when the last page before did not reach height High-1 |
| `BlockBackfill.ScanOutcome` | offchain-interface/pkg/harmoniser/blockbacklog.go:38-118 | however a scan ends, what it retrieved is marked missing, and the store accounts for the rest exactly when there is none, nothing was retrieved, or the last page did not reach height High-1 |
| `BlockBackfill.LastBlockCanBeLost` | offchain-interface/pkg/harmoniser/blockbacklog.go:101-109 | two events in the last block, one per page: after the first the range is gone and the second event is not marked |
| `BlockBackfill.LevelDBMarks` | offchain-interface/pkg/state/leveldbstore.go:188-236 | recording an event marks it and unmarks nothing |
| `EventIntake.Node.StoreEvent` | offchain-interface/internal/server/submit.go:48-155 | accepts a submission exactly when it is signed, the chain agrees on event, author and hash, and it can be stored; then clears its marker if it can, and otherwise changes nothing |
| `EventIntake.Node.HandleBackfill` | offchain-interface/pkg/transport/payload/handlers/backfillresponse.go:60-139 | stores a genuine answer and clears its marker; the handler goes on exactly when both work |
| `EventBacklog.RequestedThenGivenUp` | offchain-interface/pkg/harmoniser/eventbacklog.go:193-252 | an event nobody delivers, its requests counted, is requested exactly `EventMaxRetries` times, by unicast at most the first time, and is then given up |
| `EventBacklog.EventBackfiller.HandleMissingEvent` | offchain-interface/pkg/harmoniser/eventbacklog.go:182-253 | asks for an event exactly when it is looked up, not stored, old enough, short of its retries and past its interval, by multicast unless unicast is next; drops the marker exactly when the event is stored or out of retries and the calls work |
| `EventBacklog.EventBackfiller.RequestChunk` | offchain-interface/pkg/harmoniser/eventbacklog.go:53-169 | the buffers hold exactly the events to be asked for in each way, no stored one among them; afterwards markers of stored and hopeless events are gone, those asked for and counted have one request more, and the others are unchanged; a failed broadcast leaves the unicasts out |
| `EventBacklog.SpacingIgnoresLastRequest` | offchain-interface/pkg/harmoniser/eventbacklog.go:235-242 | whether a retry is due depends on the received time alone |
| `MarkerTable.AddSetsMarker` | offchain-interface/pkg/state/leveldbstore.go:188-236 | in terms of markers by event id, adding sets one marker |
| `MarkerTable.IncrementSetsMarker` | offchain-interface/pkg/state/leveldbstore.go:238-277 | counting a request changes that marker: one more retry, unicast spent |
| `MarkerTable.RemoveClearsMarker` | offchain-interface/pkg/state/leveldbstore.go:279-303 | removing clears that marker |
| `HarmoniserRuns.ReachableIsGood` | offchain-interface/pkg/harmoniser/eventbacklog.go:53-253 | the invariant of all interleavings of marking, reading, judging, counting, refused counts, sending, abandoning, storing, clearing and expiring |
| `HarmoniserRuns.MarkersAreNeverLost` | offchain-interface/pkg/harmoniser/eventbacklog.go:182-233 | every id ever marked is still marked, or has been stored, or was given up after the full number of requests was counted for one marking, sent or abandoned |
| `HarmoniserRuns.StoredDataMatchesChain` | offchain-interface/internal/server/submit.go:80-148 | the data stored for an event hashes to the off-chain hash on chain for that event |
| `HarmoniserRuns.RequestsAreBounded` | offchain-interface/pkg/harmoniser/eventbacklog.go:82-169 | since it was last marked, the counted requests for an event are at most `EventMaxRetries`, by unicast only first; what else was sent is at most one request counted before the marking, and the requests the store refused to count |
| `HarmoniserLimits.LimitHoldsExactly` | offchain-interface/pkg/harmoniser/eventbacklog.go:97-160 | in every run, after a marking the requests stay within the limit, whatever the node does until the next, exactly when none was in flight at the marking and the store refuses no count, or the limit is zero |
| `HarmoniserLimits.TwoUnicastsForOneRetry` | offchain-interface/pkg/harmoniser/eventbacklog.go:143-160 | with one retry allowed, a marking between count and send leads to two requests, both by unicast |
| `HarmoniserLimits.UnicastsWithoutEnd` | offchain-interface/pkg/harmoniser/eventbacklog.go:143-160 | with every count refused, an event is requested by unicast any number of times after one marking |
| `HarmoniserLimits.AliveExactlyWhenAllWentThrough` | offchain-interface/pkg/transport/payload/handlers/backfillresponse.go:60-147 | in every run the handler is alive exactly while every answer was genuine by the chain of its moment, stored and cleared |
| `HarmoniserLimits.GenuineAnswerStoredExactly` | offchain-interface/pkg/transport/payload/handlers/backfillresponse.go:60-147 | a genuine answer is stored exactly when every answer before it went through |
| `HarmoniserLimits.OneBadAnswerIsEnough` | offchain-interface/pkg/transport/payload/handlers/backfillresponse.go:69-108 | after one bad answer a good one is not stored, though it would have been without |
| `HarmoniserEvidence.HandleDecides` | offchain-interface/pkg/harmoniser/eventbacklog.go:182-253 | the loop decides on a request exactly for events that are not stored and due, and drops the markers of stored and hopeless ones |
| `HarmoniserEvidence.StoredIsNotAskedFor` | offchain-interface/pkg/harmoniser/eventbacklog.go:193-205 | in every run an event that is stored is not requested when its turn comes, and its marker goes, whatever the copy of it says |
| `HarmoniserEvidence.StoredOnEvidence` | offchain-interface/internal/server/submit.go:60-148 | in every run, data stored for an event came from a submission signed by the event's author or an answer to a backfill request, and the chain of that moment had promised it |
| `HarmoniserEvidence.DeliveredThenCleared` | offchain-interface/pkg/transport/payload/handlers/backfillresponse.go:69-139 | a submission or an answer that goes through, followed by its removal of the marker, leaves the data stored and the marker gone |
| `BinaryKeys.KeyRoundTrip` | agent/src/disk_queue.rs:152-158 | decoding an encoded key returns it |
| `BinaryKeys.KeyOrder` | agent/src/disk_queue.rs:152-158 | the tree's order on encoded keys is the order of the numbers |
| `DiskQueue.DiskQueue.Push` | agent/src/disk_queue.rs:38-53 | drops the oldest item of a full queue and inserts under a fresh key |
| `DiskQueue.DiskQueue.GetById` | agent/src/disk_queue.rs:55-67 | looks an item up |
| `DiskQueue.DiskQueue.Remove` | agent/src/disk_queue.rs:69-73 | removes an item |
| `DiskQueue.DiskQueue.Update` | agent/src/disk_queue.rs:75-80 | sets an item, present or not |
| `DiskQueue.DiskQueueIterator.Next` | agent/src/disk_queue.rs:116-149 | yields the item of the least key above the current one in whatever the queue holds now; an item that does not deserialise is an error and holds the iterator where it is |
| `DiskQueue.UpdateKeepsBoundExactly` | agent/src/disk_queue.rs:75-80 | an update stays within the size bound exactly when its key is present or there is room |
| `QueueRuns.IterationVisitsOnce` | agent/src/disk_queue.rs:110-149 | an iteration interleaved with any pushes, removals and updates yields increasing keys and each key present throughout exactly once |
| `QueueRuns.SizeStaysBounded` | agent/src/disk_queue.rs:38-80 | pushes, removals and updates of present keys keep the size within max(max_size, 1) |
| `QueueRuns.UpdateResurrects` | agent/src/retry_queue.rs:163-176 | updating an evicted key exceeds the size limit |
| `OrderedScan.ScanUnderMutation` | agent/src/disk_queue.rs:110-149 | stepping to the least key above the last one visits every key that stays exactly once |
| `RetryLoop.RetryQueue.Push` | agent/src/retry_queue.rs:74-83 | queues an item with no attempts |
| `RetryLoop.RetryQueue.Visit` | agent/src/retry_queue.rs:117-130 | drops an exhausted item, leaves one that is not due, and hands over the rest |
| `RetryLoop.RetryQueue.AttemptRetryAndUpdate` | agent/src/retry_queue.rs:155-185 | removes the item on success or exhaustion and otherwise counts the attempt; changes nothing when the database fails |
| `RetryLoop.AttemptsAreBounded` | agent/src/retry_queue.rs:103-185 | in every run, from any queue found on disk, no key reaches the handler more than `backoff.len()` times, earlier attempts included, and once more for each call whose outcome the database failed to record; a key is given up after a call only when the calls number exactly that |
| `RetryTimes.EveryCallWaits` | agent/src/retry_queue.rs:103-185 | in every run, call number n of a key comes no earlier than backoff[n] after its push or its last recorded failure, and never after a recorded success |
| `RetryTimes.VisitCallsExactly` | agent/src/retry_queue.rs:111-130 | a visit calls the handler if and only if the key has a delay left and it has passed, and removes the key exactly when none is left |
| `RetryTimes.OutcomeKeepsExactly` | agent/src/retry_queue.rs:155-185 | once an outcome is recorded, the key is in the queue if and only if the call failed and its attempts are fewer than the delays, counted in 32 bits |
| `RetryLoop.SizeIsBounded` | agent/src/retry_queue.rs:103-185 | in every run from any queue the size is at most max(max_size, 1) plus one for each evicted item that an update brought back, and with fewer than two delays none is |
| `RetryGrowth.SizeHasNoFixedBound` | agent/src/retry_queue.rs:103-185 | with two delays or more, of any length, a queue of any maximum size can come to hold any number of items |
| `RetryGrowth.SizeBoundedExactly` | agent/src/retry_queue.rs:103-185 | every run keeps to max(max_size, 1) items if and only if there are fewer than two delays |
| `Hex.DecodeEncode` | common/pkg/types/events/txhash.go:23-25 | reading a hash's text returns the hash |
| `Hex.EncodeDecode` | common/pkg/types/events/txhash.go:23-25 | writing what was read returns the text exactly when it is in lower case |
| `Hex.DecodesExactly` | offchain-interface/pkg/repository/mongodb/event.go:247-263 | a text can be read exactly when it is an even number of hexadecimal digits of either case |
| `Hex.CaseDoesNotMatter` | offchain-interface/pkg/repository/mongodb/event.go:247-263 | texts that differ in case alone are read as the same hash |
| `EventFilters.FiltersMatch` | offchain-interface/internal/viewer/streambroadcaster.go:98-111 | stops at the first filter that fails or does not match |
| `EventFilters.LiveMeansAll` | offchain-interface/pkg/repository/filter.go:40-125 | an event passes exactly when every filter matches it |
| `EventFilters.BuildFilter` | offchain-interface/pkg/repository/mongodb/event.go:239-344 | builds the query filter by filter, or fails at the first filter that cannot be compiled |
| `EventFilters.QueryMeansLastFilters` | offchain-interface/pkg/repository/mongodb/event.go:239-344 | a query that builds holds exactly when the last filter at each place finds the event |
| `EventFilters.StreamAgreesWithSearch` | offchain-interface/pkg/repository/filter.go:40-125 | for any filters at distinct places an event passes the stream exactly when the search finds it and hashes are in lower case, principals spelled as the event's, and properties known |
| `EventFilters.BuildsExactly` | offchain-interface/pkg/repository/mongodb/event.go:239-344 | the query builds exactly when every filter can be compiled |
| `EventFilters.FilterAgreesExactly` | offchain-interface/pkg/repository/filter.go:40-66 | stream and search agree on every event about one filter exactly when it is a lower-case hash, a principal without another spelling, or on any other known property |
| `EventFilters.SearchFindsWhatStreams` | offchain-interface/pkg/repository/mongodb/event.go:239-344 | whatever the filters, what the stream passes the search finds |
| `EventFilters.SearchFindsMore` | offchain-interface/pkg/repository/mongodb/event.go:331-337 | two filters on the channel, the second one right: the search finds the event and the stream withholds it |

## Left out

- App hashes, validator updates, Merkle proofs, queries and `CheckTx` of the chain; the stores and hash calls of the chain are taken to succeed.
- Crash recovery in the middle of `Commit`, and of the agent between a handler call and its bookkeeping.
- Websocket, RPC and HTTP clients, gin handlers, memberlist wiring, Win32 collection, XML parsing, viewer authentication, the user interface, configuration and shutdown.
- The connection pool and the agent's verifying client; they would only add easy members or need another model of connections.
- The printer and parser of durations, which belong to Go's standard library.
- Integer limits of MongoDB (`$skip`, `$slice`) and the order of events with equal times, which the server leaves open and the model breaks by event hash.
- Several readings of the clock within one operation are one reading.
- The transmission count changes with the size of the cluster; the model fixes it during a run.
- Pruning of gossip decoders and of the lists of frames seen.
- CometBFT's limits on the page size of a search, and search results that do not decode; the results of one range do not change during its scan.
- Store writes of the block listener and the block backfiller that fail; their store is the abstract state that `LevelDBStore` is proved to refine.
- `_id` comparison of a search that continues from a first event: the condition is built, and its meaning is not modelled.
- Frame.Unmarshal: the missing length check before the four-byte data length is modelled as an error of its own, where the code would run past the end of the slice.
- DiskQueue.DiskQueue.Push: asks that the database's 64-bit id counter has not run out.
- ChainApps.MultiplexedApplication.FinalizeBlock: does not state the app hash and validator updates of its response, which are left out of the model.
- DiskQueue.DiskQueueIterator.Next: keys of the tree are taken to decode, because the queue writes no others.
- BlockBackfill.BlockBackfiller.BackfillRange: asks for a positive chunk size; with none the code would never get past the first page.
- RetryLoop.RetryQueue.Visit: a removal that fails there ends the retry task; the results hold up to that point.
