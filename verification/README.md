# Elura: a Dafny model of its state machines

Elura is a game-server framework. Its core is a set of small state machines that
clients and servers run against unreliable networks: delta-compressed entity
replication, an authoritative room with rollback, a redundant input channel, a
per-player executor, a frame codec, a snapshot stream, a spatial index, an online
directory, client prediction, a link simulator and an interpolation buffer. This
project models each of them and proves what they promise over every input and every run.

Each machine is written twice. The in-place form is a class or a method with the
source's fields, loops, branches and errors. It is proved to compute a specification
function on values, and the main theorems are about runs of those functions:
`ReplicationSystem.Convergence`, `ReplicationSystem.NothingGenuineIsRefused`,
`RoomRuns.EveryRunReplays`, `RoomRuns.RollbackAlwaysPossible`,
`InputRuns.ExactlyOnce`, `KeyedLocks.OnePerPlayer`, `FrameCodecs.StreamRoundTrip`,
`SnapshotStreams.ShowsWhatWasPublished`, `AoiGrids.AoiGrid.Query`,
`OnlineDirectories.NeverTwice`, `Predictions.HistoryIsReplay`,
`SimulatedLinks.BandwidthHolds` and `Interpolations.BufferHoldsNewest`.

Beside the run theorems, which mostly say what never goes wrong, the modules named for
outcomes, updates, keys, fates and the wire say exactly when each operation succeeds, what it
then changes and which error it gives otherwise, on arguments and fields alone.

`dafny verify dfyconfig.toml` checks everything.

## How the source is represented

- Integers are unbounded. Saturating, wrapping and checked operations on `u64`, `Duration`
  and `usize` are written out where they decide something.
- Networks, clocks, random draws, hash functions and the shard hash are parameters. A network
  keeps everything ever sent and may deliver any of it at any time, any number of times.
- Game rules, delta encoders and snapshot hooks are pure functions. The hash is uninterpreted.
- `f64` is exact `real`, with a separate value for infinities and not-a-number.
- A `BinaryHeap` is an ascending sequence; equal keys, which need an exhausted 64-bit
  counter, stay in arrival order.
- The lock table's reference count is the set of locks seen referenced. References are created
  only under the shard's mutex and may be dropped at any time, so everything still referenced
  when a lookup ends was seen referenced at both readings.
- Checks that a configuration constructor makes are preconditions of the constructor, except
  where a row below says otherwise.

## What turned out not to hold

- `RoomEdges.MissingCheckpointExactly`: a submission validated before an advance and drained
  after it can target the finalized tick, whose record is still kept while the checkpoint
  below it is gone. The lemma gives the exact condition and `RoomEdges.StrayHappens` reaches
  it; runs in which submissions are validated against the horizon they are drained at do not.
- `InputLosses.DeliveryExactly`: the input channel does not deliver every input. The lemma says
  exactly when one packet hands over the oldest outstanding one. Failing that, an input is lost
  for good when the history outgrows one readable packet (`InputLosses.LostForever`) or when a
  target ages out (`InputLosses.AgedOutForever`), and the history fills up behind it.
- `OnlineDirectories.RenewalDuplicatesExactly`: renewal trusts the identity in the lease.
- `ReplicationReceivers.ExhaustedReceiverRefuses`: at the last 64-bit sequence every packet
  is refused, even an empty one.
- `ReplicationKeys.KeysAfterDiff`: a delta keeps the old prediction key, so the receiver's keys
  lag behind a key that changes without its state going out in full (`ReplicationKeys.KeyLags`).
- `ReplicationDiff.DiffMeansContract`: convergence needs the application to keep its contract
  that equal versions mean equal states and that decoding an encoded delta gives the new
  state; the documentation states it, the code does not check it.

## Model

| member | source | states |
|---|---|---|
| `ReplicationSystem.Convergence` | crates/elura-replication/src/sender.rs:44-147 | In every state reachable over a network that drops, repeats and reorders anything, the receiver holds exactly the replay of batches 1..ack, and once ack is the last issued batch it holds the sender's projected versions and states |
| `ReplicationSystem.NothingGenuineIsRefused` | crates/elura-replication/src/receiver.rs:57-145 | With one valid configuration on both sides, every packet ever built and every acknowledgement ever returned is accepted at any later time of any run |
| `ReplicationSystem.RoundProgresses` | crates/elura-replication/src/sender.rs:221-240 | From any reachable state with batches pending, delivering the current packet and its acknowledgement strictly raises the acknowledged sequence and shortens the history, keeping the log and the projection |
| `ReplicationSystem.RoundsDrain` | crates/elura-replication/src/sender.rs:150-178 | As many loss-free rounds as there are pending batches release them all and leave the receiver with the sender's picture |
| `ReplicationSystem.EveryRunCanDrain` | crates/elura-replication/src/sender.rs:221-240 | The same from the end of every legal run |
| `ReplicationSystem.StepKeepsInv` | crates/elura-replication/src/receiver.rs:57-145 | Every step of sender, receiver and network keeps the joint invariant: numbered log, history is its unacknowledged suffix, fold of the log is the projection, receiver is a replay, packets and acknowledgements are genuine and within the window |
| `ReplicationSystem.GenuineReceive` | crates/elura-replication/src/receiver.rs:57-145 | An issued packet delivered at any later time is accepted, keeps the receiver a replay of the log and receives all of the packet's batches |
| `ReplicationSystem.GenuineAcknowledge` | crates/elura-replication/src/sender.rs:150-178 | An issued acknowledgement delivered at any later time, even after newer ones, is accepted, and only moves the acknowledged sequence up |
| `ReplicationDiff.DiffMeansContract` | crates/elura-replication/src/sender.rs:71-117 | Exact condition: replaying a reconciliation on a copy of the projected set yields the visible set if and only if versions and deltas keep the application's contract |
| `ReplicationDiff.DiffApplies` | crates/elura-replication/src/sender.rs:71-117 | Under that contract the replay is never refused, whatever mixture of spawn, keyframe, delta and despawn was chosen, despawns freeing room first |
| `ReplicationDiff.ChunksApply` | crates/elura-replication/src/sender.rs:130-142 | Cutting the events of one reconciliation into batches does not change what they do |
| `ReplicationSenders.ReplicationSender.BuildPacket` | crates/elura-replication/src/sender.rs:221-240 | The packet is the oldest unacknowledged batch followed by the newest ones, in sequence order and within the redundancy limit |
| `ReplicationSenders.ChunkCount` | crates/elura-replication/src/sender.rs:119-128 | The number of batches cut is the rounded-up quotient that the capacity and sequence checks reserve for |
| `ReplicationSenders.DropThroughRetained` | crates/elura-replication/src/sender.rs:168-177 | Popping through an acknowledged sequence leaves exactly the batches after it and a valid sender |
| `ReplicationSenders.FindTickAt` | crates/elura-replication/src/sender.rs:150-167 | The tick looked up for an acknowledged sequence is the one of the batch with that number, or none if it is not retained |
| `ReplicationSenders.ReplicationSender.Update` | crates/elura-replication/src/sender.rs:44-147 | The in-place reconciliation computes UpdateSender, whose success, errors and result UpdateExactly states on the arguments and fields, or returns its error with the sender unchanged |
| `ReplicationSenders.ReplicationSender.Acknowledge` | crates/elura-replication/src/sender.rs:150-178 | The in-place acknowledgement computes AcknowledgeSender and the number of batches released, or changes nothing |
| `ReplicationSenders.ReplicationSender.ForceKeyframes` | crates/elura-replication/src/sender.rs:181-183 | Only raises the flag that turns the next changes into keyframes |
| `ReplicationReceivers.ExhaustedReceiverRefuses` | crates/elura-replication/src/receiver.rs:94-106 | At the very end of the sequence space every packet is refused, the empty one included |
| `ReplicationReceivers.ReplicationReceiver.ReceivePacket` | crates/elura-replication/src/receiver.rs:57-145 | The staged, loop-by-loop receive computes Receive, whose effect EventExactly and AcceptedPacketMeans state for any packet and KeysFollowLog for keys; an error leaves window, entities, buffered batches and tick as they were |
| `ReplicationReceivers.StageBatch` | crates/elura-replication/src/receiver.rs:189-292 | Staging one batch in an overlay of changes with a running entity count equals applying it to the merged world, error for error and key for key |
| `ReplicationReceivers.StagedEntity` | crates/elura-replication/src/receiver.rs:294-305 | A staged lookup reads the entity as it is in the merged world |
| `ReplicationReceivers.ReceiveKeepsValid` | crates/elura-replication/src/receiver.rs:94-145 | For arbitrary packets: buffered payloads stay in step with the window, the entity limit holds, acknowledgement and tick only grow |
| `ReplicationReceivers.PayloadNeverMissing` | crates/elura-replication/src/receiver.rs:94-106 | The missing-payload refusal is unreachable below the end of the 64-bit sequence space, for arbitrary packets |
| `ReplicationReceivers.AboveMatchesWindow` | crates/elura-replication/src/receiver.rs:124-135 | After commit the buffered batches are exactly the ones the window holds above its acknowledgement, each under its own number |
| `ReplicationUpdates.UpdateExactly` | crates/elura-replication/src/sender.rs:44-147 | A reconciliation succeeds if and only if its tick is positive and new, the visible ids are distinct and within the limit, no projected entity has a lower version, and the rounded-up number of batches for the entities gone, new and changed (all kept ones when forced) fits the history and the sequence space; which error each first broken condition gives; afterwards exactly the visible entries are projected, under the new tick, with that many batches appended and the force flag down |
| `ReplicationUpdates.DiffCount` | crates/elura-replication/src/sender.rs:71-117 | Without a version going back, the number of events is the number of entities gone plus the number of visible ones new, changed or forced; otherwise the whole reconciliation is refused |
| `ReplicationKeys.DiffSaysExactly` | crates/elura-replication/src/sender.rs:71-117 | The events of a reconciliation: one removal per entity gone, and one event per entity new, changed or forced, which carries the visible version, key and state in full or the encoder's delta; about no entity twice, about no other |
| `ReplicationKeys.KeysFollowLog` | crates/elura-replication/src/receiver.rs:211-287 | In every reachable state an entity the receiver holds has the key carried by the last full state for it among the batches it acknowledges, found by scanning the log alone |
| `ReplicationKeys.KeysAfterDiff` | crates/elura-replication/src/sender.rs:83-117 | Exact condition: after a reconciliation the carried keys are the visible ones if and only if every entity that was not sent in full kept its key |
| `ReplicationKeys.KeyLags` | crates/elura-replication/src/receiver.rs:254-263 | A key that changes while its entity goes out as a delta, or keeps its version, is not carried over |
| `ReplicationKeys.KeysConverge` | crates/elura-replication/src/receiver.rs:57-145 | On every run in which keys change only with a state sent in full, a receiver that acknowledges the last issued batch holds exactly the sender's projected map, keys included |
| `ReplicationOutcomes.EventExactly` | crates/elura-replication/src/receiver.rs:210-288 | An event of any origin is applied if and only if its entity is as the event requires and a new entity has room; it makes of that entity exactly what it says and touches no other; which failed requirement gives which error |
| `ReplicationOutcomes.BatchMeans` | crates/elura-replication/src/receiver.rs:202-291 | An applied batch names no entity twice, so each event finds its entity as the batch found it, and what no event names stays |
| `ReplicationOutcomes.AcceptedPacketMeans` | crates/elura-replication/src/receiver.rs:57-92 | A packet of any origin that is accepted is short enough and well formed throughout; the receiver has then received exactly what it had and what the packet numbers, and reports every other batch as a duplicate |
| `ReplicationOutcomes.MalformedIsRefused` | crates/elura-replication/src/receiver.rs:71-92 | One batch without a tick or a number, or with too many events, refuses its whole packet |
| `ReplicationOutcomes.ReportExactly` | crates/elura-replication/src/receiver.rs:94-145 | The report of an issued packet counts exactly the batches, and their events, by which the acknowledgement advances |
| `ReplicationOutcomes.AcknowledgeExactly` | crates/elura-replication/src/sender.rs:150-178 | An acknowledgement of any origin is accepted if and only if it is stale or names a retained batch with that batch's tick, and releases exactly the batches up to it |
| `StableSort.SortIsPermutation` | crates/elura-replication/src/receiver.rs:70 | Packets are scanned as an ascending permutation of what arrived |
| `SequenceWindows.ObserveReceives` | crates/elura-netcode/src/input.rs:277-299 | Observing a sequence adds exactly that sequence to what was received, or reports a duplicate exactly when it was received before, or refuses exactly zero and numbers past the window |
| `SequenceWindows.AcknowledgementIsLargestPrefix` | crates/elura-netcode/src/input.rs:250-255 | The cumulative acknowledgement is the largest n with everything up to n received |
| `SequenceWindows.SequenceWindow.Observe` | crates/elura-netcode/src/input.rs:277-299 | The gap-closing loop computes ObserveWindow and leaves the window unchanged on error |
| `SequenceWindows.SequenceWindow.WithAcknowledged` | crates/elura-netcode/src/input.rs:263-275 | A window restored at an acknowledgement; zero width is the only refusal |
| `RoomRuns.FinalizedForever` | crates/elura-core/src/realtime.rs:522-534 | For every game: the command log at or below a finalized tick never changes again, and the horizon only moves forward |
| `RoomRuns.EveryRunReplays` | crates/elura-core/src/realtime.rs:423-536 | On every run with late commands the live state is the from-scratch replay of the final per-tick log, every retained checkpoint is that replay's at its tick, and the retained ticks are exactly finalized..current with finalized = max(0, current - window) |
| `RoomRuns.RollbackAlwaysPossible` | crates/elura-core/src/realtime.rs:591-662 | At any point of a run an advance fails only where the game itself fails: missing and corrupted checkpoints and lost records are unreachable |
| `RoomRuns.EveryRunAccounts` | crates/elura-core/src/realtime.rs:436-463 | For every game: every received command is a duplicate, refused, waiting, in the log or failed, exactly once; each (player, sequence) is taken at most once and in order; execution follows (target, arrival) and is never early |
| `RoomFates.SubmitExactly` | crates/elura-core/src/realtime.rs:347-386 | A submission is queued if and only if its fields are sound, its tick is not too far ahead, a past tick is still open and the queue has room; which error otherwise |
| `RoomFates.OpenMeansRetained` | crates/elura-core/src/realtime.rs:371-386 | In a reachable room a past tick is open if and only if its record and the checkpoint below it are both retained |
| `RoomFates.SubmissionFate` | crates/elura-core/src/realtime.rs:552-590 | A drained submission is a duplicate exactly when a number as high was taken from its player, and otherwise refused exactly when its past tick is unrecorded or full or, for a future tick, enough commands wait; taken, it joins the record and log entry of its tick, or waits under its target and a new largest arrival number, behind all due no later |
| `RoomFates.RunKeepsNumbers` | crates/elura-core/src/realtime.rs:555-562 | On every run the number a submission must exceed is that of the last command taken from its player |
| `RoomFates.AcceptedWaits` | crates/elura-core/src/realtime.rs:577-586 | A submission for a future tick to a room with an empty queue waits after the next drain if and only if its number is new and fewer than the limit wait |
| `RoomFates.TickExactly` | crates/elura-core/src/realtime.rs:436-534 | Of the commands waiting in order, number i runs in the next tick if and only if it is due and i is below the per-tick limit; the log gains exactly what the game applied, the failed list exactly what it turned down in the state reached so far, and the tick steps from there |
| `RoomFates.RunsAtFirstTurn` | crates/elura-core/src/realtime.rs:436-463 | On every run a waiting command runs at the first tick at or after its target at which fewer than the per-tick limit are ahead of it, and goes on waiting where there is none |
| `RoomFates.RunsInTurn` | crates/elura-core/src/realtime.rs:436-463 | One advance runs a waiting command exactly when it is its turn and keeps it waiting otherwise |
| `RoomFates.RestoreExactly` | crates/elura-core/src/realtime.rs:598-623 | A checkpoint is refused as corrupted exactly when its snapshot no longer has its hash, and a restored state as mismatched exactly when its own snapshot has another |
| `RoomEdges.MissingCheckpointExactly` | crates/elura-core/src/realtime.rs:598-604 | For any queue of submissions validated against an older horizon: the rollback lacks its checkpoint if and only if the finalized tick's record has room and some submission for that tick is fresh when its turn comes |
| `RoomEdges.LateExactly` | crates/elura-core/src/realtime.rs:552-590 | Draining asks for a rollback to the oldest recorded tick if and only if its record has room and some submission for it is fresh when its turn comes |
| `RoomEdges.StrayHappens` | crates/elura-core/src/realtime.rs:371-386 | From any reachable room whose horizon moves: a submission for the tick above the horizon passes validation before the advance, would be refused after it, and makes the next drain fail |
| `RoomReplay.AdvanceKeepsFinalized` | crates/elura-core/src/realtime.rs:522-534 | For every game: one advance keeps records and log in step and leaves every finalized record alone |
| `RoomReplay.AdvanceKeepsReplay` | crates/elura-core/src/realtime.rs:423-536 | One advance from any invariant state re-establishes the replay invariant and moves the clock by one, or fails only in the game |
| `RoomReplay.RestoreSucceeds` | crates/elura-core/src/realtime.rs:598-623 | The checkpoint below an admissible target passes its hash check and restores the replayed state |
| `RoomReplay.ReplayTicksSound` | crates/elura-core/src/realtime.rs:624-662 | Re-running the recorded ticks gives the replayed state and rewrites each checkpoint, touching no other |
| `RoomReplay.DrainKeeps` | crates/elura-core/src/realtime.rs:552-590 | Draining any queue of admissible submissions inserts late ones into their tick's record in step with the log and reports the earliest late tick |
| `RoomReplay.ExecuteDueApplies` | crates/elura-core/src/realtime.rs:436-463 | The commands executed in a tick, applied in order to the state before it, give the state after it |
| `RoomSchedule.AdvanceKeepsSchedule` | crates/elura-core/src/realtime.rs:216-223 | Executed commands extend the run in (target, arrival) order, at most the per-tick limit; due ones are left behind only when the limit was reached |
| `RoomSchedule.AdvanceConserves` | crates/elura-core/src/realtime.rs:552-590 | One advance books every drained command exactly once |
| `RoomObjects.RoomObject.TrySubmitAt` | crates/elura-core/src/realtime.rs:347-386 | Submission refuses a bad target, player or sequence, then a target that can no longer change, then a full queue, and otherwise queues the command |
| `RoomObjects.RoomObject.DrainQueue` | crates/elura-core/src/realtime.rs:552-590 | The in-place drain loop computes Drain, whose every submission meets the fate that SubmissionFate states |
| `RoomObjects.RoomObject.ResimulateFrom` | crates/elura-core/src/realtime.rs:591-662 | The in-place rollback computes Resimulate: restore, check, replay tick by tick, recapture |
| `RoomObjects.RoomObject.RunTick` | crates/elura-core/src/realtime.rs:436-534 | The body of one tick computes NextTick |
| `RoomObjects.RoomObject.InitializeOnce` | crates/elura-core/src/realtime.rs:537-551 | The first advance captures the checkpoint of tick zero, later ones do nothing |
| `RoomObjects.RoomObject.AdvanceOne` | crates/elura-core/src/realtime.rs:423-536 | A whole in-place advance computes Advance |
| `InputRuns.ExactlyOnce` | crates/elura-netcode/src/input.rs:357-407 | Over every run with loss, reordering and repetition: the server is handed only recorded inputs, none twice; an input leaves the sender's history only after it was handed over; no acknowledgement is refused |
| `InputRuns.StreamStepKeeps` | crates/elura-netcode/src/input.rs:160-236 | Every step keeps: consecutive numbering, history is the unacknowledged suffix, only genuine frames on the wire, sender's acknowledgement never ahead of the receiver's |
| `InputLosses.DeliveryExactly` | crates/elura-netcode/src/input.rs:357-407 | From any reachable state whose oldest unacknowledged input has not arrived: sending a packet and delivering it at server tick t hands that input over if and only if the history fits one readable packet, the acknowledged server tick is not in the future, and every outstanding target is admissible at t; then everything recorded has arrived |
| `InputLosses.PacketCarriesNewest` | crates/elura-netcode/src/input.rs:229-236 | A packet carries the last min(redundancy, pending) inputs under the consecutive numbers that end at the last one issued |
| `InputLosses.LostForever` | crates/elura-netcode/src/input.rs:229-236 | Once the history has outgrown min(redundancy, packet limit) and every packet carrying the oldest unacknowledged input is gone or too long, no continuation hands it over or moves the acknowledgement |
| `InputLosses.LossHappens` | crates/elura-netcode/src/input.rs:160-180 | Such a loss is reachable under every configuration whose history capacity exceeds that minimum |
| `InputLosses.AgedOutForever` | crates/elura-netcode/src/input.rs:383-389 | An input whose target ages out before it arrives never arrives under a server clock that does not run back, and the acknowledgement stays below it |
| `InputLosses.OverdueRefused` | crates/elura-netcode/src/input.rs:383-389 | An overdue input makes every genuine packet that carries it refused as a whole |
| `InputOutcomes.RecordExactly` | crates/elura-netcode/src/input.rs:160-180 | In a reachable stream an input is recorded if and only if it has a target, fewer than the capacity are unacknowledged and a number is left; it is then the last one issued |
| `InputOutcomes.RecordErrors` | crates/elura-netcode/src/input.rs:160-180 | Which condition gives which error, the first one counting |
| `InputOutcomes.AcknowledgeExactly` | crates/elura-netcode/src/input.rs:183-204 | An acknowledgement of any origin is accepted if and only if it names a number issued; the sender then keeps exactly the inputs after the highest one acknowledged and the latest server tick |
| `InputOutcomes.AcceptedPacketMeans` | crates/elura-netcode/src/input.rs:357-407 | A packet of any origin that is accepted: everything it hands over has a target in the span the server takes; all its inputs are then received, and each is handed over or counted as a duplicate |
| `InputOutcomes.PacketErrors` | crates/elura-netcode/src/input.rs:357-372 | Too many inputs, then a server tick from the future, refuse a packet before it is scanned; an empty packet is accepted and changes nothing |
| `InputChannel.AtMostOnce` | crates/elura-netcode/src/input.rs:357-407 | Over any history of packets of arbitrary content, failed ones included, no sequence is handed over twice, and the window remembers exactly which were |
| `InputChannel.ReceiveRemembers` | crates/elura-netcode/src/input.rs:378-407 | One arbitrary packet hands over only frames it carries that were never handed over before |
| `InputChannel.AcceptedInOrder` | crates/elura-netcode/src/input.rs:373 | What a packet hands over is in sequence order whatever order it lists |
| `InputChannel.InputSender.Record` | crates/elura-netcode/src/input.rs:160-180 | Recording computes RecordInput and returns the number assigned, or changes nothing |
| `InputChannel.InputSender.Acknowledge` | crates/elura-netcode/src/input.rs:183-204 | Acknowledging computes AcknowledgeInput and the number released; a stale sequence still raises the server tick |
| `InputChannel.InputReceiver.Receive` | crates/elura-netcode/src/input.rs:357-407 | Transactional: computes ReceiveInputs on a copy of the window and installs it, or leaves the window as it was |
| `Common.DropThroughAt` | crates/elura-netcode/src/input.rs:195-202 | Popping a consecutively numbered history removes exactly the entries up to the acknowledgement |
| `KeyedLocks.LockShard.Obtain` | crates/elura-world/src/keyed.rs:52-80 | The critical section computes LookUp, reading the reference counts once while pruning and again while evicting; when full it drops an idle entry that none idle is older than |
| `KeyedLocks.OnePerPlayer` | crates/elura-world/src/keyed.rs:47-83 | Over every interleaving of lookup, pruning, eviction, acquisition, release and cancellation, references being dropped even between the two readings of their count: two running operations never share a player, and live executions share a lock exactly when they share a player |
| `KeyedLocks.WaiterMayRun` | crates/elura-world/src/keyed.rs:81-83 | On every run a waiting operation may take its lock if and only if no operation of its player runs: cancellation never strands a player |
| `KeyedLocks.LockStepKeeps` | crates/elura-world/src/keyed.rs:47-83 | Every step keeps: distinct players have distinct cached locks, every live execution's lock is still the cached entry, one runner per lock |
| `KeyedLocks.LookUpKeeps` | crates/elura-world/src/keyed.rs:55-80 | A lookup keeps every entry whose lock is referenced, changes no other player's lock, and yields the cached lock or a new one |
| `KeyedLocks.GrowthMeansAllBusy` | crates/elura-world/src/keyed.rs:66-69 | The shard outgrows its bound only when every other cached lock is in use |
| `KeyedLocks.LockShard.FindOldestUnlocked` | crates/elura-world/src/keyed.rs:92-97 | Finds an idle entry with the least last-seen time, or none exactly when nothing is idle |
| `KeyedLocks.LockShard.Retain` | crates/elura-world/src/keyed.rs:57-62 | Keeps exactly the referenced and the recently seen entries |
| `KeyedLocks.LookUpExactly` | crates/elura-world/src/keyed.rs:52-80 | A lookup leaves the player's entry seen now, under its old lock unless it was stale; of the others exactly the stale ones go when pruning is due, and the victim when a miss finds the shard full |
| `KeyedLocks.RunKeepsTimes` | crates/elura-world/src/keyed.rs:70-80 | On every run each cached entry carries the time of its player's last lookup |
| `KeyedLocks.EvictsLeastRecent` | crates/elura-world/src/keyed.rs:66-97 | After every run a full shard evicts an idle lock whose player's last lookup is no later than that of any other idle one |
| `FrameCodecs.StreamRoundTrip` | crates/elura-core/src/protocol.rs:210-278 | Any frames with a payload that fits, no flags, a route, and a request number exactly when not a push, encoded in order and cut into chunks anywhere, arrive as the same frames in order with nothing left over |
| `FrameCodecs.ChunkingIrrelevant` | crates/elura-core/src/protocol.rs:210-257 | For arbitrary bytes: however the stream is cut, the same frames come out and it ends waiting or broken the same way |
| `FrameCodecs.DecodeOfEncode` | crates/elura-core/src/protocol.rs:263-278 | Encoding then decoding returns the frame and leaves whatever followed it |
| `FrameCodecs.EncodeOfDecode` | crates/elura-core/src/protocol.rs:210-257 | Whatever bytes decode to a frame are the bytes that frame encodes to |
| `FrameCodecs.MessageIsWholeBuffer` | crates/elura-core/src/protocol.rs:143-195 | The message decoder accepts exactly the buffers in which the stream decoder finds one frame and nothing behind it |
| `FrameCodecs.MessageErrors` | crates/elura-core/src/protocol.rs:143-195 | For any reason other than truncation or not-one-frame: a message is refused exactly when the stream decoder refuses the same bytes for that reason, having consumed none of them or all of them |
| `FrameCodecs.DecodeSettled` | crates/elura-core/src/protocol.rs:210-257 | Bytes still to come never change a verdict already reached |
| `FrameCodecs.HeaderReadBack` | crates/elura-core/src/protocol.rs:267-275 | Every header written is read back field by field |
| `FrameCodecs.HeaderWriteBack` | crates/elura-core/src/protocol.rs:214-234 | Every header accepted is the one its fields write |
| `FrameCodecs.FrameBuffer.Next` | crates/elura-core/src/protocol.rs:210-257 | The buffer-advancing decode computes Decode, including what an error leaves in the buffer, and yields only well-formed frames |
| `FrameCodecs.FrameBuffer.Write` | crates/elura-core/src/protocol.rs:263-278 | Accepts exactly the well-formed frames and appends their encoding, or appends nothing |
| `FrameCodecs.FrameBuffer.New` | crates/elura-core/src/protocol.rs:129-136 | The payload maximum must be within 1..=64 MiB |
| `FrameWire.EncodeExactly` | crates/elura-core/src/protocol.rs:99-119 | A frame is encoded if and only if its payload fits, it has no flags and a route, and its request number is zero exactly for a push; each first broken rule gives its own error |
| `FrameWire.EncodedOctets` | crates/elura-core/src/protocol.rs:263-278 | Octet by octet: magic, version, kind code, flags, route, request number, sequence and length, most significant first, then the payload |
| `FrameWire.HeaderExactly` | crates/elura-core/src/protocol.rs:214-234 | The header reader accepts exactly the right magic, version and kind codes one to four, and reads each field from its octets |
| `FrameWire.CompleteExactly` | crates/elura-core/src/protocol.rs:210-257 | A buffer gives a frame if and only if that frame, well formed, stands at its front; what is behind it stays |
| `FrameWire.IncompleteExactly` | crates/elura-core/src/protocol.rs:210-242 | A buffer is waited on if and only if its header is cut, or is sound and its body is cut |
| `FrameWire.RefusedExactly` | crates/elura-core/src/protocol.rs:210-257 | An unsound header refuses a buffer and leaves it; a complete frame that breaks a rule is refused and consumed, with the error that encoding it would give; nothing else is refused |
| `FrameWire.MessageExactly` | crates/elura-core/src/protocol.rs:143-195 | A message gives a frame if and only if it is that frame, well formed, and nothing else |
| `Bytes.ReadBack` | crates/elura-core/src/protocol.rs:267-275 | A number that fits its width is read back from its big-endian bytes |
| `Bytes.WriteBack` | crates/elura-core/src/protocol.rs:214-234 | Big-endian bytes are rewritten from the number they read as |
| `Bytes.XorUndoes` | crates/elura-core/src/snapshot_replication.rs:241-246 | Exclusive or with the base undoes the difference, and the difference is zero exactly where the two agree |
| `SnapshotStreams.ShowsWhatWasPublished` | crates/elura-core/src/snapshot_replication.rs:210-235 | Whatever packets arrive, in whatever order and however often, and whatever the hash: the receiver shows a state that was published at that tick |
| `SnapshotStreams.GenuineApply` | crates/elura-core/src/snapshot_replication.rs:210-235 | A genuine packet is accepted if and only if it is newer than what is shown, fits, and is a keyframe or builds on exactly what is shown; it then yields the published snapshot |
| `SnapshotStreams.KeyframeRepairs` | crates/elura-core/src/snapshot_replication.rs:68-101 | After any run and any loss, the next snapshot published under force or at a periodic tick brings the receiver up to date |
| `SnapshotStreams.NextPacketAccepted` | crates/elura-core/src/snapshot_replication.rs:68-101 | Without loss the deltas chain |
| `SnapshotStreams.PatchOfDelta` | crates/elura-core/src/snapshot_replication.rs:237-262 | A trimmed exclusive-or delta applied to its base gives the snapshot, for any two lengths |
| `SnapshotStreams.DeltaLength` | crates/elura-core/src/snapshot_replication.rs:246-248 | The delta stops at the last octet that differs from the base |
| `SnapshotStreams.XorDelta` | crates/elura-core/src/snapshot_replication.rs:237-250 | The appending and trimming loops compute Delta |
| `SnapshotStreams.XorApply` | crates/elura-core/src/snapshot_replication.rs:251-262 | The patching loop computes Patch, zero-extending base and delta |
| `SnapshotStreams.ReplicationStream.BuildPacket` | crates/elura-core/src/snapshot_replication.rs:68-101 | Building a packet computes PacketFor and remembers the snapshot, or changes nothing |
| `SnapshotStreams.SnapshotReceiver.Apply` | crates/elura-core/src/snapshot_replication.rs:210-235 | Applying computes ApplyPacket, or refuses and keeps what is shown |
| `SnapshotStreams.PublishExactly` | crates/elura-core/src/snapshot_replication.rs:68-101 | A snapshot is published if and only if its tick is new and it fits; it goes out as a delta exactly when it need not be whole and its last five octets did not change |
| `SnapshotStreams.OrdinaryTickArrives` | crates/elura-core/src/snapshot_replication.rs:68-101 | Any new snapshot that fits, at any tick, is published and shown by a receiver that shows the one before |
| `SnapshotStreams.AcceptedExactly` | crates/elura-core/src/snapshot_replication.rs:210-235 | For packets of any origin: exactly what makes the receiver show a state, hash and size included |
| `AoiGrids.AoiGrid.Query` | crates/elura-aoi/src/lib.rs:337-380 | The bounding-box cell scan reports exactly the entities in the disc, each once, or the first reason to refuse |
| `AoiGrids.AoiGrid.Relocate` | crates/elura-aoi/src/lib.rs:299-326 | Moves the entity and reports exactly who entered and who left its view; refused for exactly RelocateFault, changing nothing |
| `AoiGrids.AoiGrid.VisibleTo` | crates/elura-aoi/src/lib.rs:383-394 | Exactly the other entities in the disc around the entity, each once |
| `AoiGrids.AoiGrid.Insert` | crates/elura-aoi/src/lib.rs:254-262 | Adds exactly one position and files it, or changes nothing |
| `AoiGrids.AoiGrid.MoveEntity` | crates/elura-aoi/src/lib.rs:279-296 | Replaces exactly one position and refiles it, or changes nothing |
| `AoiGrids.AoiGrid.Upsert` | crates/elura-aoi/src/lib.rs:265-276 | Inserts or moves; refused exactly for an unrepresentable position |
| `AoiGrids.AoiGrid.Remove` | crates/elura-aoi/src/lib.rs:329-334 | Removes exactly one position and its filing, never failing after the removal |
| `AoiGrids.CellsAreDetermined` | crates/elura-aoi/src/lib.rs:203-210 | The cell table is determined by the positions, so no history of operations can leave it stale |
| `AoiGrids.DiscInBox` | crates/elura-aoi/src/lib.rs:342-345 | Nothing in the disc is filed outside the box that is scanned |
| `AoiGrids.MoveFiles` | crates/elura-aoi/src/lib.rs:285-296 | Unfiling from the old cell and filing in the new one is filing at the new position |
| `AoiGrids.CentreHasCell` | crates/elura-aoi/src/lib.rs:310-321 | A relocation whose two queries pass cannot fail in the move that follows them |
| `AoiGrids.CellExactly` | crates/elura-aoi/src/lib.rs:396-411 | A position is filed under exactly the cell whose square it lies in, and refused exactly when it is not finite or no 32-bit cell has it |
| `AoiGrids.QueryExactly` | crates/elura-aoi/src/lib.rs:337-362 | A query is answered if and only if centre and radius are sound, both corners have cells, and the number of cells in the box is within the limit; which error otherwise |
| `OnlineDirectories.SlotsNeverExceed` | crates/elura-gateway/src/presence.rs:224-273 | Over every run, in any mix of modes and with renewals under any identity: occupied slots never exceed the realm's maximum |
| `OnlineDirectories.RealmNeverOverfull` | crates/elura-gateway/src/presence.rs:224-273 | If renewals keep their identity, neither do the signed-in sessions that were not told to disconnect |
| `OnlineDirectories.NeverTwiceUnkicked` | crates/elura-gateway/src/presence.rs:244-273 | Over every run of a realm that rejects duplicates or kicks, in any mix of the two, a user has at most one session that was not kicked |
| `OnlineDirectories.RenewalDuplicatesExactly` | crates/elura-gateway/src/presence.rs:275-286 | Exact condition: a renewal leaves the user it names with two sessions if and only if that user is not the one this session signed in as and is signed in elsewhere |
| `OnlineDirectories.NeverTwice` | crates/elura-gateway/src/presence.rs:240-242 | Over every run of a realm that rejects duplicates no user has two sessions; session ids may be reused and unregistrations may carry any identity |
| `OnlineDirectories.ForeignRenewalDuplicates` | crates/elura-gateway/src/presence.rs:275-286 | A renewal under another user's identity gives that user two sessions even where duplicates are rejected |
| `OnlineDirectories.AdmitKeepsSlots` | crates/elura-gateway/src/presence.rs:244-268 | Admission never oversubscribes, a kicked session's slot being handed on |
| `OnlineDirectories.AdmitKeepsSeats` | crates/elura-gateway/src/presence.rs:255-268 | Whoever is signed in and not kicked keeps a slot |
| `OnlineDirectories.MemoryOnlineDirectory.Acquire` | crates/elura-gateway/src/presence.rs:224-273 | The in-place admission validates the identity and the policy, purges, decides Decide and leaves AfterAcquire; invalid ones change nothing |
| `OnlineDirectories.MemoryOnlineDirectory.Renew` | crates/elura-gateway/src/presence.rs:275-286 | Renews exactly a live session of the same gateway, after purging |
| `OnlineDirectories.MemoryOnlineDirectory.Unregister` | crates/elura-gateway/src/presence.rs:288-310 | When its gateway holds the session, removes the session, its slot in the realm the lease names and its sign-in under that user; otherwise changes nothing |
| `OnlineDirectories.MemoryOnlineDirectory.PurgeExpired` | crates/elura-gateway/src/presence.rs:206-219 | The retain loops drop exactly the expired leases and what refers to them |
| `OnlineDirectories.MemoryOnlineDirectory.Find` | crates/elura-gateway/src/presence.rs:312-316 | Returns exactly a stored lease that has not expired |
| `OnlineOutcomes.PurgeExactly` | crates/elura-gateway/src/presence.rs:206-219 | Expiry forgets exactly what is no longer live: sessions, sign-ins and slots |
| `OnlineOutcomes.DecisionExactly` | crates/elura-gateway/src/presence.rs:230-255 | Admission is a duplicate exactly when new logins are rejected and another live session is signed in as the user, and full exactly when the slots that would remain taken reach the maximum |
| `OnlineOutcomes.AdmissionExactly` | crates/elura-gateway/src/presence.rs:256-273 | An accepted session is stored, holds a slot and, unless logins are shared, signs its user in; everything live of others stays, the displaced session's slot apart |
| `OnlineOutcomes.RefusalExactly` | crates/elura-gateway/src/presence.rs:224-255 | A refused admission changes nothing that is live |
| `OnlineOutcomes.RenewalExactly` | crates/elura-gateway/src/presence.rs:275-286 | A renewal replaces the lease exactly when its session is live at the same gateway, and touches neither sign-ins nor slots |
| `OnlineOutcomes.UnregisterExactly` | crates/elura-gateway/src/presence.rs:288-310 | Unregistering from the gateway that holds the session removes the session, its slot in the lease's realm and its user's sign-in, and nothing else; from another gateway, or when the session is gone, it changes nothing |
| `OnlineOutcomes.UnregisteredIsGone` | crates/elura-gateway/src/presence.rs:288-310 | Whoever the lease names, the session then holds no slot and no sign-in anywhere once the directory is next looked at |
| `OnlineOutcomes.ComeAndGone` | crates/elura-gateway/src/presence.rs:224-310 | Acquiring and unregistering a session that was not there, of a user not signed in, with one lease leaves every live session, sign-in and slot as before, then and later |
| `OnlineOutcomes.NextIsAdmittedAsBefore` | crates/elura-gateway/src/presence.rs:224-310 | Whoever comes next, under any policy and at any later time, is then admitted exactly when they would have been before |
| `Predictions.HistoryIsReplay` | crates/elura-netcode/src/prediction.rs:90-188 | On every run of predictions with any recorded states, corrections and resets, refused ones included: the history is exactly the recorded inputs after the confirmed tick; the frames the last correction replayed follow the rules from the newest authoritative state, and the frames since are as recorded |
| `Predictions.FollowsExactly` | crates/elura-netcode/src/prediction.rs:136-175 | The whole history is a replay from the authoritative state exactly when the application records what its rules give |
| `Predictions.LaterReconciliationWins` | crates/elura-netcode/src/prediction.rs:140-188 | Reconciling at t1 and then at t2 gives the same frames, corrected state and refusal as reconciling at t2 alone |
| `Predictions.RightPredictionStands` | crates/elura-netcode/src/prediction.rs:140-188 | If the authoritative state equals the prediction stored at its tick, the later frames and the present state do not change |
| `Predictions.ConfirmedExactly` | crates/elura-netcode/src/prediction.rs:155-159 | The frames a tick confirms are exactly those at or before it |
| `Predictions.PredictionBuffer.ReconcileWith` | crates/elura-netcode/src/prediction.rs:140-188 | The in-place search, drain and replay compute Reconcile with its report; an error changes nothing |
| `Predictions.PredictionBuffer.Replay` | crates/elura-netcode/src/prediction.rs:172-175 | The in-place loop rewrites every state and ends with the corrected one |
| `Predictions.PredictionBuffer.Record` | crates/elura-netcode/src/prediction.rs:90-109 | Recording computes RecordFrame or changes nothing |
| `Predictions.RecordExactly` | crates/elura-netcode/src/prediction.rs:90-109 | On every reachable client an input is recorded if and only if its tick is after everything recorded and confirmed and the history has room |
| `Predictions.ReconcileExactly` | crates/elura-netcode/src/prediction.rs:140-188 | On every reachable client a correction is taken if and only if its tick is not before the confirmed one and no more inputs than the limit are left; its report gives that number, the newest tick, and the prediction made for its tick if there was one |
| `SimulatedLinks.BandwidthHolds` | crates/elura-net-sim/src/lib.rs:284-293 | On every run, within any span of time, the transmissions inside it carry no more than the bandwidth allows, rounding included, until the clock saturates |
| `SimulatedLinks.TraceTracksLink` | crates/elura-net-sim/src/lib.rs:220-330 | The link inside a recorded run changes exactly as Send and Receive change it, so the run theorems are about them |
| `SimulatedLinks.DeliveriesInOrder` | crates/elura-net-sim/src/lib.rs:220-241 | Over every run and all random draws: queued copies are exactly delivered plus waiting ones, and deliveries of the whole run are in deadline order, ties in sending order |
| `SimulatedLinks.TransmissionsDisjoint` | crates/elura-net-sim/src/lib.rs:284-293 | On every run no two transmissions overlap and each takes its serialization time |
| `SimulatedLinks.SerializationIsSlowEnough` | crates/elura-net-sim/src/lib.rs:333-341 | Rounding up never lets a transmission finish early |
| `SimulatedLinks.DelayBounds` | crates/elura-net-sim/src/lib.rs:295-307 | A copy arrives within latency plus or minus jitter, plus the reordering delay, of the end of its transmission |
| `SimulatedLinks.EnqueueSorts` | crates/elura-net-sim/src/lib.rs:183-190 | The queue stays in (deadline, order) order and gains exactly the copy pushed |
| `SimulatedLinks.SimulatedLink.Send` | crates/elura-net-sim/src/lib.rs:269-330 | Sending computes AfterSend and reports the drop reason, or the copies and their earliest deadline; a time moving backwards changes nothing |
| `SimulatedLinks.SimulatedLink.Receive` | crates/elura-net-sim/src/lib.rs:220-241 | Releases exactly the copies due, in queue order |
| `SimulatedLinks.SerializationExactly` | crates/elura-net-sim/src/lib.rs:333-341 | A transmission takes the least whole number of nanoseconds that the bandwidth allows, and none without a limit or without bytes |
| `SimulatedLinks.DeadlineExactly` | crates/elura-net-sim/src/lib.rs:284-307 | Away from saturation the deadline is the end of the transmission plus latency, minus or plus the drawn jitter, plus the drawn reordering delay, a second copy one nanosecond later |
| `SimulatedLinks.SendExactly` | crates/elura-net-sim/src/lib.rs:269-330 | A send transmits nothing exactly when it is lost or its copies do not fit; otherwise each copy goes on the wire as soon as the wire is free |
| `Interpolations.BufferHoldsNewest` | crates/elura-netcode/src/interpolation.rs:160-232 | On every run, whatever the order of arrival: the buffer holds, in strict tick order, the capacity-many largest ticks inserted, each with its latest state, and the adaptive delay keeps within its bounds |
| `Interpolations.InterpolationBuffer.Pick` | crates/elura-netcode/src/interpolation.rs:235-296 | The sample is the end state outside the buffer, and inside it the neighbouring states around the render tick with a factor in 0..1 that lands on it; indexing never fails |
| `Interpolations.ObservedInRange` | crates/elura-netcode/src/interpolation.rs:195-222 | One observation keeps jitter, pressure and delay in range and moves the delay by no more than the configured step |
| `Interpolations.Neighbours` | crates/elura-netcode/src/interpolation.rs:269-281 | Strictly inside the buffer both searches land on existing neighbours around the render tick |
| `Interpolations.InsertHoldsNewest` | crates/elura-netcode/src/interpolation.rs:224-230 | Inserting or replacing one state and dropping the oldest keeps the newest-ticks invariant, for late, repeated and already evicted ticks alike |
| `Interpolations.InterpolationBuffer.Insert` | crates/elura-netcode/src/interpolation.rs:160-232 | The in-place insertion computes InsertState; it replaces exactly a buffered tick and is the newest exactly when all others are older; refused exactly for tick zero or an earlier arrival, changing nothing |
| `Interpolations.BinarySearch` | crates/elura-netcode/src/interpolation.rs:180-182 | The binary search ends at the first state at or after the tick |
| `Interpolations.DispositionExactly` | crates/elura-netcode/src/interpolation.rs:180-194 | A state replaces exactly a buffered one of its tick, is the newest exactly when all others are older, and is late otherwise |
| `Interpolations.NewestExactly` | crates/elura-netcode/src/interpolation.rs:180-194 | Over a whole run the newest states are exactly those whose tick exceeds every one inserted before |
| `Interpolations.InsertExactly` | crates/elura-netcode/src/interpolation.rs:160-178 | An insertion is refused exactly for tick zero or an arrival before the last one |
| `Interpolations.JitterExactly` | crates/elura-netcode/src/interpolation.rs:198-212 | Jitter is measured exactly between newest states, by smoothing the variation in |
| `Interpolations.VariationExactly` | crates/elura-netcode/src/interpolation.rs:202-205 | The variation is the distance between the time elapsed and the ticks elapsed, measured in ticks |
| `Interpolations.DelayApproaches` | crates/elura-netcode/src/interpolation.rs:214-222 | Each arrival brings the delay closer to its target by the largest adjustment, or onto it |
| `Interpolations.PressureFollows` | crates/elura-netcode/src/interpolation.rs:195-197 | A late state strictly raises the pressure and any other strictly lowers it, short of the ends |
| `Interpolations.TargetMonotone` | crates/elura-netcode/src/interpolation.rs:214-217 | More jitter or lateness never calls for a shorter delay; without either the target is the base delay |

## Left out

- Gateway and world servers, transports, TLS, HTTP, admin endpoints and supervision: asynchronous plumbing around the machines modelled here.
- Redis, SQL, Kubernetes and DNS adapters: their behaviour lives in services outside the repository.
- Tickets, tokens, HMAC, SHA-256, base64, JSON and Protobuf: library calls.
- Observers, publishers, statistics counters and publish timeouts: they do not affect the modelled state.
- Floating-point rounding and overflow: positions, delays and blend factors are exact reals.
- Session groups, user and group queries and statistics of the online directory: easy members over the same maps.
- The state of a room after a failed advance, which the source gives up on, and overflow of its 64-bit tick counter.
- `reset` of the replication sender and receiver: it only re-creates the initial state.
- Fairness and wake-up order of the asynchronous mutex; poisoning of the shard mutex.
- The xorshift generator and how probabilities become draws: any draws in range are allowed.
- Circuit breaker, roster, session index, lag compensation, fixed-step clock, token bucket, rendezvous hashing and replay framing: independent of the machines above and easier.
- InputRuns.ExactlyOnce: states safety only; delivery of every input is not promised, and InputLosses.DeliveryExactly says when it happens.
- OnlineDirectories.RealmNeverOverfull: kicked sessions that their gateway has not yet disconnected are not counted, because the source keeps their leases until then.
- SimulatedLinks.BandwidthHolds: stops at the largest representable duration, where the source's saturating clock no longer measures time.
