# Tasvir, verified

Dafny models of the parts of Tasvir and its applications that are hardest to get right, with machine-checked proofs.
`dafny verify dfyconfig.toml` checks everything.

**The sync engine.** Writers set one dirty bit per 64-byte line. Behind a timed barrier, the threads of a node share
the walk over an area's log, copy the dirty lines from RW to RO, and one of them publishes the next version. The daemon
keeps four generations of dirty bits with version intervals, ORs together as many as the slowest subscriber needs, cuts
the lines into packets, and subscribers reassemble them. The point of it all: a reader sees one complete published
version, never a mixture, and never an older one after a newer one.

| file | what it holds |
|---|---|
| `LogBits.dfy` | log units, `tasvir_log` |
| `RunLength.dfy`, `SyncWalk.dfy`, `SyncArea.dfy` | the log walk, the sync list and its bound, copying and sending |
| `Framing.dfy` | packets, byte counts, replaying a stream |
| `DiffLogs.dfy` | the four log generations, rotation, the choice of the pivot, external and internal sync of one area |
| `Receiver.dfy`, `Replica.dfy`, `Cluster.dfy` | reassembly at a subscriber; owner and subscribers as one state machine |
| `Owner.dfy` | the owner's code performs the steps of that machine |
| `Lossy.dfy`, `Gaps.dfy`, `LossRuns.dfy` | what lost packets do, when they are harmless, and what is published otherwise |
| `LineLogs.dfy`, `LossExamples.dfy` | two runs that end with a mixture of versions published |
| `Barrier.dfy`, `InternalSync.dfy` | the barrier and the shared internal sync as machines over every interleaving |
| `AreaLayout.dfy` | where areas, their logs and the areas under them lie |

**Applications.** `CuckooTable.dfy`, `CuckooPath.dfy` and `CuckooMap.dfy`: a cuckoo hash map of fixed capacity whose
recursive `MakeSpace` can come back to buckets it is still working on. `UnionFind.dfy`, `Components.dfy`, `LoadHeap.dfy`,
`Partitions.dfy`, `CoordinateMap.dfy`, `BatchRun.dfy`, `Training.dfy`: the Cyclades partitioner, and why a batch that many
workers run at once equals a serial run. `DictScan.dfy`: the reverse binary scan of a hash table. `Stripes.dfy`,
`Xxh32.dfy`, `Xxh64.dfy`: streaming against one-shot xxHash. `Dijkstra.dfy`, `AllPairs.dfy`: the two routers. `Basics.dfy`
holds what several of them share. `Words.dfy` and `WordInverse.dfy`: the integers that machine words stand for, and which
operations on words can be undone. `Xxh32Steps.dfy`, `Xxh64Steps.dfy`: the steps of the hashes in integers.
`Xxh32Differs.dfy`, `Xxh64Differs.dfy`: which inputs never have the same hash. `XxhValues.dfy`: published values.

**How it is modelled.** Code that updates memory in loops is a method with loops and invariants, proved against a
function on values; what the system promises is then proved about those functions. The concurrent and the distributed
parts are state machines whose steps are the atomic accesses of the code, and the claims hold for every run.
512-bit vectors are eight units of 64 bits, most significant bit first; data are sequences of 64-byte lines, numbered
from the start of the area.

**Assumptions**, each of them a guard or hypothesis in the model:

- every application write is logged (`Cluster.Write`, `DiffLogs.Logged`);
- packets arrive in order, and the ring of pending messages has room (`Replica.Deliver`); the runs of `Cluster` lose
  none, those of `LossRuns` any;
- a report about a subscriber's version names a version it holds, possibly an old one (`Cluster.SubscriberStep`);
- no new barrier round starts while a thread sits between its sequence check and its decrement, and sequence numbers of
  rounds with threads still waiting are far enough apart to be told apart in 32 bits (`Barrier.NewRound`);
- a new key is inserted into a cuckoo map only while an entry index is free or the map has an entry for every slot
  (`CuckooMap.CuckooMap.Spare`), `==` on keys is equality and the hash is a function;
- Cyclades updates read and write only the coordinates of their datapoint (`BatchRun.Local`), and batches are separated;
- route costs do not wrap in 32 bits; XXH64 input is shorter than 2^64 bytes (a longer one does no harm as long as its
  wrapped length passes `Xxh64.LengthTells`);
- areas are allocated under containers (`AreaLayout.ClearOfParent` shows exactly what happens otherwise).

**What does not hold**, with its exact condition:

- A gap in a stream, wherever the subscriber stands, is noticed, but the packet behind it is stored and the result
  published: it is the new version if and only if the lines missing are in RW already, and version u if and only if
  the lines that arrived are those of u and RW is like u elsewhere (`Gaps.GapPublishes`, `LossRuns.GuardInRun`; a run that
  ends with a mixture: `LossExamples.LossPublishesMixture`).
- A gap is not even noticed when packets of different streams of one version happen to have counts that run on; the
  condition is the same (`Gaps.SilentPublishes`, `Gaps.MixPublishes`; a run: `LossExamples.ResendHidesLoss`). If a version
  is only ever sent again as the same stream and the guard stays silent, loss is harmless (`LossRuns.LossHarmless`).
- An insertion into a cuckoo map without a free index fails, as it must, but not always cleanly: entries may have moved
  (`CuckooPath.MovedForNothing`). With a free index, or an entry for every slot, a failure changes nothing
  (`CuckooMap.CuckooMap.Insert`).
- Two inputs that differ in one place never have the same XXH32 (`Xxh32Differs.HashDiffers`). For XXH64 this holds behind the
  stripes (`Xxh64Differs.HashDiffers`); in a stripe it holds if and only if merging in the lane does not make up for the
  difference (`Xxh64Differs.HashExactly`), which can happen (`XxhValues.SameHash`).
- The bound on cuckoo paths may be raised from three to four (`CuckooPath.RoomSafe`), not to five
  (`CuckooPath.PathFiveUnsafe`).

**Where code and comments differ**, the model follows the code:

- log 2 is rotated after 21 seconds, not 15 (src/sync_external.c:64-71);
- the assertion on the length of the sync list (src/sync.c:175) asks for 128 slots; one vector can complete 256 runs, so
  only a list of 512 with its flush at 256 is safe (`SyncWalk.VectorBoundTight`);
- the Cyclades partitioner does not shuffle, and makes one batch per `cyclades_batch_size` datapoints and an empty one at
  the end (apps/cyclades/src/Partitioner/CycladesPartitioner.h:66-96);
- the cuckoo map is never expanded; an insertion that finds no path fails (apps/cuckoo-map/cuckoo_map.h:356-359).

## Model

| member | source | states |
|---|---|---|
| `LogBits.TasvirLog` | include/tasvir/tasvir.h:212-233 | exactly the bits of the lines that meet the byte range are added, and no other bit changes |
| `RunLength.MaximalRunsUnique` | src/sync.c:104-186 | "the maximal runs of set bits, in order" determines the list of runs |
| `RunLength.MaximalRunsCount` | src/sync.c:162-193 | maximal runs cover as many lines as there are set bits |
| `SyncWalk.SyncList.Put` | src/sync.c:156-159 | a slot is always written, the list grows only by a non-empty run |
| `SyncWalk.WalkUnit` | src/sync.c:143-172 | counting leading bits of a shifted unit walks its runs of equal bits and lists every run completed |
| `SyncWalk.WalkVector` | src/sync.c:133-173 | skipping stretches of zero units gives the same walk as going through every bit |
| `SyncWalk.WalkAllFollows` | src/sync.c:104-173 | at every point the walk accounts exactly for the bits seen: completed runs, pending run, clear bits since |
| `SyncWalk.VectorBound` | src/sync.c:135-177 | one vector completes at most 255 runs, 256 if a run was pending |
| `SyncWalk.VectorBoundTight` | src/sync.c:135-177 | both bounds are reached, by a vector of alternating bits |
| `SyncArea.Area.MsgMemGenerate` | src/sync.c:4-57 | a run goes out as packets of at most 21 lines with running byte counts, whatever the burst boundaries |
| `SyncArea.Area.ProcessChanges` | src/sync.c:60-84 | a flush copies or sends exactly the listed runs, empties the list and accounts for the bytes |
| `SyncArea.Area.LoadVector` | src/sync.c:109-131 | eight units are ORed from the logs below the pivot, moved into the next log and cleared in the log walked |
| `SyncArea.Area.ParseUnits` | src/sync.c:112-178 | the loop over vectors with its flushes equals the walk as a function; the list has room for the next vector every time |
| `SyncArea.Area.ParseLog` | src/sync.c:86-194 | across all flushes exactly the maximal runs of set bits are handed on or left on the list, the bits are moved on and cleared, the result is 64 times their number, at most 256 items stay listed |
| `SyncArea.ParseAccounted` | src/sync.c:112-178 | what was flushed plus what is listed is what was listed before plus the runs completed, over any number of vectors |
| `SyncArea.EmitAppend` | src/sync.c:60-84 | two flushes in a row are one flush of both lists |
| `Framing.CopyRunsAt` | src/sync.c:73-75 | copying a list of runs sets the covered lines to the source's and leaves the others |
| `Framing.FragmentsReplay` | src/sync.c:15-51 | replaying the packets of a run copies the run |
| `Framing.FragmentsFull` | src/sync.c:15-22 | a run goes out in as few packets as 21 lines each allow, all but the last one full |
| `Framing.ChainedAt` | src/sync.c:24-29 | each packet's prev_bytes is the sum of all packet lengths before it |
| `Framing.StreamChained` | src/sync.c:13-52 | the byte count runs on across fragments and items of a stream |
| `Framing.StreamLast` | src/sync.c:33 | exactly the final packet of a stream is marked last |
| `Framing.StreamReplay` | src/sync.c:60-84 | replaying a stream writes exactly the emitted runs |
| `Framing.StreamAppend` | src/sync.c:176-188 | a stream cut by a mid-walk flush is the same stream |
| `DiffLogs.DeltaSufficient` | src/sync_external.c:101-140 | if log `pivot` ends no later than version u, the logs below it hold every line that differs between u and now |
| `DiffLogs.SeenLine` | src/sync.c:113-118 | the walk sees at a line the OR of the logs below the pivot |
| `DiffLogs.PublishCovers` | src/sync_internal.c:194-203 | publishing keeps: every log holds the lines changed in its version interval, intervals are contiguous down to 0 |
| `DiffLogs.SendCovers` | src/sync.c:109-131 | so does an external walk, for every pivot, with the boundary moved only if something was sent |
| `DiffLogs.RotateCovers` | src/sync_external.c:72-98 | so does rotating log i into log i + 1: no bit is lost |
| `DiffLogs.MarkCovers` | src/sync_internal.c:202 | so does marking the header's second line |
| `DiffLogs.RotateData` | src/sync_external.c:78-89 | the vector loop ORs log i into log i + 1 and clears it, although it skips zero vectors |
| `DiffLogs.RotateLogs` | src/sync_external.c:63-99 | the conditional rotations, older log first, keep the cover |
| `DiffLogs.RotationTimes` | src/sync_external.c:71-96 | log 1 is rotated if it holds versions and more than 5 seconds have passed since its interval began, log 2 if it does and more than 21 have; the versions and times of all logs afterwards |
| `DiffLogs.RotationLines` | src/sync_external.c:71-96 | and which log holds each line afterwards |
| `DiffLogs.OldestVersion` | src/sync_external.c:113-116 | the least version reported by a listed subscriber, or the largest 64-bit number |
| `DiffLogs.ChoosePivot` | src/sync_external.c:111-122 | the first log that everybody is past and that ended before the last external sync |
| `DiffLogs.FindPivot` | src/sync_external.c:111-122 | the pivot is the first log, from the first candidate on, that ended before the last external sync and no later than every listed version; without one it is the number of logs |
| `DiffLogs.ChosenUnique` | src/sync_external.c:111-122 | that leaves no choice of the pivot |
| `DiffLogs.SyncExternalArea` | src/sync_external.c:101-140 | with the pivot of `DiffLogs.Chosen` the stream brings every listed subscriber from its reported version to the current one and is properly framed; nothing is sent if everybody is past log 0; logs and intervals are those after the walk and the rotations due, the result is the number of bytes sent, and the cover is kept |
| `DiffLogs.CopyChanges` | src/sync_internal.c:173-188 | chunk by chunk, with a final flush, RO becomes RW and the dirty log empty; zero bytes are updated if and only if nothing was dirty |
| `DiffLogs.SyncInternalArea` | src/sync_internal.c:149-214 | afterwards the copies agree and nothing is dirty; a version is published if and only if something was, log 0 has taken the dirty lines, and the logs cover it |
| `Receiver.Header.HandleMsgMem` | src/sync_external.c:5-59 | the flags, counters, data and log after a message are those of the function the runs are about |
| `Replica.PacketsUpdate` | src/sync_external.c:32-35 | applying a whole stream to any version it is good for gives the version it was sent at |
| `Replica.ReceiveOne` | src/sync_external.c:18-49 | a packet in order extends what has been received; the last one makes RW exactly the version sent |
| `Replica.DropResent` | src/sync_external.c:18-26 | a resent stream of the version held is dropped packet by packet |
| `Replica.DeliverKeeps` | src/sync_external.c:5-59 | any packet, whatever the flags, keeps: RO is a published version, RW a published version or a prefix of one stream on top of it |
| `Replica.DrainKeeps` | src/service.c:132-137 | draining the queue is receiving the queued packets before those still in the net |
| `Replica.SyncKeeps` | src/sync_internal.c:55-57 | an internal sync skips a pending area; otherwise RO becomes exactly the version held, which is no older |
| `Replica.ArrivedHolds` | src/sync_external.c:40-49 | when everything sent has arrived, nothing is pending and RW is the last version sent |
| `Replica.SendKeeps` | src/sync_external.c:132-136 | a stream whose base the subscriber has reported can be queued behind everything under way |
| `Replica.GrowKeeps` | src/sync_internal.c:200-201 | a new version at the owner does not disturb a subscriber |
| `Cluster.FlightSent` | src/sync_external.c:112-132 | a stream sent with an admissible pivot is good for every version from the start of the logs used to now |
| `Cluster.StepInv` | src/sync_external.c:5-140 | every step of owner or subscribers keeps the invariant of the whole system |
| `Cluster.StepForward` | src/sync_internal.c:55-57 | no step takes an RO version back, rewrites a published version, or publishes a pending stream |
| `Cluster.SnapshotConsistency` | src/sync_external.c:5-59 | in every run each subscriber's RO data are the owner's data at exactly the version in its RO header, and that version never goes back |
| `Cluster.TraceDelta` | src/sync_external.c:101-140 | in every reachable state the logs below an admissible pivot hold every line that differs from any subscriber's reported version |
| `Cluster.Convergence` | src/service.c:132-137 | once all packets have arrived, the next internal sync makes RO the last version sent |
| `Owner.ExternalSync` | src/sync_external.c:63-140 | unless it is not due, nothing has been published or the pivot found is 0, an external sync is a sending step with that pivot followed by the rotations due; the packets on the ring are those every subscriber was sent; user slots without a node are passed over |
| `Owner.InternalSync` | src/sync_internal.c:149-214 | an internal sync is a publication step if anything is dirty, and no step otherwise |
| `Owner.CooperativeSync` | src/sync_internal.c:149-214 | so is a finished sync by all threads together, whatever their interleaving |
| `Lossy.FiresAtGap` | src/sync_external.c:27-31 | in the middle of a stream the guard fires exactly at a packet that is not the next one |
| `Lossy.FiresAtStart` | src/sync_external.c:18-31 | at a newer version it fires exactly if packets before this one are missing |
| `Lossy.PatchRepaired` | src/sync_external.c:32-35 | a whole stream turns a patchwork left by streams given up into the version sent |
| `Lossy.DeliverLossy` | src/sync_external.c:18-49 | whatever was lost before, and if versions were sent again as the same stream, a packet that does not set off the guard keeps the invariant |
| `Lossy.LoseKeeps` | src/sync_external.c:5-6 | losing any packet keeps it |
| `Lossy.SyncLossy` | src/sync_internal.c:55-57 | so does an internal sync, which publishes exactly the version held or nothing |
| `Gaps.ReplayGives` | src/sync_external.c:32-35 | packets of a version stored on any data give x exactly if x is like the version where packets arrived and like the data where none did |
| `Gaps.GapPublishes` | src/sync_external.c:18-41 | from any state of a subscriber: after packets in order, one whose count does not fit sets off the guard, the rest of the version is ignored, and the next internal sync publishes the new version exactly if the missing lines are in RW already; any other memory under the like condition |
| `Gaps.GuardPublishes` | src/sync_external.c:27-41 | the same in the middle of a stream, for the packet at which the guard fires |
| `Gaps.SilentPublishes` | src/sync_external.c:18-49 | packets of one version whose counts run on to a marked end are taken for a stream without the guard firing, whichever streams they come from; what is published, under that version's number, is the version under the same condition |
| `Gaps.RestIgnored` | src/sync_external.c:10-26 | once a stream is over, rightly or not, all further packets of the version leave data and flags alone, even if they are queued |
| `Gaps.StreamGap` | src/sync_external.c:27-41 | the gap, for streams as the owner sends them, the same stream or a second one of the version |
| `Gaps.MixPublishes` | src/sync_external.c:18-49 | the unnoticed gap, for two streams of one version whose counts agree |
| `LossRuns.StepInv` | src/sync_external.c:5-140 | every step of the system, loss included, keeps: packets carry lines of the version they name, lines of RO and RW are lines of versions, the owner's logs cover |
| `LossRuns.LinesPublished` | src/sync_external.c:32-35 | in every run with any loss each line a reader sees is that line of a published version |
| `LossRuns.GuardInRun` | src/sync_external.c:27-41 | in every run with any loss, when the guard fires, the next sync publishes version u exactly if the packet's lines are alike in u and its version and all other lines of RW are those of u |
| `LossRuns.LossHarmless` | src/sync_external.c:18-49 | in every run of the system in which a subscriber's guard stays silent and a version is sent again only as the same stream, its RO data are the owner's data at its version, which never goes back, whatever is lost |
| `LossExamples.Send` | src/sync_external.c:112-132 | what an external sync sends and leaves behind when logs are given as sets of single lines |
| `LossExamples.LossPublishesMixture` | src/sync_external.c:27-41 | a run from empty logs in which one packet of the first version is lost and neither version is published |
| `LossExamples.ResendHidesLoss` | src/sync_external.c:18-49 | a run from empty logs in which the guard never fires and no version is what is published as version 2 |
| `Barrier.LookTells` | src/sync_internal.c:264-277 | what a waiting thread reads tells it how its own round ended, even when newer rounds have begun |
| `Barrier.StepInv` | src/sync_internal.c:247-278 | every atomic step, timeouts and spurious failures included, keeps the invariant |
| `Barrier.NewRoundInv` | src/sync_internal.c:135-144 | so does starting a round while threads still wait for a failed one |
| `Barrier.Agreement` | src/sync_internal.c:247-278 | all verdicts for a round agree, and a true one means that every thread counted has arrived |
| `Barrier.LeavesOnce` | src/sync_internal.c:259-277 | the sequence number leaves the start of a round at most once, to +1 or +2 |
| `Barrier.AllArrivedPasses` | src/sync_internal.c:258-262 | a round that all threads have reached and nobody has decided has a last thread, whose step makes it pass |
| `InternalSync.JobBytesAligned` | src/sync_internal.c:131-133 | chunks are whole vectors: four, or an eighth of each thread's share less than one vector short if that is more |
| `InternalSync.AllSeen` | src/sync_internal.c:173-193 | when all vectors are reported seen, every vector is parsed, nothing is dirty, RO equals RW, log 0 holds its old lines and all that were dirty, and the byte count tells whether any was |
| `InternalSync.StepInv` | src/sync_internal.c:149-214 | every step of every thread keeps the account of claimed, parsed and reported vectors and of lines taken, logged and copied |
| `InternalSync.HeaderAtEnd` | src/sync_internal.c:190-212 | a thread about to update the header is the only one, and at that moment RO equals RW, nothing is dirty and log 0 has gained exactly the lines that were |
| `InternalSync.DoneMeansSynced` | src/sync_internal.c:190-212 | a finished job published one version if and only if something was dirty |
| `InternalSync.VectorsDisjoint` | src/sync_internal.c:173-178 | no two threads ever hold the same log vector, and none is parsed twice |
| `InternalSync.OnlyWritersClaim` | src/sync_internal.c:161-162 | in an area that its writer syncs alone, every vector claimed is claimed by a writer |
| `InternalSync.NeverStuck` | src/sync_internal.c:149-214 | before the header is updated some thread can always move |
| `AreaLayout.LayoutShaped` | src/area.c:201-206 | loggable bytes, room, and four logs of one byte per 512 loggable bytes, all aligned |
| `AreaLayout.LayoutRoom` | src/area.c:201-206 | behind the metadata there is room for the bytes asked for and no more than alignment adds; name, kind and number of descriptors are those asked for |
| `AreaLayout.LayoutUnique` | src/area.c:201-206 | shape and room leave one layout |
| `AreaLayout.NewWhen` | src/area.c:139-167 | an allocation succeeds exactly if a descriptor is free, the name is new and the area, placed at the next boundary, ends below the parent's logs; it adds the area with the layout asked for and nothing else |
| `AreaLayout.ContainerHolds` | src/area.c:139-206 | a container holds exactly the requests with different names for which it has descriptors and whose lengths together stay below its room, one behind the other without gaps |
| `AreaLayout.NewAtIs` | src/area.c:139-167 | an allocation somewhere in the tree succeeds exactly if there is a container and the allocation under it does |
| `AreaLayout.NewAtElsewhere` | src/area.c:139-167 | and leaves all areas off the path as they are |
| `AreaLayout.LogsContiguous` | src/area.c:249-256 | the four logs follow one another behind the loggable bytes, inside the area |
| `AreaLayout.NewKeeps` | src/area.c:139-167 | an allocation under a container keeps areas aligned, disjoint, below the parent's logs and differently named |
| `AreaLayout.ClearOfParent` | src/area.c:139-167 | a new area is clear of its parent's loggable bytes if and only if the parent is a container |
| `AreaLayout.PlainParentOverlaps` | src/area.c:139-167 | under a plain parent with a free descriptor and enough data the allocation succeeds inside that data, whatever the sizes of headers and descriptors |
| `AreaLayout.SiblingsApart` | src/area.c:139-167 | after any run of allocations siblings are aligned, disjoint and below their parent's logs |
| `AreaLayout.LoggableApart` | src/area.c:201-206 | loggable bytes of different areas never overlap, wherever they are in the tree |
| `AreaLayout.VectorsDiffer` | src/area.c:201-206 | after any run of allocations loggable bytes of different areas use different log vectors |
| `CuckooMap.EntryStack.Push` | apps/cuckoo-map/cuckoo_map.h:71-80 | pushes unless full, and says so |
| `CuckooMap.EntryStack.Pop` | apps/cuckoo-map/cuckoo_map.h:377-384 | takes the last index pushed, or nothing if empty |
| `CuckooMap.CuckooMap.Create` | apps/cuckoo-map/cuckoo_map.h:226-254 | refuses exactly the sizes the source refuses, otherwise an empty map |
| `CuckooMap.CuckooMap.constructor` | apps/cuckoo-map/cuckoo_map.h:333-347 | an empty map with every index free |
| `CuckooMap.FillFree` | apps/cuckoo-map/cuckoo_map.h:339-341 | all indices on the stack, each once, 0 on top |
| `CuckooMap.CuckooMap.FindEmptySlot` | apps/cuckoo-map/cuckoo_map.h:487-494 | the first empty slot, or -1 exactly if the bucket is full |
| `CuckooMap.CuckooMap.FindSlot` | apps/cuckoo-map/cuckoo_map.h:498-510 | the slot of the key, or -1 exactly if the key is not in this bucket |
| `CuckooMap.CuckooMap.FindWithHash` | apps/cuckoo-map/cuckoo_map.h:559-566 | the entry of the key, or none exactly if it is not stored |
| `CuckooMap.CuckooMap.Find` | apps/cuckoo-map/cuckoo_map.h:294-302 | the value the map has for the key |
| `CuckooMap.CuckooMap.Count` | apps/cuckoo-map/cuckoo_map.h:350 | the number of keys |
| `CuckooMap.CuckooMap.AltOf` | apps/cuckoo-map/cuckoo_map.h:523-537 | of the three outcomes of the test on a used slot only the first occurs: the other bucket is that of the secondary hash of what the slot holds |
| `CuckooMap.CuckooMap.MakeSpaceAt` | apps/cuckoo-map/cuckoo_map.h:515-555 | the recursion, for any bound on the path, does what a function of the table does |
| `CuckooMap.CuckooMap.MakeSpace` | apps/cuckoo-map/cuckoo_map.h:515-555 | with a path of at most four: -1 with the table untouched, or the slot returned is empty, every entry is still in one of its buckets and none is lost; which of the two, a path of moves decides |
| `CuckooPath.RoomSafe` | apps/cuckoo-map/cuckoo_map.h:515-555 | the same for that function, with what each level may do to buckets still open further up |
| `CuckooPath.RoomExactly` | apps/cuckoo-map/cuckoo_map.h:515-555 | a slot is freed exactly if there is a chain of used slots, no longer than the path allowed, each in the secondary bucket of the one before, that ends at a bucket with an empty slot |
| `CuckooPath.TargetIsHome` | apps/cuckoo-map/cuckoo_map.h:539-551 | whatever a slot holds after up to three levels below, the bucket it is moved to is one of its homes |
| `CuckooPath.MovedKept` | apps/cuckoo-map/cuckoo_map.h:543-551 | what a level may do to full buckets follows from what the level below may do |
| `CuckooPath.MovedForNothing` | apps/cuckoo-map/cuckoo_map.h:458-484 | without a free index a failing insertion can move an entry all the same |
| `CuckooPath.FiveDeepLoses` | apps/cuckoo-map/cuckoo_map.h:356-360 | when the recursion runs in a circle, five levels put an entry into a bucket that is neither of its homes |
| `CuckooPath.PathFiveUnsafe` | apps/cuckoo-map/cuckoo_map.h:356-360 | a valid table on which that happens |
| `CuckooTable.MoveKeeps` | apps/cuckoo-map/cuckoo_map.h:544-547 | moving a slot, even an emptied one, to an empty slot of a home bucket keeps the table valid |
| `CuckooTable.SpareSlot` | apps/cuckoo-map/cuckoo_map.h:395-399 | an empty slot means fewer live entries than slots, so an index is free |
| `CuckooMap.CuckooMap.AddToBucket` | apps/cuckoo-map/cuckoo_map.h:388-412 | adds the key, and fails exactly if the bucket is full or no index is free |
| `CuckooMap.CuckooMap.AddEntry` | apps/cuckoo-map/cuckoo_map.h:458-484 | fails exactly if both buckets are full and no path of at most three moves frees a slot in either, and then changes nothing; otherwise the key is added, to the primary bucket if that has room; the retry happens at most once |
| `CuckooMap.CuckooMap.Insert` | apps/cuckoo-map/cuckoo_map.h:271-290 | the map updated at the key; a new key is refused exactly under that condition, with nothing changed |
| `CuckooMap.CuckooMap.RemoveFromBucket` | apps/cuckoo-map/cuckoo_map.h:416-436 | removes the key if it is in this bucket, and frees its index |
| `CuckooMap.CuckooMap.Remove` | apps/cuckoo-map/cuckoo_map.h:321-331 | the map without the key; true exactly if it was there |
| `CuckooMap.Perform` | apps/cuckoo-map/cuckoo_map.h:271-331 | over any sequence of operations, of any length if there is an entry for every slot, otherwise with no more insertions than indices, the replies are those of a finite map that refuses a new key exactly if the table of the moment does not admit it; the tables follow one another as the operations say |
| `CuckooMap.RefusedIsCrowded` | apps/cuckoo-map/cuckoo_map.h:458-484 | the buckets of a key that is refused are full of keys that have their home there |
| `UnionFind.Find` | apps/cyclades/src/Partitioner/CycladesPartitioner.h:29-39 | the root, with an acyclic forest and every class unchanged |
| `UnionFind.CompressOne` | apps/cyclades/src/Partitioner/CycladesPartitioner.h:33-37 | pointing a node at its root changes no class |
| `UnionFind.Link` | apps/cyclades/src/Partitioner/CycladesPartitioner.h:53 | hanging a root below a root merges exactly their two classes and keeps the forest acyclic |
| `Components.JoinAll` | apps/cyclades/src/Partitioner/CycladesPartitioner.h:50-54 | roots agree along every edge, and no labelling that does separates a node from its root |
| `Components.ClassesConnected` | apps/cyclades/src/Partitioner/CycladesPartitioner.h:41-59 | two datapoints have the same root if and only if a chain of shared coordinates links them |
| `Components.ComputeCC` | apps/cyclades/src/Partitioner/CycladesPartitioner.h:41-59 | each list is exactly a connected component, in order, and every datapoint is in one |
| `Partitions.DatapointPartitions.StartNewBatch` | apps/cyclades/src/DatapointPartitions/DatapointPartitions.h:58-63 | every list marked at its end, all loads zero |
| `Partitions.BegunSlices` | apps/cyclades/src/DatapointPartitions/DatapointPartitions.h:58-63 | batches so far stay as they are and the new one is empty |
| `LoadHeap.FrontIsLightest` | apps/cyclades/src/DatapointPartitions/DatapointPartitions.h:67-71 | the front of the heap is a least loaded thread with its load |
| `LoadHeap.Reloaded` | apps/cyclades/src/DatapointPartitions/DatapointPartitions.h:73-85 | taking the front out and putting it back with a larger load leaves a heap of all threads with their loads |
| `Partitions.DatapointPartitions.AddToLeastLoaded` | apps/cyclades/src/DatapointPartitions/DatapointPartitions.h:67-86 | the thread at the front of the heap, a least loaded one, gets the whole component, and the heap is kept |
| `Partitions.GivenSlices` | apps/cyclades/src/DatapointPartitions/DatapointPartitions.h:65-86 | only the current batch of that thread changes |
| `Partitions.DatapointPartitions.NumDatapointsInBatch` | apps/cyclades/src/DatapointPartitions/DatapointPartitions.h:90-96 | the length of the thread's part of the batch, the last batch included |
| `Partitions.DatapointPartitions.GetDatapoint` | apps/cyclades/src/DatapointPartitions/DatapointPartitions.h:100-103 | the datapoint at that place of the thread's part of the batch |
| `Partitions.AssignBatch` | apps/cyclades/src/Partitioner/CycladesPartitioner.h:89-94 | in any order of components, each thread holds exactly its components, each datapoint once, and loads differ by at most one component |
| `Partitions.Partition` | apps/cyclades/src/Partitioner/CycladesPartitioner.h:68-97 | every datapoint lands in exactly one (thread, batch), no coordinate is touched by two threads in a batch, every batch is split into its connected components and shared out evenly up to one component, the last batch is empty |
| `CoordinateMap.BuildIntervals` | apps/cyclades/src/Model/Model.h:62-67 | the merged intervals hold exactly the elements of the coordinates, with gaps between them |
| `CoordinateMap.SetUpWithPartitions` | apps/cyclades/src/Model/Model.h:51-70 | for every worker and batch the map holds exactly the elements of the coordinates its datapoints use |
| `CoordinateMap.CopySelect` | include/tasvir/array.hpp:70-80 | exactly the elements of the intervals are copied, none if both arrays are the same |
| `BatchRun.StepInv` | apps/cyclades/src/Model/Model.h:90-95 | at any point of any interleaving a worker's array, which for one worker is the parent itself, holds what its own updates make of the parent as it was |
| `BatchRun.SerialAlone` | apps/cyclades/src/Trainer/CycladesTrainer.h:78-81 | a serial run does on a worker's elements what the worker would do alone |
| `BatchRun.SerialEquivalence` | apps/cyclades/src/Trainer/CycladesTrainer.h:72-88 | whatever the interleaving, the parent ends up as after a serial run in any order that keeps each worker's own |
| `Training.PartitionSeparate` | apps/cyclades/src/Model/Model.h:51-70 | a partition free of conflicts gives workers disjoint elements |
| `Training.Prepare` | apps/cyclades/src/Trainer/CycladesTrainer.h:44-56 | partitioner and coordinate maps together deliver what the next theorem asks for |
| `Training.BatchIsSerial` | apps/cyclades/src/Trainer/CycladesTrainer.h:72-88 | for every batch of the partition, with the elements of its coordinate maps, every finished interleaving equals a serial run |
| `DictScan.Rev` | apps/kvstore/dict.c:785-793 | the loop of halving group sizes reverses the bits |
| `DictScan.NextBlock` | apps/kvstore/dict.c:945-954 | read from bit 0 down, a call moves the cursor to the start of the next block of hashes, or back to zero |
| `DictScan.Scan` | apps/kvstore/dict.c:879-955 | the chain of the cursor's bucket is emitted and the next cursor returned; an empty dictionary ends the scan |
| `DictScan.ScanComplete` | apps/kvstore/dict.c:879-955 | every entry present throughout is emitted, however the table is resized between calls |
| `DictScan.EachBucketOnce` | apps/kvstore/dict.c:879-955 | with a fixed size every bucket is visited exactly once |
| `DictScan.ScanAll` | apps/kvstore/dict.c:795-803 | repeating the call until 0 comes back ends, and has emitted every entry |
| `Stripes.FoldSplit` | apps/cuckoo-lb/xxhash.c:403-444 | input in two pieces is consumed as if it came in one |
| `Words.AddVal` | apps/cuckoo-lb/xxhash.c:626-640 | a sum of words is the sum of the integers modulo 2^64 |
| `Words.MulVal` | apps/cuckoo-lb/xxhash.c:626-640 | a product likewise |
| `Words.RotlVal` | apps/cuckoo-lb/xxhash.c:626-640 | a rotation multiplies by a power of two and adds what is carried out |
| `Words.XorVal` | apps/cuckoo-lb/xxhash.c:634-640 | exclusive or adds digits without carry |
| `Xxh32.OneShot` | apps/cuckoo-lb/xxhash.c:271-325 | the one-shot loop computes the hash of the specification |
| `Xxh32.State.Update` | apps/cuckoo-lb/xxhash.c:388-447 | buffer, accumulators, wrapped length and sticky flag stand for all the input so far |
| `Xxh32.State.Digest` | apps/cuckoo-lb/xxhash.c:461-497 | the hash of everything passed to update, for any length |
| `Xxh32.Stream` | apps/cuckoo-lb/xxhash.c:373-497 | for every split of every input streaming equals one-shot |
| `Xxh32Steps.RoundReads` | apps/cuckoo-lb/xxhash.c:263-269 | a round in integers modulo 2^32, with the primes written out |
| `Xxh32Steps.MergeReads` | apps/cuckoo-lb/xxhash.c:299 | the four accumulators are rotated and added |
| `Xxh32Steps.WordStepReads` | apps/cuckoo-lb/xxhash.c:306-310 | a word of the rest in integers |
| `Xxh32Steps.ByteStepReads` | apps/cuckoo-lb/xxhash.c:312-316 | a byte of the rest in integers |
| `Xxh32Steps.AvalancheReads` | apps/cuckoo-lb/xxhash.c:318-322 | the final mix in integers |
| `Xxh32Steps.ReadReads` | apps/cuckoo-lb/xxhash.c:228-239 | four bytes are read with the lowest first |
| `Xxh32Steps.SameRound` | apps/cuckoo-lb/xxhash.c:263-269 | rounds with the same result agree in the accumulator exactly if they agree in the input |
| `Xxh32Differs.HashDiffers` | apps/cuckoo-lb/xxhash.c:271-325 | inputs of one length that differ in one aligned word only, or in one byte behind the last, have different hashes, for every seed |
| `Xxh64.OneShot` | apps/cuckoo-lb/xxhash.c:642-708 | the one-shot loop computes the hash of the specification |
| `Xxh64.State.Update` | apps/cuckoo-lb/xxhash.c:768-824 | buffer, accumulators and wrapped length stand for all the input so far |
| `Xxh64.State.Digest` | apps/cuckoo-lb/xxhash.c:836-885 | the hash of everything passed to update, unless the wrapped length hides that a stripe was filled |
| `Xxh64.Stream` | apps/cuckoo-lb/xxhash.c:754-885 | for every split of every input whose wrapped length passes `LengthTells`, all those of fewer than 2^64 bytes among them, streaming equals one-shot |
| `Xxh64Steps.RoundReads` | apps/cuckoo-lb/xxhash.c:626-632 | a round in integers modulo 2^64, with the primes written out |
| `Xxh64Steps.MergeRoundReads` | apps/cuckoo-lb/xxhash.c:634-640 | merging in an accumulator in integers |
| `Xxh64Steps.WordStepReads` | apps/cuckoo-lb/xxhash.c:682-687 | a word of the rest in integers |
| `Xxh64Steps.HalfStepReads` | apps/cuckoo-lb/xxhash.c:689-693 | half a word of the rest in integers |
| `Xxh64Steps.ByteStepReads` | apps/cuckoo-lb/xxhash.c:695-699 | a byte of the rest in integers |
| `Xxh64Steps.AvalancheReads` | apps/cuckoo-lb/xxhash.c:701-705 | the final mix in integers |
| `Xxh64Steps.ReadReads` | apps/cuckoo-lb/xxhash.c:660-667 | eight bytes are read with the lowest first |
| `Xxh64Differs.HashDiffers` | apps/cuckoo-lb/xxhash.c:682-706 | inputs of one length that differ in one word, half word or byte behind the stripes only have different hashes, for every seed |
| `Xxh64Differs.FoldDiffers` | apps/cuckoo-lb/xxhash.c:663-668 | inputs that differ in one lane of one stripe only end with accumulators that differ in that lane alone |
| `Xxh64Differs.HashExactly` | apps/cuckoo-lb/xxhash.c:663-706 | and have the same hash exactly if merging in that lane makes up for it |
| `XxhValues.Empty` | apps/cuckoo-lb/xxhash.c:271-325 | the published values for the empty input |
| `XxhValues.Nobody` | apps/cuckoo-lb/xxhash.c:271-325 | a published XXH32 of two stripes, a word and three bytes |
| `XxhValues.Sanity` | apps/cuckoo-lb/xxhash.c:642-708 | a published XXH64 of a word, half a word and two bytes |
| `XxhValues.Spammish` | apps/cuckoo-lb/xxhash.c:642-708 | a published XXH64 of a stripe, half a word and three bytes |
| `XxhValues.SameHash` | apps/cuckoo-lb/xxhash.c:663-674 | two inputs of one stripe that differ in the first lane only and have the same XXH64 |
| `Dijkstra.FromSource` | apps/routing_dijkstra/main.cpp:161-189 | the loop ends, and the row has the least walk costs, infinity where there is none, and first hops of such walks |
| `Dijkstra.Improve` | apps/routing_dijkstra/main.cpp:176-187 | entering an improvement and pushing its links keeps every link relaxed or queued |
| `Dijkstra.Least` | apps/routing_dijkstra/main.cpp:170-188 | with an empty queue no walk is cheaper than the row |
| `Dijkstra.AllSources` | apps/routing_dijkstra/main.cpp:134-189 | the same for every source |
| `AllPairs.RoundInPlace` | apps/routing_dynamic/main.cpp:140-147 | the two inner loops in place give the round computed from the matrix before it |
| `AllPairs.RoundRight` | apps/routing_dynamic/main.cpp:139-148 | a round extends the walks covered by one more switch on the way, revisits included |
| `AllPairs.ShortestPaths` | apps/routing_dynamic/main.cpp:126-148 | no walk is cheaper than its cell, and every cell is attained by a walk whose first link has its `to` |
| `AllPairs.EveryWalk` | apps/routing_dynamic/main.cpp:139-148 | at the end every walk at all is covered |

## Left out

- The unlogged root descriptor entry (src/sync.c:92-98) and the paths that write both copies while a node boots.
- The joining node under `node_init_req`: `DiffLogs.ChoosePivot` takes the flag into account, but no delta claim is made for a node that is not a listed user.
- The header's own bookkeeping in two copies: versions, times and flags are kept once; a stream's last packet brings its version, since the header's second line is always among the lines sent. Line 0 of the header is local and not sent.
- SLEEPING areas and the due times of syncs: one boolean each. Messages for areas that are not mapped are not modelled.
- RPC, ownership changes, thread killing, attaching users, DPDK ports and mempools; rings are sequences.
- DiffLogs.RotateData: the four logs are four arrays; that the loop bound, the start of the next log, is the end of this one is `AreaLayout.LogsContiguous`.
- DiffLogs.SyncInternalArea: one thread has the area to itself; several threads are the subject of `InternalSync`.
- Gaps.GapPublishes: speaks of data; the version number travels in a line of the header, which the model keeps apart, so nothing is said about the number in RO after a gap in the middle of a stream. Repair after the guard has fired is not claimed: the subscriber may by then report the newer version.
- InternalSync.StepInv: taking a vector and copying a line are single steps; runs, list and flushes inside them are the subject of `SyncArea.Area.ParseLog`. Prefetching and statistics have no model.
- Barrier.Agreement: the clock is left open, a timeout may strike at any time.
- Overflow of 64-bit byte counters and versions.
- AreaLayout.NewKeeps: descriptors and headers are values in a tree, not memory written in place; the request to a remote owner of the parent is not modelled.
- The cuckoo map's byte layout, iterators, `Clear` after use and the locked variants.
- CuckooMap.CuckooMap.Insert: a new key when every index is taken and slots are left over, which only a map with fewer than four entries per bucket can come to; `CuckooPath.MovedForNothing` shows what goes wrong. How often the retry is taken then is not modelled.
- CuckooTable.MoveKeeps: the bucket of a hash is the remainder by the number of buckets, which for a power of two is the mask of the source.
- Partitions.Partition: the number of batches is an exact ceiling, not one computed in floating point; the library's heap is a textbook binary heap.
- BatchRun.SerialEquivalence: updaters are arbitrary local functions on values, not the floating-point code; `Array::Barrier` and `ReduceAdd` are not modelled.
- DictScan.Scan: the two-table branch during rehashing; a rehash never starts, because the table cannot be expanded.
- Xxh32.OneShot: null input, alignment and byte order of the machine; reads are little-endian.
- Dijkstra.FromSource: does not model 32-bit wrap-around of costs, because the algorithm is wrong once a sum wraps.
- AllPairs.ShortestPaths: does not model 32-bit wrap-around of costs, for the same reason.
- `generate_lut`, histogram and benchmark code, statistics, scripts.
