# MirageSSD: verified model of the cache, journal and namespace core

MirageSSD keeps a crash-safe local cache and journal in front of immutable cloud objects.
This project models the parts of it that have to stay correct across crashes, threads and
arbitrary servers, in Dafny, and proves what they promise. Each source component is one or
two modules:

| module | component |
|---|---|
| `CacheTable` | the slot rows of the database and the transactions on them |
| `SlotProtocol` | insert, evict, crash and reconcile as steps over row, sidecar and payload |
| `CacheStore`, `CacheBatch` | the same operations as methods over the table and the arena |
| `ReadGate` | the lease word of a resident page, readers and evictors interleaved |
| `LeaseGate` | the page's gate as an object, and the retry loop of `acquire` inside that interleaving |
| `PayloadLedger` | extents, physical extents, operations and publications of the journal |
| `JournalSequence` | device sequence numbers |
| `Namespace`, `NamespaceHistory` | the directory tree, its deltas and checkpoints |
| `TwoQ`, `PolicyCore` | the 2Q policy as queues, and its mutable form |
| `Segments`, `RecencyLinks` | segmented recency as sequences, and its linked lists |
| `ReadPool` | the bounded connection pool and its condition variable |
| `ArenaIo`, `ArenaCodec`, `ArenaRefinement` | positioned slot I/O, the on-disk records, and the file behind the protocol's cells |
| `Upload` | the streaming resumable upload |
| `SpaceLease` | the space-lease planner |
| `ReservationLedger` | the cache budget |
| `Basics`, `Sequences` | shared types, and lemmas on duplicate-free sequences |

Code that updates state in place is a class or a method with loops, proved equal to a
specification function; the laws are lemmas about those functions, over every input, every
run or every reachable state. A protocol with several actors is a state machine whose steps
are the atomic actions, and the classes log the steps they take.

`dafny verify dfyconfig.toml` checks the project.

## Assumptions

- A database transaction is one atomic step and is durable when it returns.
- Reconciliation runs with no live inserter; one process holds the index; a page is
  installed once per freshly committed record.
- A batch reservation that returns a row somebody else had reserved has one owner: the
  protocol machine starts each insertion from a slot it claimed.
- Hashes, checksums, name folding and inode identities are arbitrary functions. No lemma
  needs a hash without collisions: a page is right when its bytes have the recorded digest.
- An extent of a mutation names the mutation's own payload or one already named, and
  evictions come from the evictable list (`PayloadLedger.Allowed`).
- The 2Q clock has not reached its 64-bit maximum.

## Where the code does not do what it says

- `allocate_device_seq` promises that duplicates never happen. When the counter row is
  missing the statement that inserts it returns one less than the one that updates it, so a
  volume with journaled operations and no counter row is handed a number in use. Every
  sequenced commit and journaled namespace change on it then fails until a number is
  allocated in a transaction of its own, which leaves the row behind; from then on the
  numbers are good. `JournalSequence.FreshExactlyWhen`, `JournalSequence.StuckUntilAllocated`,
  `JournalSequence.AcceptedExactlyOnceAllocated`.
- Creating in, or renaming into, a directory that is unlinked but still open succeeds and
  leaves a live inode that no path reaches. `NamespaceHistory.ReachKeptExactlyWhen`.
- A refused 2Q admission is not a no-op: with probation full of pinned ids it first evicts
  every unpinned protected id and reports none of them; a remembered id is forgotten.
  `TwoQ.RefusalLosesProtected` is a run that shows it, `TwoQ.RefusalIsHarmlessExactlyWhen`
  says when a refusal changes nothing.
- The update safety reserve is not kept from prefetching unless the prefetch ceiling is
  below it. `ReservationLedger.PrefetchKeepsRoomExactlyWhen`.
- A pin that arrives before its slot is inserted is forgotten (`Segments.EarlyPinIsForgotten`);
  a pin protects if and only if its slot is known by then. `Segments.PinProtectsExactlyWhen`.

## Model

| member | source | states |
|---|---|---|
| CacheTable.SlotTable.Reserve | crates/mirage-db/src/cache.rs:285-320 | the table and answer are those of the reservation rule: the resident holder, or the lowest free slot in its next life |
| CacheTable.SlotTable.ReserveBatch | crates/mirage-db/src/cache.rs:121-252 | one scan of the free slots does what reserving page by page would, all or nothing |
| CacheTable.CheckRequests | crates/mirage-db/src/cache.rs:121-182 | accepts exactly batches of distinct, answerable pages and returns the absent ones in order |
| CacheTable.PlaceMissing | crates/mirage-db/src/cache.rs:183-252 | filling free slots in order equals repeated single reservation, exhaustion and overflow included |
| CacheTable.ReserveEachTakesLowest | crates/mirage-db/src/cache.rs:183-246 | repeated reservation hands the requests, in order, exactly the lowest free slots |
| CacheTable.BatchAnswersEveryRequest | crates/mirage-db/src/cache.rs:121-252 | every page of an accepted batch is answered by a record of that page and length |
| CacheTable.SlotTable.CommitSlot | crates/mirage-db/src/cache.rs:321-349 | publishes, or turns the loser of a race into an eviction of its own slot |
| CacheTable.SlotTable.CommitBatch | crates/mirage-db/src/cache.rs:350-397 | publishes every record or none |
| CacheTable.PublishAllEffect | crates/mirage-db/src/cache.rs:350-397 | a committed batch makes exactly its slots resident and keeps residents unique |
| CacheTable.SlotTable.Release | crates/mirage-db/src/cache.rs:398-411 | a reservation of this very life becomes evicting; anything else is refused |
| CacheTable.SlotTable.BeginEviction | crates/mirage-db/src/cache.rs:412-425 | a resident of this very life becomes evicting; anything else is refused |
| CacheTable.SlotTable.FinishDeallocation | crates/mirage-db/src/cache.rs:426-443 | frees an evicting or retrying slot of this very life and clears its page |
| CacheTable.SlotTable.MarkRetry | crates/mirage-db/src/cache.rs:444-454 | parks an evicting slot of this very life for retry |
| CacheTable.CallFollowsEdges | crates/mirage-db/src/cache.rs:285-469 | each call moves every row along an edge of the life cycle or not at all, and never makes a page resident twice |
| CacheTable.SlotsNeverRewind | crates/mirage-db/src/cache.rs:285-469 | over any run of calls every slot only moves forward through lives and states, one page and length per life |
| CacheTable.StaleRecordIsInert | crates/mirage-db/src/cache.rs:398-478 | a record of an earlier life changes nothing, in any call, after any further run |
| CacheTable.StaleBatchIsRefused | crates/mirage-db/src/cache.rs:350-397 | one stale record refuses its whole batch |
| CacheTable.ReservationIsFresh | crates/mirage-db/src/cache.rs:285-320 | a slot is only handed out again under a larger generation |
| SlotProtocol.StepKeepsInv | crates/mirage-cache/src/insert.rs:36-133 | every durable or volatile step of insert, evict, drop, repair, damage and crash keeps row, sidecar, payload and task in agreement |
| SlotProtocol.RunKeepsInv | crates/mirage-cache/src/evict.rs:29-84 | ... hence so does every interleaving of them over all slots |
| SlotProtocol.ReconcileCleans | crates/mirage-cache/src/reconcile.rs:25-141 | after reconcile every slot is free in row and sidecar, or resident with a matching sidecar and a payload of the recorded digest; a second one finds nothing to do and changes no content |
| SlotProtocol.CrashThenReconcile | crates/mirage-cache/src/reconcile.rs:25-141 | that holds after a crash at any point of any run, repeated and half-done repairs included |
| SlotProtocol.OrderlyRun | crates/mirage-cache/src/insert.rs:64-90 | without ignored errors and damage, no crash can leave a resident sidecar that lies about its payload |
| SlotProtocol.CommittedPageSurvives | crates/mirage-cache/src/insert.rs:64-95 | then a page that was committed survives any crash and reconcile with its row and bytes |
| SlotProtocol.RolledBackTableIsSafe | crates/mirage-cache/src/recover.rs:5-20 | even with the table rolled back to any rows at all, a resident row whose sidecar matches has the right bytes, and reconcile cleans the rest |
| SlotProtocol.OwnerNeverConflicts | crates/mirage-db/src/cache.rs:321-443 | the transitions a live owner asks for are never refused |
| SlotProtocol.CleanIsInOrder | crates/mirage-cache/src/reconcile.rs:25-141 | a reconciled arena is a starting point for all of the above |
| CacheStore.Store.WritePage | crates/mirage-cache/src/insert.rs:64-70 | sidecar mark, payload and flushes in the order the protocol allows; succeeds exactly if no hook and no arena call fails, and otherwise stops with the reservation still held |
| CacheStore.Store.SealPage | crates/mirage-cache/src/insert.rs:71-90 | seals exactly if the bytes read back have the expected digest and neither the hook nor the arena fails |
| CacheStore.Store.PublishPage | crates/mirage-cache/src/insert.rs:91-131 | commits, or clears away the duplicate it lost to; an arena error there leaves the row evicting or parked for retry and is reported |
| CacheStore.Store.InsertPage | crates/mirage-cache/src/insert.rs:36-133 | whatever hook or arena call fails: success names a resident record of the page; an inserted one holds the bytes; residents stay; failure before the commit adds none; without arena errors no slot is left over |
| CacheStore.Store.InsertReservedPage | crates/mirage-cache/src/insert.rs:264-353 | a record that does not fit its payload changes nothing; otherwise the page is resident with its bytes, or an existing one is named, or the slot is given up; it succeeds when the digest is right and nothing fails |
| CacheStore.Store.DropReservation | crates/mirage-cache/src/reserve.rs:16-58 | a dropped reservation ignores sidecar errors and leaves a free slot, or a retrying one after a failed deallocation, through legal steps only |
| CacheStore.Store.EvictPage | crates/mirage-cache/src/evict.rs:29-84 | the row ends free with its sidecar and payload wiped exactly if no arena call fails; otherwise it is parked for retry or left evicting; nothing else changes |
| CacheStore.Store.RepairSlot | crates/mirage-cache/src/reconcile.rs:46-119 | a slot that needs repair ends free and wiped exactly if no arena call fails; other slots keep their contents either way |
| CacheStore.Store.Reconcile | crates/mirage-cache/src/reconcile.rs:25-141 | the report lists exactly the repairs needed and a dry run changes nothing; a real one leaves every slot clean exactly if no arena call fails, and an error leaves every healthy slot as it was |
| CacheBatch.CheckBatch | crates/mirage-cache/src/insert.rs:178-209 | accepts exactly 1 to 64 reserved pages of distinct slots and hashes that fit and stay within 32 MiB |
| CacheBatch.WriteBatch | crates/mirage-cache/src/insert.rs:219-230 | marks, payloads and single flushes advance every page of the batch through legal steps; succeeds exactly if no hook and no arena call fails |
| CacheBatch.SealBatch | crates/mirage-cache/src/insert.rs:231-254 | seals exactly if every page read back has its digest and neither the hook nor the arena fails |
| CacheBatch.CommitPages | crates/mirage-cache/src/insert.rs:255-259 | all rows of the batch become resident or the world is as before |
| CacheBatch.DropAll | crates/mirage-cache/src/reserve.rs:16-58 | every reservation of a failed batch ends given up, arena errors included; other slots are untouched |
| CacheBatch.InsertReservedPages | crates/mirage-cache/src/insert.rs:172-262 | all pages end resident with their bytes, or none does and every reservation was given up, or the arguments were refused and nothing was touched; it succeeds when nothing fails and the table accepts the batch |
| ArenaRefinement.WriteRefines | crates/mirage-cache/src/shard.rs:141-148 | a slot write on the file is the protocol's payload write on the cell |
| ArenaRefinement.WriteBatchBytes | crates/mirage-cache/src/insert.rs:138-170 | for an accepted batch the coalesced writer never fails and leaves in the file what page-by-page steps leave in the cells |
| ArenaRefinement.ZeroRefines | crates/mirage-cache/src/shard.rs:321-327 | deallocating a slot is writing it a zero page |
| ArenaRefinement.ReadCell | crates/mirage-cache/src/shard.rs:182-258 | plain and unbuffered slot reads return slices of the cell's payload |
| ReadGate.StartIsOk | crates/mirage-cache/src/index.rs:16-57 | a sound arena with no page installed is a starting point |
| ReadGate.MoveKeepsInv | crates/mirage-cache/src/resident.rs:33-84 | in every interleaving of lookup, load, compare-exchange, release and eviction steps the low word of an open gate is the number of live guards, and a closed gate has none |
| ReadGate.PlayKeepsInv | crates/mirage-cache/src/resident.rs:33-84 | ... over whole runs |
| ReadGate.GuardPinsItsPage | crates/mirage-cache/src/lease.rs:22-36 | while a guard lives its slot is resident at its generation and the bytes read through it have the requested digest |
| ReadGate.GuardedBytesAreStill | crates/mirage-cache/src/lease.rs:22-36 | no step of anyone else changes the row or bytes under a guard |
| ReadGate.EvictMove | crates/mirage-cache/src/evict.rs:36-52 | the evictor that closed the gate always finds the row to evict |
| ReadGate.CancelMove | crates/mirage-cache/src/evict.rs:43-50 | when the database fails instead, the evictor reopens the gate that it alone had closed, and all gates stay right |
| ReadGate.InstallMove | crates/mirage-cache/src/index.rs:58-80 | installing a committed page keeps the gates right |
| LeaseGate.ResidentPage.Acquire | crates/mirage-cache/src/resident.rs:33-54 | the load, compare-exchange and retry loop, with any word stored by others in between, computes `AcquireSpec` |
| LeaseGate.AcquireAnswers | crates/mirage-cache/src/resident.rs:33-54 | a call adds one to the word the others left exactly if that word is open and not full, and otherwise changes nothing and says which; every earlier attempt lost its exchange |
| LeaseGate.LoopIsAttempt | crates/mirage-cache/src/resident.rs:33-54 | the loop answers, and leaves the gate, as the reader in the interleaved machine does, for any number of rounds of other threads |
| LeaseGate.GrantedMeansReadable | crates/mirage-cache/src/resident.rs:33-54 | after any such rounds a granted call holds a resident page of the slot and generation it found, with bytes of its hash, and is counted in the gate |
| LeaseGate.ResidentPage.Release | crates/mirage-cache/src/resident.rs:55-59 | takes one lease off and leaves the state half alone; wraps at zero |
| LeaseGate.ResidentPage.BeginEviction | crates/mirage-cache/src/resident.rs:69-78 | succeeds exactly on an open gate without leases |
| LeaseGate.ReleaseIsMove | crates/mirage-cache/src/resident.rs:55-59 | dropping a guard is the machine's release: in any reachable state one guard less, no wrap, and the word counts the guards left |
| LeaseGate.BeginIsMove | crates/mirage-cache/src/resident.rs:69-78 | closing the gate is the machine's move: an evictor wins exactly if the gate is open and nobody holds a guard |
| LeaseGate.CancelIsMove | crates/mirage-cache/src/resident.rs:79-84 | cancelling is the machine's move after a database error: the gate grants leases again, on a page that is still resident |
| LeaseGate.CancelUndoesBegin | crates/mirage-cache/src/evict.rs:43-50 | a failed eviction restores the page exactly, whatever others did between closing and reopening |
| PayloadLedger.StepKeepsInv | crates/mirage-db/src/physical.rs:164-497 | every transaction keeps each referenced payload alive or published, pinned extents alive, heads above their rows and unflushed payloads out of committed operations |
| PayloadLedger.EmptyLedgerIsOk | crates/mirage-db/src/physical.rs:123-148 | an empty ledger is a starting point |
| PayloadLedger.NoReferencedByteIsLost | crates/mirage-db/src/operation.rs:722-909 | so does every run of commits, publications, evictions, revivals, reaps, slot reuse, compactions and releases |
| PayloadLedger.DeadFilterHidesNothing | crates/mirage-db/src/payload_remote.rs:233-288 | the publisher's list, dead extents filtered out, is exactly the referenced unpublished payloads |
| PayloadLedger.PublicationIsForever | crates/mirage-db/src/payload_remote.rs:146-210 | a publication record is never lost |
| PayloadLedger.PinnedStaysAlive | crates/mirage-db/src/physical.rs:431-449 | a pinned extent stays alive through every run that does not unpin it |
| PayloadLedger.CompactionPreservesMeaning | crates/mirage-db/src/extent.rs:429-516 | compaction leaves every inode's head version, end of file and head extents as they were and kills only alive, unpinned, unreferenced journal extents |
| PayloadLedger.CompactionIsIdempotent | crates/mirage-db/src/extent.rs:429-516 | a second compaction finds nothing to do |
| PayloadLedger.Journal.CompactVolume | crates/mirage-db/src/extent.rs:429-516 | the loops compute that compaction and list each freed extent once with its length |
| PayloadLedger.Journal.ReleaseInodeExtents | crates/mirage-db/src/extent.rs:527-624 | removes one inode's rows and head and kills only what they alone kept |
| PayloadLedger.Journal.ReplaceExtents | crates/mirage-db/src/extent.rs:115-210 | accepts exactly ordered, disjoint extents of the inode within its end of file, and installs them as the version |
| PayloadLedger.Journal.ReapExpired | crates/mirage-db/src/physical.rs:453-497 | expired reservations die and are counted, others stay |
| PayloadLedger.DropSuperseded | crates/mirage-db/src/extent.rs:436-462 | head by head, what remains is the rows no head supersedes |
| PayloadLedger.KillOrphans | crates/mirage-db/src/extent.rs:463-516 | one by one, exactly the candidates that are orphans die |
| JournalSequence.FreshExactlyWhen | crates/mirage-db/src/operation.rs:503-529 | an allocated number is unused if and only if the counter row existed or the journal was empty |
| JournalSequence.MigratedJournalCollides | crates/mirage-db/src/operation.rs:503-529 | a concrete journal for which it is not |
| JournalSequence.NeverHandedOutTwice | crates/mirage-db/src/operation.rs:488-529 | over every run of allocations, sequenced commits, namespace entries and other ledger transactions, the numbers a volume is handed and keeps strictly grow |
| JournalSequence.WithoutCounterNothingCommits | crates/mirage-db/src/operation.rs:650-687 | while the volume has operations but no counter row, a sequenced commit to it changes nothing |
| JournalSequence.StuckUntilAllocated | crates/mirage-db/src/operation.rs:488-529 | over every run such a volume stays so if and only if no number is allocated in a transaction of its own |
| JournalSequence.RefusedUntilAllocated | crates/mirage-db/src/operation.rs:531-557 | until then every journaling transaction of a run, sequenced commit or namespace entry, is refused whole |
| JournalSequence.AcceptedExactlyOnceAllocated | crates/mirage-db/src/operation.rs:488-529 | after a run the next number is accepted for any fresh operation if and only if the run made such an allocation |
| JournalSequence.SecondBeginWorks | crates/mirage-engine/src/journal.rs:68-113 | beginning an operation fails once on such a volume and succeeds the next time |
| JournalSequence.CountedNumber | crates/mirage-db/src/operation.rs:531-557 | a number a transaction keeps is above the counter before it and is the one its operation is journaled under |
| JournalSequence.WithCounterNumberIsAccepted | crates/mirage-db/src/operation.rs:650-687 | with a counter row the number is never the reason for a refusal |
| Namespace.WalkIsSound | crates/mirage-db/src/namespace.rs:542-581 | a walk that ends clear has seen the whole chain above the target and not the moved inode |
| Namespace.WalkIsComplete | crates/mirage-db/src/namespace.rs:542-581 | within the depth bound the walk decides; a chain through the moved inode is never cleared, however long |
| Namespace.WalkDecidesAncestry | crates/mirage-db/src/namespace.rs:542-581 | on every chain the walk ends clear if and only if the chain is within the bound and the moved inode is not on it, and reports a cycle if and only if it is met within the bound |
| Namespace.CreateKeepsForest | crates/mirage-db/src/namespace.rs:383-457 | a created node hangs under its parent and the tree stays a forest |
| Namespace.RenameKeepsForest | crates/mirage-db/src/namespace.rs:513-718 | a rename, with or without a victim, onto itself or not, changes one parent link and makes no cycle |
| Namespace.DropKeepsForest | crates/mirage-db/src/namespace.rs:749-835 | deleting a childless entry, kept as tombstone or not, breaks no link |
| Namespace.FinalizeKeepsForest | crates/mirage-db/src/extent.rs:542-554 | removing a tombstone breaks no link |
| NamespaceHistory.ForestForever | crates/mirage-db/src/namespace.rs:383-835 | after any run an inode has one entry at most, parents are directories and nothing is its own ancestor |
| NamespaceHistory.OwnSubtreeIsRefused | crates/mirage-db/src/namespace.rs:537-581 | a directory is never moved below itself, at any depth |
| NamespaceHistory.RenameKeepsIdentity | crates/mirage-db/src/namespace.rs:513-718 | the mover keeps its inode and all it holds; every other inode but the victim keeps its entry too |
| NamespaceHistory.ReachKeptExactlyWhen | crates/mirage-db/src/namespace.rs:392-398 | a successful act leaves every live inode reachable from the root if and only if what it hangs something under is no tombstone |
| NamespaceHistory.ReachForever | crates/mirage-db/src/namespace.rs:529-536 | ... so it does over runs that avoid tombstones |
| NamespaceHistory.TombstoneParentLosesAFile | crates/mirage-db/src/namespace.rs:392-398 | three calls after which a live file is unreachable |
| NamespaceHistory.ActIsReplayed | crates/mirage-db/src/namespace.rs:1736-1795 | the deltas of an act, replayed on the live view before it, give the live view after it |
| NamespaceHistory.StepKeepsRecord | crates/mirage-db/src/namespace.rs:1817-1906 | each checkpoint is the previous one plus its closed segment, and the newest plus the open segment is the live view |
| NamespaceHistory.AnyCheckpointRecovers | crates/mirage-db/src/namespace.rs:1817-1906 | any checkpoint, replayed with all that was recorded since, gives the live view |
| NamespaceHistory.HistoryRecovers | crates/mirage-db/src/namespace.rs:1736-1906 | ... after every run of mutations and checkpoints |
| NamespaceHistory.Volume.CheckAncestors | crates/mirage-db/src/namespace.rs:542-581 | the loop computes the bounded walk |
| NamespaceHistory.Volume.Create | crates/mirage-db/src/namespace.rs:383-457 | tables and delta log change as the step says, or not at all |
| NamespaceHistory.Volume.Rename | crates/mirage-db/src/namespace.rs:513-718 | tables and delta log change as the step says, or not at all |
| NamespaceHistory.Volume.Delete | crates/mirage-db/src/namespace.rs:749-835 | tables and delta log change as the step says, or not at all |
| NamespaceHistory.Volume.SetRoots | crates/mirage-db/src/namespace.rs:869-917 | tables and delta log change as the step says, or not at all |
| NamespaceHistory.Volume.Snapshot | crates/mirage-db/src/namespace.rs:1829-1871 | the scan collects exactly the live view |
| NamespaceHistory.Volume.CreateCheckpoint | crates/mirage-db/src/namespace.rs:1817-1906 | records the live view and opens the next segment |
| TwoQ.AdmissionIsOneLook | crates/mirage-cache/src/policy_core.rs:191-306 | the eviction loop of an admission takes at most one victim, chosen by a closed rule, or refuses |
| TwoQ.DrainsProtected | crates/mirage-cache/src/policy_core.rs:240-258 | over a stuck probation the loop evicts exactly the unpinned protected ids and then refuses |
| TwoQ.AccessKeeps | crates/mirage-cache/src/policy_core.rs:191-306 | a hit keeps residency; an admission adds the id and removes exactly the reported unpinned victim; a refusal leaves the id out and every pinned id in |
| TwoQ.RefusedExactlyWhen | crates/mirage-cache/src/policy_core.rs:243-258 | an admission is refused if and only if all is pinned or probation is at its bound and pinned throughout, and then costs exactly the unpinned protected ids |
| TwoQ.RefusalIsHarmlessExactlyWhen | crates/mirage-cache/src/policy_core.rs:243-258 | a refusal leaves the queues unchanged if and only if the id was not remembered and every protected id is pinned |
| TwoQ.RefusalLosesProtected | crates/mirage-cache/src/policy_core.rs:243-258 | a run from an empty cache of eight whose last access is refused and loses a protected id |
| TwoQ.RunKeeps | crates/mirage-cache/src/policy_core.rs:96-306 | in every reachable state the queues are duplicate free, disjoint and within their bounds |
| TwoQ.ScanResistance | crates/mirage-cache/src/policy_core.rs:191-306 | a cold scan of any length removes at most what protected holds beyond the room beside probation |
| TwoQ.ScanLosesNothing | crates/mirage-cache/src/policy_core.rs:191-306 | a protected set that fits beside probation survives it whole |
| PolicyCore.IndexInverts | crates/mirage-cache/src/policy_core.rs:39-50 | the tick map and the id map are mutual inverses with ticks in order |
| PolicyCore.Core.Remember | crates/mirage-cache/src/policy_core.rs:63-71 | the ghost queue and its mirror keep the newest ids up to the bound |
| PolicyCore.Core.Drop | crates/mirage-cache/src/policy_core.rs:53-62 | an id leaves every queue, mirror and map |
| PolicyCore.Core.EvictOne | crates/mirage-cache/src/policy_core.rs:266-306 | picks and removes the victim of the rule, with all mirrors |
| PolicyCore.Core.EvictUntilFits | crates/mirage-cache/src/policy_core.rs:240-260 | the loop computes the settled queues and the outcome |
| PolicyCore.Core.Access | crates/mirage-cache/src/policy_core.rs:191-263 | the mutable state answers and changes as the queues do |
| PolicyCore.Core.Apply | crates/mirage-cache/src/policy_core.rs:96-124 | for every event, while the clock has room |
| PolicyCore.Open | crates/mirage-cache/src/policy_core.rs:82-95 | a zero capacity is refused |
| Segments.ApplyKeeps | crates/mirage-cache/src/segments.rs:135-168 | every event keeps four disjoint duplicate-free lists; a slot off the lists stays off unless unpinned |
| Segments.TouchBound | crates/mirage-cache/src/segments.rs:149-166 | a touch never grows protected beyond its old length or the target |
| Segments.PinnedIsNoVictim | crates/mirage-cache/src/segments.rs:74-83 | a detached slot is no victim in any later state until it is unpinned |
| Segments.VictimIsAttached | crates/mirage-cache/src/segments.rs:74-83 | a victim is on a list, and there is none exactly when all lists are empty |
| Segments.EarlyPinIsForgotten | crates/mirage-cache/src/segments.rs:135-142 | pinning an unknown slot has no effect on its later insertion |
| Segments.PinProtectsExactlyWhen | crates/mirage-cache/src/segments.rs:135-143 | a pin keeps its slot off the lists and from being a victim, over all later runs that do not unpin it, if and only if the slot was known when the pin came |
| RecencyLinks.SegmentedRecency.LinkHead | crates/mirage-cache/src/segments.rs:169-189 | the link surgery pushes the slot on its sequence |
| RecencyLinks.SegmentedRecency.Unlink | crates/mirage-cache/src/segments.rs:190-216 | the link surgery removes the slot from its sequence |
| RecencyLinks.SegmentedRecency.Insert | crates/mirage-cache/src/segments.rs:51-66 | inserts as on the sequences, or refuses |
| RecencyLinks.SegmentedRecency.ApplyEvent | crates/mirage-cache/src/segments.rs:135-168 | touches, pins and unpins as on the sequences |
| RecencyLinks.SegmentedRecency.Drain | crates/mirage-cache/src/segments.rs:67-73 | queued events in order, each counted |
| RecencyLinks.SegmentedRecency.FindVictim | crates/mirage-cache/src/segments.rs:74-83 | the tail of the first non-empty list in victim order |
| RecencyLinks.WalkList | crates/mirage-cache/src/segments.rs:95-120 | on any links, cyclic ones too, it ends and accepts exactly the chains that match the list's ends and length |
| RecencyLinks.Verify | crates/mirage-cache/src/segments.rs:87-134 | succeeds if and only if the links represent some four sequences |
| ReadPool.StepKeepsInv | crates/mirage-db/src/open.rs:107-193 | permits are idle, held or being opened and never more than eight; while a thread sleeps each free permit has a woken thread coming; no connection is in two hands |
| ReadPool.RunKeepsInv | crates/mirage-db/src/open.rs:107-193 | in every interleaving, with failed opens, stolen connections and spurious wakeups |
| ReadPool.FreePermitIsClaimed | crates/mirage-db/src/open.rs:160-192 | a free permit beside a sleeper has a notified thread |
| ReadPool.SomeoneWillRun | crates/mirage-db/src/open.rs:160-192 | no deadlock: a sleeper means that some thread holds, opens or has been woken |
| ReadPool.Pool.TryAcquire | crates/mirage-db/src/open.rs:164-187 | the critical section takes a connection, a permit, or sleeps only when there is neither |
| ReadPool.Pool.FinishOpen | crates/mirage-db/src/open.rs:174-175 | an opened connection goes to its opener alone |
| ReadPool.Pool.AbandonOpen | crates/mirage-db/src/open.rs:176-181 | a failed open returns its permit without underflow and wakes a sleeper |
| ReadPool.Pool.GiveBack | crates/mirage-db/src/open.rs:137-150 | a dropped guard returns its connection and wakes a sleeper |
| ArenaIo.AnyOrder | crates/mirage-cache/src/insert.rs:135-170 | pages for distinct slots leave the same bytes in any order |
| ArenaIo.ReadBack | crates/mirage-cache/src/shard.rs:141-148 | and each can be read back where it was put |
| ArenaIo.RunIsOneWrite | crates/mirage-cache/src/shard.rs:149-181 | one write of a run is the separate writes of its pages |
| ArenaIo.RunAccepted | crates/mirage-cache/src/shard.rs:155-181 | the range checks accept a run exactly when each page would be accepted alone |
| ArenaIo.Shard.WriteContiguousRuns | crates/mirage-cache/src/insert.rs:138-170 | fails exactly when some page could not be written alone, and otherwise leaves the bytes of separate writes |
| ArenaIo.Shard.WriteSlotsContiguous | crates/mirage-cache/src/shard.rs:155-181 | writes the bytes at the first slot exactly when every slot but the last is filled |
| ArenaIo.SlotsAreAligned | crates/mirage-cache/src/format.rs:17-61 | every slot of a validated layout starts on a sector |
| ArenaIo.ShardFits | crates/mirage-cache/src/format.rs:31-61 | no offset of a validated layout overflows |
| ArenaIo.AlignedRange | crates/mirage-cache/src/shard.rs:235-239 | the rounded range covers the request, is aligned and stays in the window |
| ArenaIo.Shard.ReadUnbuffered | crates/mirage-cache/src/shard.rs:217-258 | the aligned read touches whole sectors inside the slot window and returns what the plain read would |
| ArenaIo.Shard.ReadSlot | crates/mirage-cache/src/shard.rs:182-209 | serves exactly requests within the logical length, from the slot's bytes |
| ArenaIo.Shard.ReadSlotsContiguous | crates/mirage-cache/src/shard.rs:264-302 | serves exactly requests within the slot window |
| ArenaIo.PagesAreOneSlice | crates/mirage-cache/src/coalesced_read.rs:28-84 | adjacent full pages are one stretch of the file |
| ArenaIo.SlotsAreContiguous | crates/mirage-cache/src/coalesced_read.rs:14-19 | the wrapping successor test, pair by pair |
| ArenaIo.ContiguousIsConsecutive | crates/mirage-cache/src/coalesced_read.rs:14-19 | on slots of a shard it means consecutive, the wrap-around never happens |
| ArenaIo.ReadContiguous | crates/mirage-cache/src/coalesced_read.rs:28-84 | serves exactly the servable requests, with the slice of the guarded pages laid end to end |
| ArenaIo.Shard.Zero | crates/mirage-cache/src/shard.rs:410-421 | the chunked loop zeroes exactly its range |
| ArenaIo.Shard.DeallocateSlot | crates/mirage-cache/src/shard.rs:321-327 | zeroes exactly the slot's window |
| ArenaCodec.MetadataCodec | crates/mirage-cache/src/format.rs:135-174 | a record decodes to a value if and only if it is that value's encoding |
| ArenaCodec.EncodeInto | crates/mirage-cache/src/format.rs:135-144 | the buffer filled field by field is the encoding |
| ArenaCodec.HeaderCodec | crates/mirage-cache/src/format.rs:70-116 | the same for arena headers and validated layouts |
| Upload.ByteStream.Poll | crates/mirage-backend/src/object.rs:211-254 | pieces are non-empty and within the declared length; a clean end is at exactly that length |
| Upload.CommittedRoundTrip | crates/mirage-backend-drive/src/resumable.rs:155-171 | a well-formed Range header confirms the bytes up to and including its end |
| Upload.HeaderRoundTrip | crates/mirage-backend-drive/src/resumable.rs:108-115 | the Content-Range text of a request, read by the grammar of section 14.4 of RFC 9110, gives its first and last position and the complete length |
| Upload.HeadersAreValid | crates/mirage-backend-drive/src/resumable.rs:95-115 | every request sent carries a range that section 14.4 of RFC 9110 calls valid |
| Upload.Session.UploadChunk | crates/mirage-backend-drive/src/resumable.rs:87-153 | malformed chunks send nothing; others send one request; the offset moves only on exact confirmation |
| Upload.SentIsPrefix | crates/mirage-backend-drive/src/upload.rs:19-75 | requests in order without gaps carry each byte of a prefix once |
| Upload.FlushFull | crates/mirage-backend-drive/src/upload.rs:39-46 | full aligned chunks go out while more than one is left; whenever the loop test computes its sum, the sum fits 64 bits |
| Upload.PullAll | crates/mirage-backend-drive/src/upload.rs:33-47 | the source is read whole with at most one chunk held back and the last byte unsent |
| Upload.SendRest | crates/mirage-backend-drive/src/upload.rs:53-74 | what is left is one chunk, the one that completes the object |
| Upload.UploadStream | crates/mirage-backend-drive/src/upload.rs:19-75 | for every split of the source and every server: the requests carry a prefix, valid as Content-Range in section 14.4 of RFC 9110; the completing byte goes out only after the hash matched; success means every byte once; the length and alignment errors never happen |
| SpaceLease.PlanSpaceLease | crates/mirage-cache/src/space_lease.rs:107-239 | the loops compute the plan function |
| SpaceLease.Classify | crates/mirage-cache/src/space_lease.rs:123-181 | one scan separates reclaimable candidates from blocked bytes, refusing exactly repeats and overflow |
| SpaceLease.SelectPrefix | crates/mirage-cache/src/space_lease.rs:207-222 | takes the shortest covering prefix |
| SpaceLease.RefusedExactlyWhen | crates/mirage-cache/src/space_lease.rs:107-239 | planning fails if and only if the request is empty, an id repeats or a sum leaves 64 bits |
| SpaceLease.PlanPermutes | crates/mirage-cache/src/space_lease.rs:101-107 | success, failure and the whole plan do not depend on the order of the candidates |
| SpaceLease.SelectionIsShortest | crates/mirage-cache/src/space_lease.rs:183-222 | the selection is the shortest prefix of the oldest, largest, id order that covers the need, or all of it |
| SpaceLease.SelectedAreReclaimable | crates/mirage-cache/src/space_lease.rs:41-51 | only reclaimable candidates of the snapshot are selected |
| SpaceLease.PlanAddsUp | crates/mirage-cache/src/space_lease.rs:65-76 | reclaimable and uniquely blocked bytes are all bytes, and the later sums fit |
| SpaceLease.GrantedExactlyWhen | crates/mirage-cache/src/space_lease.rs:92-99 | a plan is grantable if and only if the request fits what is free plus all that may be reclaimed |
| ReservationLedger.StepKeepsInv | crates/mirage-cache/src/reservation_ledger.rs:54-208 | reserved and dirty bytes are the sums over live reservations, and envelope, peak and budget are in order |
| ReservationLedger.RunKeepsInv | crates/mirage-cache/src/reservation_ledger.rs:54-208 | ... over every run |
| ReservationLedger.CommitNeverOverflows | crates/mirage-cache/src/reservation_ledger.rs:163-187 | the overflow branch of commit is unreachable and the envelope does not grow |
| ReservationLedger.DirtyIsGranted | crates/mirage-cache/src/reservation_ledger.rs:54-115 | a dirty request within its allotment is granted while committed plus other reserved bytes leave the safety reserve free |
| ReservationLedger.RoomIsKept | crates/mirage-cache/src/reservation_ledger.rs:54-208 | which steps keep the safety reserve free |
| ReservationLedger.PrefetchKeepsRoomExactlyWhen | crates/mirage-cache/src/budget.rs:20-33 | prefetching keeps it free in every state if and only if its ceiling does |
| ReservationLedger.PrefetchCanStarveDirty | crates/mirage-cache/src/budget.rs:20-33 | a budget under which one prefetch makes a dirty update fail |
| ReservationLedger.Ledger.Reserve | crates/mirage-cache/src/reservation_ledger.rs:54-115 | grants exactly what the budget allows and books it |
| ReservationLedger.Ledger.Commit | crates/mirage-cache/src/reservation_ledger.rs:167-187 | always succeeds on a live reservation and moves its bytes |
| ReservationLedger.Ledger.ReleaseInner | crates/mirage-cache/src/reservation_ledger.rs:188-208 | returns the bytes once, without underflow |
| ReservationLedger.Ledger.SetCommittedBytes | crates/mirage-cache/src/reservation_ledger.rs:116-133 | refused exactly beyond the hard envelope |
| ReservationLedger.Open | crates/mirage-cache/src/reservation_ledger.rs:35-53 | refused exactly on an inconsistent or exceeded budget |

## Left out

- SQLite, the writer actor and its queue, and row decoding: each transaction is one step, and
  errors of the database itself occur only where an eviction begins (`ReadGate`).
- CacheStore.Store.WritePage: a failed slot or sidecar write happened or did not; it leaves no mixture.
- Unregistering a repository, which deletes its journal and its counter row together.
- Cryptography, HTTP transport, retries, authentication, Windows sparse files, user interfaces.
- Several shards: routing, and the rows reconcile reports as blocked because their shard is missing.
- Pins in `evict`: the pin check and the row transition are separate steps in the source.
- Group durability across crashes inside reconcile: the rollback result covers insert and evict only.
- SlotProtocol.RolledBackTableIsSafe: assumes no ignored I/O error, as the orderly runs do.
- ReadGate.GuardPinsItsPage: assumes that a page is installed once per committed record.
- Timestamps, pins, legacy bindings and times of the namespace; the 64 KiB bound on one delta.
- Encoding of checkpoint documents and delta payloads, and their hashes.
- Replacement policies other than 2Q, and the touch queue in front of the recency lists.
- PolicyCore.Core.Apply: requires that the clock has not saturated, because ticks repeat after that.
- Lock poisoning in the pool and the ledger.
- Suspension and cancellation of the upload, and its buffered variant for small bodies.
- The declared physical budget of a layout, which adds configured allowances.
