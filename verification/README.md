# Verified model of a layered block-storage server

Block-storage layers are stacked on each other: a write-ahead journal, a deduplicating store,
copy-on-write snapshots, mirrors, a two-tier cache. Each layer keeps complicated state and must still
look like one flat array of bytes. This project models the layers in Dafny, as the code has them, and
proves that they do: `dafny verify dfyconfig.toml` checks everything.

## How it is built

| files | what they hold |
|---|---|
| `Flat.dfy`, `StorageBackend.dfy` | bytes, blocks, splices and slices; the read-modify-write loops and mirrors of `storage_backend.cpp` |
| `JournalModel.dfy`, `JournalSteps.dfy` | the journal as a system of atomic durable steps, its invariant, recovery, and refinement of "a disk with a history" |
| `Journal.dfy`, `JournalPlans.dfy`, `JournalGroup.dfy`, `JournalLayout.dfy` | the journal class with its loops, each method recording the steps it takes; which entries a byte range becomes; the single range write of a commit; where slots lie |
| `JournalLatePush.dfy`, `JournalFaults.dfy` | pushes after a commit that failed to save the metadata; refused trims and read errors that the journal does not see: exactly when they show, and what restores the theorems |
| `DedupKeys.dfy`, `DedupTables.dfy`, `Dedup.dfy` | key formats, the three typed tables and reference counting, the store over one flat database with transactions |
| `Strides.dfy`, `LockGroup.dfy` | which blocks a byte range touches and which the loops visit; striped locking as threads and mutexes |
| `SnapshotBitmap.dfy`, `SnapshotSteps.dfy`, `Snapshots.dfy` | the 64-bit bitmap, the interleaving of writers, copiers and triggers, and the snapshot classes |
| `Murmur.dfy`, `TieringModel.dfy`, `Tiering.dfy` | the hash, the write-back cache on values, and the tiering class |

Conventions. A device is a map from block number to block; a block that was never written reads as
zeros. Every call that reaches a device or database may fail: it picks its outcome nondeterministically
and counts a failure in a ghost field `faults`, so that a contract can say that an operation reports
failure only when a device did, and the branches for a corrupt state are `assert false`. Concurrency is
a state machine over the steps that the locks of the code keep apart; the classes run one call at a
time and are tied to the steps by their contracts. The journal class carries the record of its steps,
which the theorems about all runs, with a crash at any point, are applied to.

## What holds

- Journal: over every interleaving, with a crash after any durable write, readers see the original disk
  after a history of pushes; a crash takes at most a tail that no metadata write covered; a range write
  that reports success survives every crash. This is for a data backend that reports a refused trim; for
  one that does not, exactly the refused groups are missing from the history.
- Deduplication: counters equal the number of users after every run, a put is all or nothing, and the
  store reads as a plain disk as long as the digests of the stored contents differ.
- Snapshots: the file of a snapshot is the source at its trigger, but for blocks whose copy is missing and
  was not zero, for any number of snapshots and writers; a completed snapshot misses only failed copies.
- Locks: no deadlock, and overlapping operations exclude each other, byte ranges under an exact condition.
- Tiering: no two block numbers share a hash, and every run of writes and partial writes without a device
  failure is that of a plain disk.

## Where the code falls short of its intent

The code is modelled as it is. Each of these is a lemma or a contract, with the exact condition where
there is one.

- `journal.cpp:201` tests the error flag before the lock is taken at line 217. A push that passes the
  test while a commit fails to save its metadata (lines 440-444) may take a slot the saved metadata still
  counts. It is harmless if and only if the slot is not so claimed (`JournalLatePush.HarmlessExactly`);
  else recovery reads the late entry in the place of an older one, and shows what
  `JournalLatePush.LateView` says: for a push to a block of its own a prefix of the history if and only if
  nothing else was lost (`PrefixExactly`). Any number of late pushes does no harm to readers, and one
  metadata write heals them all (`LateReads`, `SaveHeals`, `HealedRefines`); what a crash before that
  recovers is in `RecoveredAfterMany`. Harmless late pushes are steps of the runs that the theorems about
  all runs are for.
- `journal.cpp:32` asks for one block of room, `journal.cpp:39` subtracts one slot in unsigned
  arithmetic: a journal device smaller than one slot gets an enormous number of slots
  (`JournalLayout.SlotsFit`, `TooSmallIsAccepted`).
- `storage_backend_file.cpp:205-241` goes on after its own trim was refused and returns what the mirrors
  returned; `mirror_storage_backend.cpp:80` looks at the returned value only. A mirror still agrees with
  the primary if and only if both refused the trim or neither did, or the range held zeros
  (`StorageBackends.MirroredBackend.TrimZero`), whatever is returned.
- `journal.cpp:395` looks at the returned value only as well: on a file backend that refuses a trim the
  group is retired all the same. A block then reads as before if and only if it has no entry in the group,
  or one behind it, or the data backend held zeros there (`JournalFaults.RefusedExactly`, with a run to a
  visible one in `TrimIsPending` and `RefusedTrimShows`). A crash before the metadata is saved undoes it
  (`RefusedThenCrash`); after that the group is as if it had never been pushed (`RefusedDropsOut`,
  `LostExactly`) and everything else holds as before (`RefusedIsOpened`). A refused trim of journal slots
  (`journal.cpp:451`) is harmless (`Journal.Journal.ClearJournal`).
- `journal.cpp:66-69` goes on with a partly loaded cache after a read error. Which reads are right is in
  `JournalFaults.PartlyLoadedReads`, and when the commit thread ends in the error branch of lines 423-427,
  which is dead otherwise, in `MissingExactly`.
- `storage_backend_dedup.cpp:391` deletes the counter where the comment says block, line 400 deletes the
  mapping where it says counter, and data records are never deleted. What readers see is right all the
  same (`DedupTables.PutContent`). `storage_backend_dedup.cpp:555` ignores the result of the put.
- `lock_group.cpp:58` and `snapshots.cpp:237` stride from the offset instead of from a block boundary and
  can miss the last block of a range (`Strides.RangeCoverage`); then snapshots are wrong
  (`SnapshotSteps.UncoveredRangeLeaks`), and locks do not exclude unless all mutexes are taken anyway
  (`LockGroup.ExclusionExactly`).
- `snapshots.cpp:34` rounds the bitmap size down (`SnapshotBitmap.AllocationSuffices`). The model gives
  the bitmap one word for every 64 blocks, rounded up.
- `snapshots.cpp:83` sets the bit before the copy at line 85: a block whose copy failed counts as saved
  (`SnapshotSteps.FailedCopyIsLost`). `snapshots.cpp:178` reports that the copier finished whether or not all
  blocks were seen (`BrokenOffIsWrong`). In either case, and at any time, the file is right if and only if
  the blocks without a copy were zero (`FileIsOrigin`, `Isolation`).
- `storage_backend_tiering.cpp:158-163` installs a descriptor on a read miss without copying the block
  into the fast store (`TieringModel.StaleRead`). `GetStep`, `GetAnswers`, `StaleRead` and the class
  `TieringBackend` are about the code as written; `FilledStep` and `FilledKeeps` are about a version with
  that copy added; `EveryRunIsPlain` covers the written version on runs without plain reads and the other
  on all runs.
- `storage_backend_tiering.cpp:104-105` never updates `oldest`: the last descriptor of a bin is always the
  one replaced (`Tiering.FindSlot`), and the two descriptors of a bin share one fast block anyway.

## Model

| member | source | states |
|---|---|---|
| `Flat.PatchSplices` | storage_backend.cpp:239-261 | storing one read, patched and written block changes exactly the patched bytes of the whole device |
| `Flat.SplicesCompose` | storage_backend.cpp:270-272 | two adjacent splices are one splice of the concatenation, so the pieces of a loop add up to one range write |
| `Flat.PatchExtends` | storage_backend.cpp:238-273 | one pass of the read-modify-write loop turns a device with a replaced prefix of the input into one with a longer replaced prefix |
| `Flat.SliceInBlock` | storage_backend.cpp:167-211 | the bytes a read takes out of one block are the bytes of the device at that offset |
| `Flat.SplicesAgree` | storage_backend.cpp:87-99 | devices with equal bytes and different block sizes stay equal under the same splice |
| `StorageBackends.StorageBackend.GetMultipleBlocks` | storage_backend_file.cpp:133-146 | a bulk read yields the same bytes as reading the device from the first block on; absent blocks are zeros |
| `StorageBackends.StorageBackend.GetData` | storage_backend.cpp:153-219 | a successful read is exactly the requested slice, whichever mix of bulk and single-block reads produced it; a failed one had a device call fail |
| `StorageBackends.StorageBackend.PutData` | storage_backend.cpp:221-286 | on success the range and nothing else is replaced; on failure a prefix of it is, which ends at a block boundary |
| `StorageBackends.StorageBackend.Discard` | storage_backend_file.cpp:200-241 | a trim that is carried out zeroes exactly the bytes of the range, across partial blocks |
| `StorageBackends.MirroredBackend.DoMirror` | storage_backend.cpp:87-99 | every mirror is called, whatever the others did: it takes the whole write, or it had a fault and took a part; success means that none had |
| `StorageBackends.MirroredBackend.PutData` | storage_backend.cpp:221-286 | it reports an error if and only if the primary or a mirror had a fault; without one every mirror has the write, and those that were equal to the primary are; a put that fails on the primary leaves every mirror alone |
| `StorageBackends.StorageBackend.TrimZero` | storage_backend_file.cpp:200-241 | the trim or zeroing is asked for as it came in; the range is zeroed or it was refused and nothing changes; the returned value says so only when the backend reports it, which the file backend does not |
| `StorageBackends.MirroredBackend.DoMirrorTrimZero` | storage_backend.cpp:115-127 | every mirror is asked for the same trim or zeroing, whatever the others did: its range is zeroed, or it was refused and is unchanged; the returned value is false exactly when a mirror that reports refusals had one, and the primary is not touched |
| `StorageBackends.MirroredBackend.TrimZero` | storage_backend_file.cpp:200-241 | the primary is trimmed unless it had a fault, and only then is the error set; the mirrors are called in any case, and the returned value is theirs; whatever it is, a mirror that agreed with the primary still does if and only if the trim was refused by both or by neither, or the range held zeros |
| `StorageBackends.TrimsAgree` | mirror_storage_backend.cpp:77-86 | one trim of two equal devices, each of which may refuse it, keeps them equal if and only if both did the same or the range was zero |
| `StorageBackends.RefusedTrim` | storage_backend_file.cpp:205-241 | zeroing a range on one of two equal devices keeps them equal if and only if the range was zero |
| `JournalModel.ApplyAllAt` | journal.cpp:377-400 | after any list of actions a block holds the payload of the newest action on it, or what it held before |
| `JournalModel.Replay` | journal.cpp:57-88 | replaying all or a part of entries with distinct targets that were applied wholly or in part gives the disk of the longer prefix |
| `JournalModel.ReplayFurther` | journal.cpp:57-88 | a replay that goes at least as far as the first application is harmless whatever the targets |
| `JournalModel.GroupCommitIsSequential` | journal.cpp:377-400 | one ranged write of the concatenated payloads of a group leaves the disk as its entries do one by one |
| `JournalModel.ConcatenatedAt` | journal.cpp:359-363 | the buffer of a group holds the payload of its i-th entry at place i |
| `JournalModel.ConcatenatedPrefix` | journal.cpp:359-363 | the first k entries fill exactly the first k blocks of it |
| `JournalModel.ConcatenatedZeros` | journal.cpp:391-395 | the ranged trim of a group of trim or zero entries is the write of that many zeros |
| `JournalModel.GroupedIsDistinct` | journal.cpp:345-357 | entries that the commit thread merges have pairwise different targets |
| `JournalModel.GroupedExactly` | journal.cpp:345-357 | a group is all writes, all trims or all zeroes, never a mix, on blocks that follow each other |
| `JournalModel.LeadingIsUnique` | journal.cpp:318-357 | there is one longest group at the head of the ring |
| `JournalModel.ShapeFacts` | journal.cpp:258-265 | write is (read + count) mod N, full means count = N, and read = write while not full means empty |
| `JournalModel.AtIsMod` | journal.cpp:258-259 | stepping along the ring is addition modulo the number of slots |
| `JournalModel.CacheAt` | journal.cpp:160-197 | a block is cached if and only if an entry for it is pending, with the number of such entries and the data of the newest |
| `JournalModel.CacheOfRest` | journal.cpp:418-437 | decrementing the count of the oldest pending entry's block, and dropping it at zero, gives the cache of the remaining entries; the block is always there |
| `JournalSteps.SettledIsUnclaimed` | journal.cpp:219-250 | after every complete commit a ring with room has its next slot free on disk too |
| `JournalSteps.FreePlace` | journal.cpp:250-259 | an unclaimed slot lies past the saved entries on their own ring |
| `JournalSteps.WriteOnSavedRing` | journal.cpp:250-259 | where the write pointer stands on the ring that the saved metadata describes |
| `JournalSteps.WriteSlotKeeps` | journal.cpp:248-255 | an entry written into any slot that the saved metadata does not count, also after a commit that failed to save it, overwrites nothing that memory or disk still needs |
| `JournalSteps.FinishPushKeeps` | journal.cpp:257-272 | counting and caching the new entry keeps the invariant in every world with room in the ring |
| `JournalSteps.SaveMetaKeeps` | journal.cpp:129-157 | saving the metadata at any moment keeps the invariant |
| `JournalSteps.CommitBlockKeeps` | journal.cpp:377-400 | every single block of a group may reach the data backend on its own |
| `JournalSteps.RetireKeeps` | journal.cpp:407-437 | moving the read pointer past the group and emptying the cache of it keeps the invariant while the saved metadata still counts the group |
| `JournalSteps.ClearSlotKeeps` | journal.cpp:446-461 | trimming a slot that holds no pending entry keeps the invariant |
| `JournalSteps.RecoveredLog` | journal.cpp:57-88 | the recovery loop reads back exactly the entries that the saved metadata counts, in order, around the end of the ring |
| `JournalSteps.CrashKeeps` | journal.cpp:57-88 | recovery re-establishes the invariant |
| `JournalSteps.StepKeeps` | journal.cpp:199-461 | every step of every interleaving keeps the invariant |
| `JournalSteps.PendingOrWritten` | journal.cpp:496-523 | a block without a pending entry already has its newest content in the data backend, also in the middle of a commit |
| `JournalSteps.ReadIsView` | journal.cpp:496-523 | reading through the cache yields the newest push to the block, or the original data |
| `JournalSteps.ReplayedPrefix` | journal.cpp:57-88 | replaying the saved entries over a partly committed disk gives the disk of one prefix of the history |
| `JournalSteps.CrashIsPrefix` | journal.cpp:57-88 | after a crash the journal shows a prefix of its history: what the saved metadata covers or what reached the data backend, whichever is longer |
| `JournalSteps.PrefixesAgree` | journal.cpp:57-88 | prefixes that contain the durable part mean the same before and after any number of recoveries |
| `JournalSteps.ViewAgrees` | journal.cpp:496-523 | the journal's view is the specification's history over the original disk |
| `JournalSteps.PushRefines` | journal.cpp:257-276 | a push appends to the specification's history |
| `JournalSteps.SaveRefines` | journal.cpp:129-157 | a metadata write makes the whole history durable |
| `JournalSteps.CrashRefines` | journal.cpp:57-88 | a crash takes at most a tail of the history that is not durable |
| `JournalSteps.SilentRefines` | journal.cpp:377-461 | commits that reach the data backend, and clears, cannot be seen |
| `JournalSteps.StepRefines` | journal.cpp:199-461 | every step is one the specification allows |
| `JournalSteps.OpenedIsGood` | journal.cpp:57-91 | a journal that was just opened is one in which all its entries are durable, so that the theorems for runs start anywhere after an opening |
| `JournalSteps.EveryRun` | journal.cpp:57-461 | over every run of pushes, metadata writes, commits, clears and crashes, from a fresh or just opened journal, the view is the original disk after the specification's history |
| `JournalSteps.RecoveredIsOpened` | journal.cpp:57-91 | every recovery leaves such a journal |
| `JournalSteps.HistIsPushes` | journal.cpp:199-277 | without a crash the history is all pushes in order |
| `JournalSteps.NoCrashNoLoss` | journal.cpp:199-461 | without a crash the view is the original disk after what was pending at the opening and all pushes, in order, whatever was committed |
| `JournalSteps.CrashAnywhere` | journal.cpp:57-461 | a crash at any point of any run shows a prefix of the history that is never shorter than the durable part |
| `Journal.Journal.constructor` | journal.cpp:57-90 | opening what any run left behind continues that run with a recovery step; after a read error it is the same state with only the first entries in the cache |
| `Journal.Journal.Load` | journal.cpp:57-88 | the loading loop builds the cache of the first k recovered entries, of all of them unless a device failed |
| `Journal.Journal.PutInCacheNow` | journal.cpp:160-197 | newest data, count one higher |
| `Journal.Journal.GetBlock` | journal.cpp:496-523 | a successful read is the newest push to the block, from cache or data backend |
| `Journal.Journal.UpdateMeta` | journal.cpp:129-157 | on success everything pushed so far survives a crash, and an fsync followed the last write that it depends on; when nothing is dirty nothing is written and the saved metadata already is the current one |
| `Journal.Journal.StoreMeta` | journal.cpp:136-146 | the metadata write by itself |
| `Journal.Journal.TransactionEnd` | journal.cpp:116-126 | on success the whole log is durable and flushed |
| `Journal.Journal.PushAction` | journal.cpp:199-277 | success appends exactly this action to the log; failure leaves the log, and comes only from the error or stop state, a wrong size or a device failure |
| `Journal.Journal.Append` | journal.cpp:227-276 | the part of a push under the lock, in any state with room: the entry is stored and counted, and the journal stays consistent when the slot is not claimed by the saved metadata |
| `Journal.Journal.StoreEntry` | journal.cpp:227-255 | the entry lands in the slot at the write pointer, in any state |
| `Journal.Journal.CountEntry` | journal.cpp:257-272 | pointers, counters and cache take the entry in, in any state with room; the ring never holds more than N entries, so the error branch for that is dead |
| `Journal.Journal.PutBlock` | journal.cpp:525-536 | one write entry is logged, or nothing is |
| `Journal.Journal.StorePart` | storage_backend.cpp:244-261 | a part of one block is replaced in the journal's view by one write entry for that block, or nothing changes |
| `Journal.Journal.PutData` | storage_backend.cpp:221-286 | success means exactly the range is replaced, no crash takes it away again, and it is flushed; failure leaves a replaced prefix; the log gains one write entry for each block touched, in order |
| `Journal.Journal.TrimZero` | journal.cpp:543-611 | the effect is that of writing zeros to the range; the log gains one entry for each block touched, in order: a trim entry for each whole block when a trim was asked for, a zero entry when zeros were, and a write entry for each part of a block |
| `Journal.Journal.ZeroPart` | journal.cpp:562-595 | one block or a part of it reads as zero by one entry of the kind asked for, or nothing changes |
| `JournalPlans.KindsOfPlan` | journal.cpp:564-568 | trim entries come only from trims and zero entries only from zeroings, and every whole block of the range gets its own |
| `JournalPlans.NextCounted` | journal.cpp:556-560 | each piece of the loop over a range is the next block that the range touches |
| `JournalPlans.ZeroPlanMore` | journal.cpp:562-600 | one more pass of that loop adds the one entry that the next block needs |
| `Journal.Journal.GatherFrom` | journal.cpp:311-372 | the loop collects the longest group at the head of the ring, also across the end of the ring and when the ring is full, and for writes the buffer of their payloads in order; the checksum branch is dead |
| `Journal.Journal.Gather` | journal.cpp:311-372 | the batch is the oldest pending entries, one kind, consecutive targets, and cannot be longer; the buffer is theirs |
| `Journal.Journal.WriteBack` | journal.cpp:377-400 | the group reaches the data backend in order out of the buffer; a failure leaves a prefix of it written |
| `Journal.Journal.WriteBackOne` | journal.cpp:377-400 | one block of the group reaches the data backend, or a device failed |
| `Journal.Journal.RetireBatch` | journal.cpp:407-437 | pointers move past exactly the group and the cache loses exactly its entries |
| `Journal.Journal.DropBatch` | journal.cpp:418-437 | every block of the group is found in the cache, so the error branch for a missing one is dead |
| `Journal.Journal.CommitOnce` | journal.cpp:290-464 | a round retires the longest group at the head of the ring and carries it out on the data backend, unless the ring was empty or a device failed; it keeps the record of steps and cannot be seen by readers |
| `Journal.Journal.CommitThread` | journal.cpp:284-467 | any number of rounds between two calls keep the journal valid |
| `Journal.Journal.CommitBatch` | journal.cpp:377-461 | the group is carried out on the data backend, the read pointer moves past it, no slot but those of the group is erased, and without a device failure all of those are |
| `Journal.Journal.TakeOut` | journal.cpp:407-461 | the same for the part after the write-back; a failure to save the metadata leaves the journal consistent |
| `Journal.Journal.ClearJournal` | journal.cpp:446-461 | the wrap-around loop ends and erases exactly the committed slots, never a pending one; a refused trim, reported or not, leaves some of them and the journal just as consistent |
| `Journal.Journal.TrimSlots` | journal.cpp:450-455 | one ranged trim erases exactly its slots, one at a time as far as a crash is concerned; when it is refused or fails halfway it erases some of them, and may return true |
| `Journal.Journal.ClearOne` | journal.cpp:450-455 | one slot is erased as a step of the record, or nothing changes |
| `Journal.Journal.FlushJournal` | journal.cpp:469-484 | afterwards the ring is empty and the data backend alone holds what readers saw |
| `Journal.OpenNew` | journal.cpp:35-41 | a never used journal shows the data backend as it is |
| `Journal.PowerCycle` | journal.cpp:20-91 | closing by power loss and opening again shows a prefix of the log that contains all durable entries, and everything when the last transaction ended |
| `Journal.GatherStep` | journal.cpp:318-371 | the loop meets the write pointer exactly after the last pending entry |
| `Journal.RetiredIsFree` | journal.cpp:407-461 | the slots of the retired group hold no pending entry |
| `Journal.GroupGrows` | journal.cpp:345-357 | the test of the gathering loop accepts exactly the entries that keep the group one kind on consecutive blocks |
| `JournalGroup.SpliceIsUnique` | journal.cpp:377-400 | two devices that took the same splice read the same |
| `JournalGroup.EntriesWritten` | journal.cpp:377-400 | a device with the first k blocks of the buffer written reads as if the first k entries were carried out |
| `JournalGroup.PutGroup` | journal.cpp:377-400 | the single range write of the buffer, or the single ranged trim or zeroing as the entries say, leaves the device as the first k entries one by one do; the commit sees no error if and only if that is all of them or the backend refused a trim without reporting it |
| `JournalLayout.SlotsDisjoint` | journal.cpp:250 | slots overlap neither each other nor the metadata |
| `JournalLayout.SlotsFollow` | journal.cpp:250 | they follow each other without gaps, behind the room of one slot |
| `JournalLayout.SlotsExactly` | journal.cpp:39 | a device with room for a slot has all the slots that fit and no more |
| `JournalLayout.SlotsFit` | journal.cpp:32-39 | all slots lie inside an accepted journal device if and only if the device has room for one slot; the size check asks for one block only |
| `JournalLayout.TooSmallIsAccepted` | journal.cpp:29-53 | every size from one block up to just under one slot is accepted all the same, for every block size |
| `JournalLayout.RefusedExactly` | journal.cpp:29-53 | what the constructor refuses, exactly: blocks below 560 bytes, devices below one block, and those with room for one slot but not for two |
| `JournalLayout.ThreeSlots` | journal.cpp:39 | a device of four slot sizes has three slots |
| `JournalLatePush.ClaimedPlace` | journal.cpp:250-259 | a claimed slot holds entry number (log length - N), which was retired but is still counted on disk |
| `JournalLatePush.HarmlessExactly` | journal.cpp:199-255 | in every world with room in the ring, storing an entry keeps the invariant if and only if the slot is not claimed by the saved metadata, or claimed for an equal entry |
| `JournalLatePush.RecoveryReadsLate` | journal.cpp:57-88 | the recovery loop reads the late entry in the place of the one it destroyed |
| `JournalLatePush.RecoveredExactly` | journal.cpp:57-277 | after any push with room, recovery reads exactly the saved entries if and only if that condition holds, and else the late entry in the place of entry (log length - N) |
| `JournalLatePush.LateView` | journal.cpp:57-277 | what readers see after such a push and a crash: the late entry comes before saved entries that are older and without entries pushed before it |
| `JournalLatePush.LateBlock` | journal.cpp:57-277 | the block of the late push reads as an older entry if one for it lies behind on the saved ring |
| `JournalLatePush.PrefixExactly` | journal.cpp:57-277 | in every world, for every late push into a claimed slot that changes a block of its own: recovery shows a prefix of the history if and only if it would have lost nothing without that push |
| `JournalLatePush.StaleWorldIsReachable` | journal.cpp:199-461 | for every block size a run of three pushes, one metadata write and a commit leads to a world with room whose next slot is claimed |
| `JournalLatePush.LatePushLosesOrder` | journal.cpp:201-217 | there every late push to another block survives a crash that an older entry does not: no prefix of the history |
| `JournalLatePush.LatePushesKeep` | journal.cpp:199-277 | any number of late pushes keep all of the invariant but for what the saved ring holds |
| `JournalLatePush.LateReads` | journal.cpp:496-523 | readers see the newest push all the same |
| `JournalLatePush.SaveHeals` | journal.cpp:129-157 | one metadata write restores the invariant after any number of late pushes |
| `JournalLatePush.HealedRefines` | journal.cpp:129-277 | to the specification, late pushes and the metadata write after them are pushes and a save, in any state of any run |
| `JournalLatePush.HoldsLatePushes` | journal.cpp:248-259 | what the saved ring holds after any number of late pushes: push j in the place of entry (log length + j - N) |
| `JournalLatePush.RecoveredAfterMany` | journal.cpp:57-277 | a crash then recovers the saved entries with the late ones in those places, and exactly the saved entries if and only if each late push took no saved place or an equal entry's |
| `JournalFaults.RefusedDropsOut` | journal.cpp:391-437 | a group of trims that the data backend refused without reporting it drops out of the history: readers see what they would see had it never been pushed |
| `JournalFaults.RefusedExactly` | journal.cpp:391-437 | its retirement changes what readers see of a block if and only if the group has an entry for it, no later pending entry has, and the data backend does not hold zeros there |
| `JournalFaults.RefusedThenCrash` | journal.cpp:57-88 | a crash before the metadata is saved brings the group back |
| `JournalFaults.RefusedIsOpened` | journal.cpp:439-444 | once it is saved the journal is as good as one just opened over the unchanged data backend with the rest of the entries, so that the theorems for all runs hold from there |
| `JournalFaults.LostExactly` | journal.cpp:199-523 | in every run without a crash and with refused groups anywhere in it readers see the original disk after all pushes in order but for those groups |
| `JournalFaults.TrimIsPending` | journal.cpp:199-461 | for every block size, number of slots and data a run from a fresh journal writes and commits block 0 and then has a trim of it pending |
| `JournalFaults.RefusedTrimShows` | journal.cpp:391-437 | when that trim is refused the block, which read as zeros, reads as the old data again |
| `JournalFaults.PartlyLoadedReads` | journal.cpp:62-88 | after a read error while opening, readers see the disk without the entries behind the error; a block is right if and only if none of those is for it or the newest of them changes nothing |
| `JournalFaults.MissingExactly` | journal.cpp:418-437 | the commit thread finds the blocks of its group in such a cache if and only if the group does not reach beyond the loaded entries; else it ends in the error branch |
| `JournalFaults.LoadedRest` | journal.cpp:418-437 | until then the cache stays that of the loaded entries that are left |
| `DedupKeys.EncodeHex` | hash.cpp:46-61 | the string spells the digest out: two lower-case hex digits a byte, the upper half first |
| `DedupKeys.HexSpellsOut` | hash.cpp:51-56 | every byte is sixteen times the value of its first digit plus that of its second |
| `DedupKeys.HexOfIsHex` | hash.cpp:46-61 | the form consists of hex digits only |
| `DedupKeys.HexOfInjective` | hash.cpp:46-61 | different digests have different names |
| `DedupKeys.ValueOfDecimal` | storage_backend_dedup.cpp:122-125 | a block number can be read back from its decimal form |
| `DedupKeys.DecimalExactly` | storage_backend_dedup.cpp:122-125 | the decimal form is the one numeral without a leading zero that has the value |
| `DedupKeys.BlockKeyInjective` | storage_backend_dedup.cpp:122-125 | different blocks have different mapping keys |
| `DedupKeys.DataKeyInjective` | storage_backend_dedup.cpp:128-131 | different hashes have different data keys |
| `DedupKeys.KeysExactly` | storage_backend_dedup.cpp:121-131 | a key is that of a block, or of a hash, if and only if it has the prefix and the number, or the hash, behind it |
| `DedupKeys.KeysApart` | storage_backend_dedup.cpp:115-131 | counter keys (raw hashes), mapping keys, data keys and the compression marker never coincide |
| `DedupTables.DecodeEncode` | storage_backend_dedup.cpp:289-329 | a stored block reads back, compressed or not, and fits the read buffer |
| `DedupTables.DecodesExactly` | storage_backend_dedup.cpp:289-330 | what can be read back: records of at most a block, or with a codec of at most two blocks and 128 bytes that decompress to a block |
| `DedupTables.ReleaseFacts` | storage_backend_dedup.cpp:376-415 | releasing takes one user from the old hash; a mapped block always has a positive counter |
| `DedupTables.AcquireFacts` | storage_backend_dedup.cpp:427-502 | acquiring adds one user and writes data only when there was none |
| `DedupTables.PutFacts` | storage_backend_dedup.cpp:359-520 | the net effect of a put on counters, mapping and data, also when old and new hash coincide |
| `DedupTables.PutConserves` | storage_backend_dedup.cpp:359-520 | every counter equals the number of blocks mapped to its hash and exists only when positive, after every put |
| `DedupTables.KeptCounterHasUser` | storage_backend_dedup.cpp:437-456 | the counter test finds a counter exactly when another block uses the hash |
| `DedupTables.PutKeepsBody` | storage_backend_dedup.cpp:359-520 | a put never touches data another block uses |
| `DedupTables.StoredForm` | storage_backend_dedup.cpp:467-501 | data comes into the store only with a hash that no other block uses, compressed when there is a codec and as it is otherwise |
| `DedupTables.PutStores` | storage_backend_dedup.cpp:359-520 | the block reads back what was put if and only if no other block holds different content under the same hash |
| `DedupTables.PutContent` | storage_backend_dedup.cpp:280-520 | other blocks keep their content and the invariant holds; leftover data records are never read back as stale content |
| `DedupTables.SetCounter` | storage_backend_dedup.cpp:165-245 | writing or removing a counter record leaves the other two tables in the flat database alone |
| `DedupTables.SetMapping` | storage_backend_dedup.cpp:335-338 | the same for mapping records |
| `DedupTables.SetData` | storage_backend_dedup.cpp:457-501 | the same for data records |
| `DedupTables.OneDatabase` | storage_backend_dedup.cpp:115-131 | the three tables and the compression marker determine the whole database |
| `DedupTables.ReopenedExactly` | storage_backend_dedup.cpp:29-41 | a database is opened again exactly with the compression it was made with |
| `DedupTables.TrustedMeansNoCollision` | storage_backend_dedup.cpp:417-437 | contents with distinct digests never collide |
| `DedupTables.PutIsWrite` | storage_backend_dedup.cpp:359-520 | on contents with distinct digests a put is a plain block write |
| `DedupTables.EveryRunOfPuts` | storage_backend_dedup.cpp:359-520 | after every run of puts counters are conserved, all data is there, and the store reads as a plain disk |
| `Dedup.DedupStore.constructor` | storage_backend_dedup.cpp:29-37 | an empty database with the compression marker is a valid store in which no block has content |
| `Dedup.DedupStore.Commit` | storage_backend_dedup.cpp:513-517 | a commit that reports failure has happened completely or not at all |
| `Dedup.DedupStore.GetHashForBlock` | storage_backend_dedup.cpp:247-269 | the mapped hash or none; the unexpected-size branch is dead |
| `Dedup.DedupStore.GetBlockInt` | storage_backend_dedup.cpp:280-333 | the last block put there or none; the missing-data and decompression branches are dead |
| `Dedup.DedupStore.DecreaseUseCount` | storage_backend_dedup.cpp:165-181 | one less, in the database too; the missing-counter branch is dead |
| `Dedup.DedupStore.GetUseCount` | storage_backend_dedup.cpp:183-197 | the counter, or 0 when there is none |
| `Dedup.DedupStore.IncreaseUseCount` | storage_backend_dedup.cpp:229-245 | one more, in the database too |
| `Dedup.DedupStore.ReleaseOld` | storage_backend_dedup.cpp:376-415 | with the last use the counter (deleted as the block) and the mapping (deleted as the counter) go; the negative-count branch is dead |
| `Dedup.DedupStore.ReleaseUse` | storage_backend_dedup.cpp:378-414 | one use less, whichever of the two branches follows |
| `Dedup.DedupStore.DropLastUse` | storage_backend_dedup.cpp:389-407 | exactly those two records are removed |
| `Dedup.DedupStore.AcquireNew` | storage_backend_dedup.cpp:427-502 | counter and, when new, data are written; the count-mismatch branch is dead |
| `Dedup.DedupStore.UpdateRecords` | storage_backend_dedup.cpp:366-511 | inside the transaction the records become those of the put |
| `Dedup.DedupStore.PutBlockInt` | storage_backend_dedup.cpp:359-520 | a put is done completely or changes nothing; it fails only when a database call did |
| `Dedup.DedupStore.TrimZero` | storage_backend_dedup.cpp:537-589 | all bytes of the range read as zero except in whole blocks of it whose put failed, one fault each, which the code ignores; when it reports success the range reads as zero if and only if those blocks did before; only a failure at a part of a block ends the loop |
| `Dedup.DedupStore.ZeroPart` | storage_backend_dedup.cpp:552-575 | one block or a part of it reads as zero, or nothing changes |
| `Dedup.MissedExactly` | storage_backend_dedup.cpp:554-555 | the range reads as zero exactly when every missed block was zero |
| `Strides.BlockNumbers` | lock_group.cpp:58-59 | the stride loop visits block offset/bs and the ceil(size/bs) - 1 blocks after it |
| `Strides.VisitedIsTouched` | lock_group.cpp:58-59 | no block is visited that holds no byte of the range |
| `Strides.TouchedSpan` | lock_group.cpp:58-59 | the blocks a range touches |
| `Strides.RangeCoverage` | snapshots.cpp:237-238 | every touched block is visited if and only if (offset mod bs) + ((size - 1) mod bs) < bs |
| `Strides.AlignedIsCovered` | snapshots.cpp:256-258 | ranges that start at a block are always covered |
| `Strides.UntouchedBlock` | storage_backend.cpp:238-273 | a range write leaves every block alone that holds no byte of the range |
| `Strides.RemainderOccurs` | lock_group.cpp:24-25 | N consecutive blocks use all N mutexes |
| `LockGroup.NrsToLocks` | lock_group.cpp:20-28 | each mutex of the blocks once, ascending, and no other |
| `LockGroup.Insert` | lock_group.cpp:25 | ordered insertion without duplicates |
| `LockGroup.StepKeeps` | lock_group.cpp:30-52 | every step keeps: a mutex knows its holders, and a private holder is alone |
| `LockGroup.HolderCounts` | lock_group.cpp:36-52 | whoever took a mutex can release it |
| `LockGroup.TwoHoldersShare` | lock_group.cpp:30-46 | two holders of one mutex both hold it shared |
| `LockGroup.Exclusion` | lock_group.cpp:30-52 | operations whose lock sets meet, one of them private, never overlap |
| `LockGroup.TouchedIsLocked` | lock_group.cpp:54-73 | a range locks every block it touches when the strides cover it, or when they visit as many blocks as there are mutexes |
| `LockGroup.RangeExclusion` | lock_group.cpp:54-73 | overlapping byte ranges that lock enough in this sense exclude each other |
| `LockGroup.ChainEnds` | lock_group.cpp:32-46 | the chain of waiting threads climbs to ever higher mutexes and so ends at one that can move |
| `LockGroup.EveryRunKeeps` | lock_group.cpp:20-73 | the invariant holds in every reachable state |
| `LockGroup.NoDeadlock` | lock_group.cpp:20-73 | in every reachable state with an operation under way some operation under way can take a step |
| `LockGroup.GetsInside` | lock_group.cpp:30-46 | a thread that finds all mutexes of its set available, shared or private, gets inside holding exactly those |
| `LockGroup.AvailableExactly` | lock_group.cpp:30-46 | a mutex is to be had exactly when nobody holds it private and, for a private operation, nobody shared |
| `LockGroup.SharedTogether` | lock_group.cpp:30-34 | shared operations get inside together, whatever their lock sets have in common |
| `LockGroup.OneLockSet` | lock_group.cpp:18-28 | a list of blocks has one lock set and one order to take it in |
| `LockGroup.UncoveredRangesOverlap` | lock_group.cpp:54-59 | for every range that is not covered (and needs fewer mutexes than there are) a run has a private operation on it and one on a block with bytes of it inside at once |
| `LockGroup.ExclusionExactly` | lock_group.cpp:54-73 | a private operation on a range keeps every operation on a block of the range out, in all runs, if and only if (offset mod bs) + ((size - 1) mod bs) < bs or the strides are at least as many as the mutexes |
| `LockGroup.Group.Lock` | lock_group.cpp:30-46 | exactly the mutexes of the blocks are taken, each once and in ascending order |
| `LockGroup.Group.Unlock` | lock_group.cpp:36-52 | unlocking releases exactly what locking the same blocks took |
| `LockGroup.Group.UnLockBlockGroup` | lock_group.cpp:54-73 | locking or unlocking a byte range, shared or private, is that of the blocks its strides visit |
| `SnapshotBitmap.BitsApart` | snapshots.cpp:75-83 | setting one bit of a word changes that bit only |
| `SnapshotBitmap.SetBitMarks` | snapshots.cpp:75-83 | setting a block's bit adds exactly that block to the set the words stand for |
| `SnapshotBitmap.NothingMarked` | snapshots.cpp:36 | zeroed words stand for the empty set |
| `SnapshotBitmap.AllocationSuffices` | snapshots.cpp:34 | the allocated bytes hold the words of all blocks if and only if the number of blocks is a multiple of 64 |
| `SnapshotSteps.WantedInDevice` | snapshots.cpp:159-165 | no loop asks for a block beyond the device |
| `SnapshotSteps.TriggerKeeps` | snapshots.cpp:209-214 | a new snapshot can join at any moment without a write under way |
| `SnapshotSteps.ClaimKeeps` | snapshots.cpp:78-83 | setting the bit under the lock keeps the invariant |
| `SnapshotSteps.CopyKeeps` | snapshots.cpp:85-92 | the copy that follows saves the origin of the block, in full, as a hole, or (failed) not at all |
| `SnapshotSteps.WritableIsGuarded` | snapshots.cpp:232-249 | in a covered range every block that will be written was saved first |
| `SnapshotSteps.StoreKeeps` | snapshots.cpp:286-295 | a source write after that disturbs no live snapshot |
| `SnapshotSteps.WriterStepKeeps` | snapshots.cpp:232-249 | nor do the other steps of a writer |
| `SnapshotSteps.StepKeeps` | snapshots.cpp:73-306 | every step of every interleaving keeps the invariant |
| `SnapshotSteps.EveryRunKeeps` | snapshots.cpp:73-306 | the invariant holds in every state of every run with covered ranges |
| `SnapshotSteps.OriginStays` | snapshots.cpp:193-225 | a snapshot's origin is fixed at its trigger |
| `SnapshotSteps.StopKeeps` | snapshots.cpp:49-61 | stopping the copier at any moment keeps the invariant |
| `SnapshotSteps.FileIsOrigin` | snapshots.cpp:95-178 | the file of a snapshot, finished or not, equals its origin if and only if every block without a copy was zero; once the copier saw all blocks these are those whose copy failed; a sparse file takes room for exactly the copied blocks that are not zero, any other for all copied ones |
| `SnapshotSteps.Isolation` | snapshots.cpp:73-306 | for any number of snapshots and writers and any interleaving, at any moment after its trigger, the file of a snapshot is the source at the trigger if and only if the blocks without a copy were zero then; in a complete one only failed copies are missing, and a sparse file takes no room for zeros |
| `SnapshotSteps.UncoveredRangeLeaks` | snapshots.cpp:232-249 | for every range that is not covered there is a run without any failure that completes a wrong snapshot |
| `SnapshotSteps.FailedCopyIsLost` | snapshots.cpp:80-92 | for every block size and content that is not zero: one failed copy makes a snapshot complete with content that is not the origin |
| `SnapshotSteps.BrokenOffIsWrong` | snapshots.cpp:155-178 | for every source that is not all zeros a run in which the first copy of the copier fails reports a finished snapshot whose file is wrong |
| `Snapshots.SnapshotState.constructor` | snapshots.cpp:20-47 | a new snapshot is good for the source as it is |
| `Snapshots.SnapshotState.CopyBlock` | snapshots.cpp:95-138 | the block is written to the file, or left out when sparse and zero |
| `Snapshots.SnapshotState.GetSetBlockState` | snapshots.cpp:73-93 | bitmap, file and failures change as the claim and copy steps of the state machine, once per block |
| `Snapshots.SnapshotState.Run` | snapshots.cpp:155-179 | the copier reports that it finished in any case, after all blocks, a failure or the stop flag; the file is the origin if and only if the blocks without a copy were zero |
| `Snapshots.SnapshotBackend.TriggerSnapshot` | snapshots.cpp:193-225 | a new snapshot of the present source joins, or nothing changes and its file could not be created |
| `Snapshots.SnapshotBackend.SaveRange` | snapshots.cpp:237-245 | all blocks the strides visit are saved to one snapshot and no others, or a call failed |
| `Snapshots.SnapshotBackend.TriggerRange` | snapshots.cpp:232-249 | and to every live snapshot, whatever becomes of the others; it reports a failure if and only if a call failed |
| `Snapshots.SnapshotBackend.PutData` | snapshots.cpp:286-306 | it reports an error if and only if a call of the source or a snapshot failed; however a write into a covered range ends, every live snapshot stays good and a prefix of the range that ends at a block boundary is replaced |
| `Snapshots.SnapshotBackend.PutBlock` | snapshots.cpp:256-264 | a block write keeps every live snapshot good, and is done unless a call failed |
| `Snapshots.SnapshotBackend.TrimZero` | snapshots.cpp:276-284 | a trim of a covered range keeps every live snapshot good; when it reports success the range was zeroed if and only if the trim was carried out or the range held zeros; it is passed on as asked for unless a call failed before |
| `Snapshots.NotZeroed` | storage_backend_file.cpp:205-208 | a trim that was not carried out zeroes a range exactly when the range held zeros |
| `Snapshots.SourceMoves` | snapshots.cpp:73-93 | a snapshot stays good for any source that still has the origin of every unsaved block |
| `Snapshots.GuardedSplice` | snapshots.cpp:286-295 | so a splice of a covered and saved range leaves it good |
| `Murmur.StagesUndone` | hash.cpp:77-121 | every multiplying and shifting stage of the hash can be undone |
| `Murmur.ScrambleInjective` | hash.cpp:77-83 | the scrambling of a word loses nothing |
| `Murmur.MixInjective` | hash.cpp:99-101 | a mixing round is injective in the state and in the word |
| `Murmur.FinalizeInjective` | hash.cpp:117-121 | so is the finalisation |
| `Murmur.Murmur3` | hash.cpp:85-124 | the loops compute the hash function that the lemmas are about |
| `Murmur.TailLoop` | hash.cpp:105-109 | the loop over the last bytes, back to front |
| `Murmur.WordInjective` | hash.cpp:96 | a loaded word determines its four bytes |
| `Murmur.TailInjective` | hash.cpp:105-109 | the tail word determines the last bytes |
| `Murmur.FoldDiffers` | hash.cpp:91-102 | a difference in one word is never made up for by equal later words |
| `Murmur.OneWordChangesHash` | hash.cpp:85-124 | for every seed, length and position: changing one aligned word changes the hash |
| `Murmur.TailChangesHash` | hash.cpp:85-124 | for every seed and length: changing the bytes after the last whole word changes the hash |
| `Murmur.KnownHashes` | hash.cpp:77-124 | published values of the algorithm: without a key, for every length of a tail, for a word, and for both |
| `Murmur.WordHashInjective` | storage_backend_tiering.cpp:57-61 | different 32-bit halves of block numbers have different hashes |
| `Murmur.HashOfBlock` | storage_backend_tiering.cpp:54-64 | the two half hashes joined |
| `Murmur.HashBlockNrInjective` | storage_backend_tiering.cpp:54-64 | no two 64-bit block numbers share a hash |
| `Murmur.HalvesStayApart` | storage_backend_tiering.cpp:57-63 | the upper half of the hash is decided by the upper half of the block number and tells it, and so the lower halves |
| `Murmur.OnlyOneHashesToZero` | storage_backend_tiering.cpp:97-106 | exactly one block number hashes to 0, the value of an unused descriptor |
| `TieringModel.HitMeans` | storage_backend_tiering.cpp:97-106 | a descriptor that matches by hash names this very block |
| `TieringModel.BinOfLowerHalf` | storage_backend_tiering.cpp:69-71 | when the number of bins divides 2^32 the lower half of a block number decides its bin |
| `TieringModel.EvictedIsStored` | storage_backend_tiering.cpp:238-265 | before its place is reused a block is in the slow store |
| `TieringModel.SameBinMiss` | storage_backend_tiering.cpp:237-281 | the block that is evicted from a bin reads the same afterwards |
| `TieringModel.OthersUnchanged` | storage_backend_tiering.cpp:97-281 | neither operation shows in any other block |
| `TieringModel.OtherBinsKept` | storage_backend_tiering.cpp:66-295 | a call, also one that fails halfway, changes nothing that can be seen of blocks in other bins |
| `TieringModel.LastUse` | storage_backend_tiering.cpp:108-281 | a descriptor carries the time of the last call for its block; a read keeps its block as dirty as it was and a write makes it dirty |
| `TieringModel.PutIsUpdate` | storage_backend_tiering.cpp:180-295 | a write updates exactly its block, also right after a read of it as the code does it |
| `TieringModel.GetAnswers` | storage_backend_tiering.cpp:66-178 | a read as written answers right and spares other blocks, but keeps its own block and the cache good if and only if the fast block already held the answer |
| `TieringModel.FilledKeeps` | storage_backend_tiering.cpp:150-163 | with the missing copy into the fast store added, a read changes nothing that can be seen |
| `TieringModel.FreshIsGood` | storage_backend_tiering.cpp:97-106 | over zeroed metadata the cache shows the slow store |
| `TieringModel.OpIsPlain` | storage_backend_tiering.cpp:66-295 | one operation answers and acts as on a plain disk |
| `TieringModel.EveryRunIsPlain` | storage_backend_tiering.cpp:66-392 | every run of writes and partial writes as coded, and of reads too with the missing copy added, is that of a plain disk starting as the slow store |
| `TieringModel.StaleRead` | storage_backend_tiering.cpp:150-163 | for every block size, block and content: from zeroed metadata, reading the block twice as coded answers right and then with what the fast store held |
| `Tiering.FindSlot` | storage_backend_tiering.cpp:93-106 | the first match, else the last usable descriptor whatever its age |
| `Tiering.SlotIsSecond` | storage_backend_tiering.cpp:97-106 | in a good state the search ends at the second descriptor |
| `Tiering.TieringBackend.constructor` | storage_backend_tiering.cpp:14-37 | over zeroed metadata the backend is valid |
| `Tiering.TieringBackend.Evict` | storage_backend_tiering.cpp:238-265 | a dirty block is written back, a clean one is not |
| `Tiering.TieringBackend.Fetch` | storage_backend_tiering.cpp:120-164 | the block comes from the slow store after the dirty one was written back |
| `Tiering.TieringBackend.Replace` | storage_backend_tiering.cpp:237-281 | the fast block is overwritten after its dirty contents were written back |
| `Tiering.TieringBackend.GetBlock` | storage_backend_tiering.cpp:66-178 | a read without a device failure reports success and is the read step as written, through all device calls; any read stays in its own bin |
| `Tiering.TieringBackend.PutBlock` | storage_backend_tiering.cpp:180-295 | a write without a device failure reports success and is the write step; any write stays in its own bin |
| `Tiering.TieringBackend.StoreInBlock` | storage_backend_tiering.cpp:342-380 | a part of one block is replaced in the device the cache presents |
| `Tiering.TieringBackend.PutData` | storage_backend.cpp:221-286 | a range write over the cache, as coded, replaces exactly the range |
| `Tiering.TieringBackend.TrimZero` | storage_backend_tiering.cpp:329-392 | a trim, as coded, zeroes exactly the range |

## Left out

- Journal.Journal.PushAction: the error flag is tested again once the lock is held, so that the method does not go on after a commit that failed in between; `Append` is what the code does then, the steps allow it where it is harmless, and `JournalLatePush` has what happens elsewhere; a pusher that waits for room when a commit fails returns here and waits for ever in the code.
- Journal.Journal.constructor: after a read error the state is given, and JournalFaults says what readers see in it, but the methods of the class are for a journal that was loaded completely. The checks of the metadata's signature and checksum are not part of this model.
- Journal.Journal.WriteBack: the data backend of the class reports a refused trim, and so for WriteBackOne, CommitOnce, CommitBatch, and for StepRefines, EveryRun and NoCrashNoLoss; JournalFaults has the commit over a backend that does not.
- Journal.Journal.FlushJournal: returns when a commit fails, where the code waits for ever.
- JournalSteps.StepKeeps: a push into a slot that the saved metadata claims is no step (`JournalLatePush` is about those), and so for StepRefines, EveryRun, NoCrashNoLoss and CrashAnywhere; write-backs and clears are steps only while memory and saved metadata agree on what is retired, which the lock and the error flag ensure. Pointers and counts are unbounded integers, and a checksum is an oracle that accepts intact entries. In the steps a write to the journal device is durable when it returns; that an fsync covers the writes a transaction depends on is a contract of the class (`Flushed`). A write to the data backend counts as durable when it returns as well: the code saves the metadata (journal.cpp:440) without an fsync of the data backend after line 383.
- Journal.Journal.PutData: forwarding to mirrors of the journal is left out, as in Journal.Journal.TrimZero.
- LockGroup.Group.Lock: the object is for one thread that gets every mutex at once; waiting is in the state machine. Which waiting thread gets a mutex first, and thus fairness, is left open.
- Dedup.DedupStore.PutBlockInt: rolling back a transaction always succeeds, and compression and hashing do not fail.
- Dedup.DedupStore.TrimZero: a partial block that was never written is patched as a block of zeros, where the code writes through a null pointer.
- SnapshotSteps.TriggerKeeps: a snapshot is triggered while no write is under way, and so for StepKeeps, EveryRunKeeps, Isolation and the class; the code reads the list of snapshots without its lock, so a trigger during a write has no defined outcome.
- Snapshots.SnapshotState.constructor: the bitmap has the words that all blocks need, where the code allocates fewer bytes unless the number of blocks is a multiple of 64.
- Snapshots.SnapshotState.CopyBlock: a short write to the file, which the code takes for a success, and sources whose size is no multiple of the block size are not modelled.
- Tiering.TieringBackend.PutBlock: the age counter is below 2^64 - 1; at that value the first descriptor would be replaced and a dirty block lost. The same bound is on GetBlock, StoreInBlock, PutData and TrimZero, and after a failed call only blocks of other bins are promised to read as before (OtherBinsKept): the code goes on after a failed write-back or metadata write, and may then have lost what the bin held.
- TieringModel.EveryRunIsPlain: runs in which every device call succeeds.
- Tiering.TieringBackend.constructor: mismatched block sizes and too small metadata, which the code refuses, are preconditions; a metadata device with more bins than the fast store has blocks, which the code accepts, addresses blocks beyond the fast store's end. Metadata left by an earlier session is covered only as a good state, since the age counter restarts at 0.
- StorageBackends.StorageBackend.GetData: how many blocks are read in one call, and that a write of a whole block does not read it first, is not promised; the bytes are the same.
- StorageBackends.StorageBackend.PutData: a plain backend, for which starting and ending a transaction does nothing; the layers that give these a meaning have their own methods.
- StorageBackends.StorageBackend.TrimZero: a trim is carried out as a whole or not at all; the branch for systems without fallocate, which writes zeros piece by piece and can fail halfway, is not modelled, and neither is a journal over a file backend whose mirrors fail.
- JournalLatePush.PrefixExactly: for one late push to a block that no other log entry is for; in the other cases LateView, LateBlock and RecoveredAfterMany say what is read.
- StorageBackends.MirroredBackend.PutData: mirrors are plain backends; mirrors of mirrors, and forwarding from the journal, deduplicating, tiering and snapshot layers, are not modelled.
- Flush intervals, condition variables and wake-ups: a commit may happen whenever something is pending.
- The journal's use of different lock groups for put_data and trim_zero: byte-range operations on one journal do not overlap here.
- Allocation failures, ownership and freeing of memory.
- Servers, sockets, network block protocols, configuration, logging, statistics and time.
- The internals of compression, digests, checksums and the database library, which are functions and maps with stated contracts.
- The compressed-directory, remote and other leaf backends: they would add only easy members.
