# A verified model of the shared-memory NVRAM store

The library keeps a key-value store in a POSIX shared-memory segment that every process maps. Writers take a SysV lock;
readers take none, and detect writers by even/odd counters. Each process keeps private copies validated by the same
counters. Nothing reaches the disk until a commit, which writes a batch of files in three phases. This project models
those layers in Dafny and proves what each one promises, and that each one is what the layer above takes it to be.

The layers, from the inside out, and the files that hold them:

* **Segment as a data structure.** `Layout`, `Index` and `Operations` give the open-addressed index, the bump arena
  and every operation on them as functions of the segment's state, with the source's constants (8192 buckets, 4096
  counters, 64 probes, a 1 MiB arena) and an arbitrary nonzero hash, so that every collision pattern is covered.
  `Refinement`, `Compaction`, `MapRefinement` and `Accounting` prove that these act as operations on a finite map with
  dirty flags. `WrappedChain` is the one way they do not. `Segment` is the class over arrays that changes the segment in
  place, with the source's loops, proved equal to those functions.
* **Segment as shared memory.** `Stores` breaks each operation into its single stores, `Discipline` states the rule
  every store obeys, `Seqlock` is the transition system of one lock holder's stores against any number of readers'
  loads, with death at any step, and `LockFreeRead` proves the read protocol over every run. `ReclaimRace` shows why its
  one hypothesis is needed. `WriterDeath` covers what a writer killed between two stores of an overwrite or a removal
  leaves behind, and `ClaimDeath` one killed while claiming a bucket; either starts from whatever earlier deaths of that
  kind have left. `SmallTables` holds the inputs on which the race and the loss happen.
* **Private copies.** `SoundRuns` proves where compactions begin in such runs and that the table stays sound, and
  `CacheHits` carries the read protocol on to cached copies over them. `Cache` holds the buffers handed to callers,
  `Store` one process's get, set, unset and clear over the segment and the cache. `Coherence` is a coarser machine, of
  every process's copies at once, in which a read is one step; `CacheLayers` proves that its write windows are the
  segment's own operations.
* **Disk.** `Names` says which keys can be files, `FileSystem` is a filesystem that may crash, `CommitProtocol`,
  `CommitSafety` and `CommitTheorem` are the commit and clear protocols of any number of processes over every run, from
  any state of the files. `CommitOutcome` proves what a commit publishes and returns, exactly, from which of its calls
  fail, `CommitTemps` what it leaves lying about, and `CommitProgress` that it comes to an end and can succeed.
  `QuietCommit` is the commit that meets no other write, and heals files that others have removed or cut short;
  `ClearOutcome` says what a clear returns and leaves. `Layers` proves that the steps of that protocol are the segment's
  own operations, and `Reboot` covers populating a new segment from the disk, in which `StorableNames` proves there are
  no names but those of storable keys. `CrowdedReboot` is the one way that fails.
* **Enumeration.** `Getall` packs every live pair into a caller's buffer, and parses it back.

The main results are `CompactKeepsMeaning` and `UnwrappedIsLossless`, `PutRefinesExactly` and `PutFailsExactly`,
`ReadIsAtomic`, `CacheHits.HitIsCurrent`, `RepairedReadIsLookup`, `DeathWhileOverwriting` and `ClaimSparesExactly`,
`NothingLost`, `CrashIsAtomic`, `CommitEnds`, `CommitFinishes`, `QuietCommitHeals`, `ClearEnds`, `NoDeadlock`,
`RebootRoundTrip`, `Store.Set`, `GracePeriod` and `ParseUndoesGetAll`.

Eight things the source's comments promise turn out to hold only under a condition:

* *Compaction keeps everything worth keeping* holds exactly when every re-insertion finds a bucket
  (`Compaction.CompactKeepsMeaning`). It always does when no probe chain wraps past the end of the table
  (`Compaction.UnwrappedIsLossless`), and `WrappedChain.CompactionCanDrop` is a table for which it does not.
* *A put that fails changes nothing* holds exactly when the compaction it needed, if any, lost nothing
  (`MapRefinement.FailedPutKeepsMap`, `WrappedChain.FailedPutCanLoseKey`).
* *A lock-free read that passes its counter checks is not torn* holds when no clean tombstone with the key's hash is
  reclaimed by a writer in another slot during the read (`LockFreeRead.ReadIsAtomic`). `ReclaimRace.ReclaimedReadIsWrong`
  shows that, otherwise, the reader returns another key's value as its own, and `ReclaimRace.ReclaimedHitIsWrong` that
  every cache hit after that returns it too. So a hit is current under the same condition (`CacheHits.HitIsCurrent`).
  `SmallTables.RaceHappens` is a table, a reader and a set for which it happens.
* *A writer that dies leaves every other key as it was* holds in a claim exactly when the tombstone claimed is not one
  that comes before the other key's bucket, carries its full hash, and would match it at its old length once given the
  new key's offset (`ClaimDeath.ClaimSparesExactly`). `SmallTables.HidingHappens` is a table on which a live,
  uncommitted key is lost.
* *A copy whose counter has not moved is current* holds through a put that compacts exactly when the compaction
  re-inserts that key's value: what it drops, it drops behind the key's counter (`ProcessStore.PutKeepsGood`).
* *A store that was committed comes back after a reboot* holds exactly when no key meets a full probe range in the order
  the files are listed (`Reboot.RebootRoundTrip`). `CrowdedReboot.RebootCanFail` is a sound table and a listing of its
  files for which populating fails.
* *A writer that dies leaves at worst a value that reads empty*: it can also leave a new value that is not owed to the
  disk, having died between the value's length and the dirty flag (`WriterDeath.OverwriteCanGoUnowed`). A key that had no
  value gets one only with its debt, and a removal is never left unowed (`ClaimDeath.DeathWhileClaiming`,
  `WriterDeath.DeathWhileOverwriting`, `WriterDeath.DeathWhileRemoving`).
* *A clear that returns true has emptied the store* holds exactly when no removal of a file failed, since a failure to
  remove one is passed over (`ClearOutcome.ClearEnds`).

A hash is a parameter `h`. Process identities, which files can be read, whether a lock can be had, and whether a
filesystem call succeeds are parameters or free choices of a step.

## Model

| member | source | states |
|---|---|---|
| Layout.NextOdd | src/shm.rs:484-486 | The opening value of a counter is odd and larger, whatever its parity was. |
| Layout.NextEven | src/shm.rs:489-491 | The closing value of a counter is even and larger, whatever its parity was. |
| Index.ProbeFound | src/shm.rs:394-410 | A key at probe distance below the limit, with no gap before it, is found, whatever claimable tombstones lie ahead of it. |
| Index.ProbeStops | src/shm.rs:389-425 | Where a probe stops and why: at the key, at the first gap, or after every bucket; what it offers is empty or a clean tombstone in range; none is offered only if there is none. |
| Index.ProbeFinds | src/shm.rs:389-425 | In a sound table every entry in use is found, in its own bucket, by probing for its key. |
| Index.ProbeExact | src/shm.rs:386-388 | In a sound table a probe reports a key found exactly when some bucket holds it. |
| Index.LookupIsAbs | src/shm.rs:442-460 | Looking a key up in the table is looking it up in the finite map. |
| Refinement.RewriteKeepsInv | src/shm.rs:602-673 | Rewriting one bucket for one key keeps keys unique, entries reachable, regions allocated and bytes accounted for. |
| Refinement.RewriteUpdatesMap | src/shm.rs:602-673 | Rewriting the bucket of a key updates or removes that key in the map and no other. |
| Refinement.OfferedBucket | src/shm.rs:413-424 | The bucket offered for a missing key is claimable and in range, has no gap before it, and no bucket holds the key. |
| Refinement.PutLockedRefines | src/shm.rs:602-642 | With the space reserved neither allocation can fail, and the key gets the value and keeps its debt to the disk. |
| Refinement.RemoveRefines | src/shm.rs:645-673 | Removing succeeds exactly for a live key, and leaves an owed deletion, or nothing when nothing is owed. |
| Compaction.WipedIsEmpty | src/shm.rs:738-751 | A wiped segment stands for the empty map and holds no bytes. |
| Compaction.ReinsertAllRebuilds | src/shm.rs:753-786 | What re-inserting a list of entries yields, dropped ones included; nothing is dropped exactly when each finds a bucket. |
| Compaction.CompactKeepsMeaning | src/shm.rs:699-789 | Compaction restores the whole invariant; values, flags and owed deletions are all kept exactly when every re-insertion finds a bucket; it never invents or changes an entry. |
| Compaction.UnwrappedIsLossless | src/shm.rs:753-758 | With no wrapped chain compaction drops nothing, and each entry lands between its first bucket and the one it was in. |
| WrappedChain.CompactionCanDrop | src/shm.rs:755-758 | A sound table with one wrapped chain from which compaction drops a live, uncommitted key. |
| WrappedChain.FailedPutCanLoseKey | src/shm.rs:677-693 | A put that fails and has changed the map, because it compacted. |
| MapRefinement.HoldsValueIsMap | src/shm.rs:577-588 | The no-op test of a put is true exactly when the map holds that value. |
| MapRefinement.EnsureSpaceRefines | src/shm.rs:677-693 | Reserving keeps the map and succeeds exactly when the kept bytes and the request fit. |
| MapRefinement.ReservesInBounds | src/shm.rs:677-693 | A reservation changes nothing while the request fits and at most a quarter of the arena is garbage; otherwise it compacts, and leaves no garbage. |
| MapRefinement.PutRefines | src/shm.rs:558-600 | With no compaction, or one that loses nothing, a put is a map update when it succeeds and leaves the map and flags alone when it fails. |
| MapRefinement.PutRefinesExactly | src/shm.rs:558-600 | A put is that map update, or changes nothing when it fails, exactly when the compaction it needed re-inserted every entry other than one the put itself replaces. |
| MapRefinement.PutAfterReserving | src/shm.rs:592-600 | What a put makes of the map its reservation left, whether or not compaction lost anything. |
| MapRefinement.FailedPutKeepsMap | src/shm.rs:590-594 | A failed put leaves the map alone exactly when the compaction it needed, if any, lost nothing. |
| MapRefinement.PutFailsExactly | src/shm.rs:590-600 | A put with a change to make fails exactly when it does not fit in what reserving left, or no bucket is claimable within the probe limit; it does not fit exactly when it does not fit beside the bytes worth keeping, unless compaction gave up an entry. |
| MapRefinement.ClearRefines | src/shm.rs:792-820 | Clearing empties the map, moves every counter on and leaves each even. |
| MapRefinement.RetireRefines | src/shm.rs:924-934 | Retiring one entry settles its debt if its counter has not moved, and otherwise changes nothing. |
| MapRefinement.SnapshotExact | src/shm.rs:863-911 | A snapshot lists exactly what the disk is owed, with the value and counter of that moment, each key once. |
| MapRefinement.LivePairsExact | src/shm.rs:826-847 | Enumeration visits exactly the live pairs of the map, each key once. |
| Accounting.PutAccounts | src/shm.rs:369-382 | Allocated bytes are those of entries in use, garbage, and the key bytes of reclaimed tombstones, through every put. |
| Accounting.OthersAccount | src/shm.rs:645-673 | Removing, retiring and clearing lose no bytes. |
| Accounting.OperationsKeepDisjoint | src/shm.rs:558-673 | Every operation keeps all key and value regions apart. |
| Accounting.CompactDisjoint | src/shm.rs:753-786 | Compaction leaves all regions apart. |
| SharedSegment.Segment.constructor | src/shm.rs:213-223 | A new segment stands for the empty map, all its bytes zero. |
| SharedSegment.Segment.ArenaAlloc | src/shm.rs:369-382 | Bump allocation copies in at the old end, or refuses and changes nothing. |
| SharedSegment.Segment.ProbeFor | src/shm.rs:389-425 | The probe loop computes the probe. |
| SharedSegment.Segment.ReadValue | src/shm.rs:431-470 | With nobody writing, a read is torn exactly when a counter is odd, and otherwise is the lookup. |
| SharedSegment.Segment.SeqBegin | src/shm.rs:494-499 | Opening a window moves this slot's counter and no other. |
| SharedSegment.Segment.SeqEnd | src/shm.rs:502-508 | Closing a window moves this slot's counter and no other. |
| SharedSegment.Segment.Repair | src/shm.rs:533-543 | Repair makes odd counters even, touches nothing else, and says whether it changed anything. |
| SharedSegment.Segment.CollectKeeps | src/shm.rs:701-733 | The first half of compaction collects every entry worth keeping. |
| SharedSegment.Segment.Wipe | src/shm.rs:738-751 | The wiping loop empties index and bookkeeping, and leaves the arena bytes. |
| SharedSegment.Segment.ReinsertOne | src/shm.rs:753-786 | One re-insertion, with each way it can give up. |
| SharedSegment.Segment.CompactNow | src/shm.rs:699-789 | The compaction loops compute the rebuilt segment, under the compaction counter. |
| SharedSegment.Segment.Reserve | src/shm.rs:677-693 | Compacts when the request does not fit or garbage exceeds a quarter of the arena. |
| SharedSegment.Segment.WriteLocked | src/shm.rs:602-642 | The stores made under the counter compute the written bucket; a claimed tombstone's key bytes are counted. |
| SharedSegment.Segment.PutValue | src/shm.rs:558-600 | A put in place keeps the representation and is the map update. |
| SharedSegment.Segment.RemoveKey | src/shm.rs:645-673 | A removal in place keeps the representation and is the map's deletion. |
| SharedSegment.Segment.ClearAll | src/shm.rs:792-820 | Clearing in place empties the map and moves every counter. |
| SharedSegment.Segment.LiveEntries | src/shm.rs:826-847 | The enumeration loop returns every live pair once. |
| SharedSegment.Segment.CommitSnapshot | src/shm.rs:863-911 | The snapshot loop returns exactly what the disk is owed. |
| SharedSegment.Segment.CommitWriteback | src/shm.rs:924-935 | The write-back loop retires each entry whose counter has not moved. |
| SharedSegment.PutReclaims | src/shm.rs:416-421 | A put that fails has claimed no tombstone. |
| Stores.PutApplies | src/shm.rs:596-641 | The single stores of a put, made in order, compute the put. |
| Stores.RemoveApplies | src/shm.rs:662-672 | The single stores of a removal compute the removal. |
| Stores.CompactApplies | src/shm.rs:735-788 | The single stores of a compaction compute the compaction. |
| Stores.ClearApplies | src/shm.rs:793-818 | The single stores of a clear compute the clear. |
| Stores.RepairApplies | src/shm.rs:533-543 | The single stores of a repair compute the repair. |
| Stores.WritebackApplies | src/shm.rs:924-935 | The single stores of a write-back compute the write-back. |
| Discipline.ScriptApplies | src/shm.rs:558-935 | Uninterrupted, an operation's stores compute the operation. |
| Discipline.SafePut | src/shm.rs:558-642 | From any segment a death outside compaction may leave, every store of a put obeys the discipline. |
| Discipline.SafeRemove | src/shm.rs:645-673 | Every store of a removal obeys the discipline. |
| Discipline.SafeCompact | src/shm.rs:699-789 | Every store of a compaction obeys the discipline, and it ends sound. |
| Discipline.SafeClear | src/shm.rs:792-820 | Every store of a clear obeys the discipline, and it ends sound. |
| Discipline.SafeOp | src/shm.rs:484-673 | Every operation's stores are disciplined: counters only grow, a live bucket changes only while its key's counter is odd, arena bytes are written only past the used part. |
| Seqlock.NextKeepsInv | src/shm.rs:484-543 | Each load, store, acquisition, release or death keeps the lock discipline. |
| Seqlock.RunKeepsInv | src/shm.rs:484-543 | The lock discipline holds in every reachable state. |
| Seqlock.CountersGrow | src/shm.rs:474-491 | Over every run, deaths included, each counter only grows. |
| Seqlock.WindowIsOdd | src/shm.rs:494-508 | A counter is odd throughout every write window and even after it, even if a dead writer left it odd. |
| Seqlock.ArenaWindowIsOdd | src/shm.rs:735-788 | The compaction counter is odd throughout a compaction or the wiping of a clear, and even after it. |
| Seqlock.CompactionMovesNoCounter | src/shm.rs:735-788 | A compaction is one such window, and nothing in it moves any counter. |
| Seqlock.StoresAreAnnounced | src/shm.rs:484-508 | In every reachable state the holder's next store to a live bucket's value, status, key or hash is made under an odd counter of that bucket's key, or an odd compaction counter. |
| Seqlock.BodiesMoveNoSlot | src/shm.rs:602-673 | No store inside a put's or removal's window moves a slot counter. |
| Seqlock.CalmStore | src/shm.rs:602-673 | A disciplined store made while a key's counters are even changes nothing a search for that key depends on. |
| Seqlock.CalmLookup | src/shm.rs:389-470 | A change of that kind leaves what the key reads as unchanged. |
| LockFreeRead.LoadKeepsFacts | src/shm.rs:442-460 | Each load of a read carries what the reader knows to its next load. |
| LockFreeRead.ReadIsAtomic | src/shm.rs:431-470 | Over every run, a read that is not torn returns what its key held at every data load between its counter loads, and the counters stood even there as the reader first found them; no matching tombstone being reclaimed from another slot meanwhile. |
| LockFreeRead.QuietReadFinishes | src/shm.rs:431-470 | With nobody writing the loads of a read come to an end: torn if a counter is odd, and otherwise exactly what a search finds, whatever dead writers have left. |
| LockFreeRead.ChangeIsAnnounced | src/shm.rs:484-524 | A key's reading changes only while its own counter, or the compaction counter, is odd. |
| ReclaimRace.PutClaims | src/shm.rs:416-421 | What a put leaves in the tombstone it claims; only its own key's counter moves. |
| ReclaimRace.ReclaimedReadIsWrong | src/shm.rs:446-450 | A reader paused on its key's clean tombstone while another slot's put claims the bucket returns that put's value, though its key never had one. |
| ReclaimRace.ReclaimedHitIsWrong | src/store.rs:158-189 | That reader's get records the wrong value with the counter it loaded, which the put leaves standing, so every later get is a hit on it. |
| CacheHits.RunKeepsClearInv | src/shm.rs:792-820 | In every reachable state a clear under way has every counter still to move, until it has wiped the table. |
| SoundRuns.CompactionIsPut | src/shm.rs:677-697 | Over every run, deaths included, a compaction begins as that of a put that needs one, at its first store. |
| SoundRuns.ResultKeepsInv | src/shm.rs:558-935 | Every operation of a lock holder keeps the whole invariant, exact byte accounts included. |
| SoundRuns.UncutEndsSound | src/shm.rs:558-935 | In a run from a sound table in which nobody dies in the middle of an operation, every operation ends with a sound table. |
| CacheHits.ReadLandsAt | src/shm.rs:431-470 | A read that is not torn returns what its key read as at one moment between its first and last load, with both counters even. |
| CacheHits.RecordedCopyIsCurrent | src/store.rs:158-164 | A copy recorded with an even counter and what the key then read as is what the key holds for as long as the counter stands, over every run of single stores, whoever dies, whose compactions find sound tables and lose nothing. |
| CacheHits.HitIsCurrent | src/store.rs:158-189 | Over every run of single loads and stores from a sound table with no death amid an operation, what a lock-free get recorded is what the key holds at every later moment at which the counter is the recorded one and no clear is in progress, the compactions since having lost nothing. |
| CacheHits.HitStands | src/store.rs:158-189 | The same in runs with deaths, if the compactions since the read have found sound tables. |
| CacheHits.CompactionSpares | src/shm.rs:699-789 | A put's compaction of a sound table spares the reading of a key exactly when it re-inserts the key's value, if it had one. |
| CacheHits.SoundlyDropsNothing | src/shm.rs:699-789 | Where each compaction finds a sound table and re-inserts every entry, or has no wrapped chain to re-insert, and no clear is cut short, no step of the run changes a key's reading behind its counter. |
| CacheHits.CompactionSettles | src/shm.rs:677-697 | A put that compacts does so first, and the compaction ends with the rebuilt segment. |
| CacheHits.RepairedReadIsLookup | src/store.rs:206-231 | In every state of every run with deaths, a get with the lock that has repaired the counters is not torn and finds what a search finds. |
| CacheHits.LiveKeyIsServed | src/store.rs:206-231 | Such a get serves a live key whose counter has stood, committed or not, whoever has died since, the compactions since having found sound tables and lost nothing. |
| WriterDeath.DeathWhileOverwriting | src/shm.rs:614-641 | A writer killed at any store of an overwrite, of a value or of the key's own tombstone, leaves, once repaired, what was there, the new value, or empty where there was a value; a key without a value gets one only with its debt to the disk; and every other key is as it was, in a table the next writer may die in too. |
| WriterDeath.OverwriteCanGoUnowed | src/shm.rs:632-640 | A writer killed before it sets the flag leaves the new value complete and the key as clean as it was. |
| ClaimDeath.DeathWhileClaiming | src/shm.rs:616-641 | A writer killed at any store of a claim leaves its key absent, or with the new value and owed to the disk, and every other key as it was unless the claim can hide it; and a table the next writer may die in too, unless it was reclaiming a tombstone. |
| ClaimDeath.ClaimSparesExactly | src/shm.rs:389-425 | Every other key reads as before wherever in a claim the writer dies, exactly when the tombstone claimed does not come before its bucket, carry its full hash and match it at the old length once given the new offset. |
| ClaimDeath.DeathCanHide | src/shm.rs:394-410 | If the claim can hide a key, a death right after the store of the new key's offset does: searches no longer find the live key, repair or not. |
| SmallTables.RaceHappens | src/shm.rs:446-450 | A sound two-entry table, a reader that comes to its pause in seven loads, and a set from another slot after which it returns the other key's value, its recorded counter standing. |
| SmallTables.HidingHappens | src/shm.rs:394-410 | A sound two-entry table and a set of `[1, 9]` a death in which loses the live, uncommitted key `[1]`. |
| WriterDeath.DeathWhileRemoving | src/shm.rs:662-671 | A writer killed at any store of a removal leaves the old value, empty, or nothing and the deletion owed, and every other key as it was, in a table the next writer may die in too. |
| WriterDeath.RepairLeavesData | src/shm.rs:533-543 | Repair leaves the data alone, makes both counters even and no smaller, and moves no counter that did not need it. |
| PrivateCache.Entry.Install | src/cache.rs:47-65 | Installing keeps the buffer when the bytes are unchanged, and otherwise retires it for a new one. |
| PrivateCache.Entry.Invalidate | src/cache.rs:91-95 | Invalidating retires the buffer and makes the entry unusable. |
| PrivateCache.GracePeriod | src/cache.rs:14-23 | A buffer handed out stays owned, with its bytes, through one change or invalidation, and is released by the second. |
| PrivateCache.Cache.EntryFor | src/cache.rs:80-85 | A new key gets an entry of its own, not valid; a known one keeps its entry. |
| PrivateCache.Cache.Resolve | src/cache.rs:47-85 | The key's entry takes the value, its old buffer kept or retired, and no other entry is touched. |
| PrivateCache.Cache.InvalidateAll | src/cache.rs:90-96 | Every entry is invalidated, each once. |
| ProcessStore.PutKeepsGood | src/shm.rs:596-599 | A put keeps a cached copy current or recognisably stale exactly when its compaction does not give up that key's value, or the counter had moved since, or the put moves it. |
| ProcessStore.HeldSetIsFree | src/shm.rs:577-588 | Setting a value that a search finds changes nothing, and the no-op test finds it exactly when a search does, whatever dead writers have left. |
| ProcessStore.PutKeepsRaw | src/shm.rs:558-600 | A put keeps a segment in which writers have died sound enough to be searched. |
| ProcessStore.SetIsReadBack | src/shm.rs:558-600 | A put that succeeds is read back, whatever dead writers have left, unless a bucket with its full hash was left half reclaimed and no compaction clears it away. |
| ProcessStore.PutSucceedsExactly | src/shm.rs:558-642 | In any memory at all a put succeeds exactly when the value is held, or key and value fit and some bucket of the key's range holds it or may be claimed; and then, if it changed anything, its counter and no other has moved. |
| ProcessStore.SoundRefusal | src/shm.rs:590-600 | In a sound table that is failing exactly when they do not fit in what reserving left or no bucket is claimable. |
| ProcessStore.RemoveReads | src/shm.rs:645-673 | A removal changes what a search finds for its key and no other, whatever dead writers have left. |
| ProcessStore.QuietReadIsMap | src/shm.rs:431-470 | A search that meets no writer finds what the map holds. |
| ProcessStore.Store.ReadRetrying | src/store.rs:166-189 | The retry loop succeeds exactly when no counter is stuck odd, with what a search finds and the counter loaded before it, in any segment a dead writer may leave. |
| ProcessStore.Store.ReadRepairing | src/store.rs:206-231 | In any segment a dead writer may leave, under the lock, the two counters are repaired and nothing else, the read is never torn, and it is what a search finds. |
| ProcessStore.Store.Get | src/store.rs:148-242 | In any segment a dead writer may leave, a get answers with what a search finds, and leaves the key a hit on it, its old buffer kept or retired and no other entry touched; only with a stuck counter and no lock does it answer from the disk, and only with one and the lock does it repair. |
| ProcessStore.Store.Degraded | src/store.rs:244-256 | The disk's copy is served, and the entry is left not valid, so never a hit. |
| ProcessStore.Store.ValueMatches | src/store.rs:341-358 | The cached test is true exactly on a hit on that value. |
| ProcessStore.Store.Set | src/store.rs:260-305 | A set succeeds exactly when the key is storable and the value held, or, with the lock, fits and finds a bucket, over any dead writer's residue; it then leaves the key a hit on the value and, if that is new, its counter moved; a held value changes nothing; and, compaction losing nothing, the map of a sound segment is updated and the debt recorded. |
| ProcessStore.Store.Unset | src/store.rs:307-339 | An unset succeeds exactly for a storable key with the lock, leaves it without a value, a hit on that, its counter moved if it had one, and every other key as it was, in any segment a dead writer may leave; a sound one owes the disk the deletion of a key that had one. |
| ProcessStore.Store.Clear | src/store.rs:487-511 | A clear with the locks empties the map, moves every counter and leaves no cached entry usable; it returns true exactly when the files could be listed and the flush succeeded. |
| Coherence.CopyKept | src/store.rs:164-170 | Every step of every process keeps a copy no newer than its recorded counter, and current while the counter stands. |
| Coherence.NextKeeps | src/store.rs:148-339 | Each step of any process keeps every copy and every get under way good. |
| Coherence.HitIsCurrent | src/store.rs:158-164 | In the machine whose reads are one step, in every reachable state with no clear in progress, a copy whose counter is current is what the segment holds. |
| CacheLayers.HeldIsLookup | src/shm.rs:431-470 | What the machine of copies says a key holds is what a search of the segment finds. |
| CacheLayers.PutIsWindow | src/shm.rs:558-600 | A put that changes a value is one window on its own key's counter, any other is invisible to cached copies, and that is all there is to see exactly when its compaction re-inserted every value it does not replace. |
| CacheLayers.RemoveIsWindow | src/shm.rs:645-673 | A removal of a live key is one window on its counter; any other is invisible. |
| CacheLayers.RetireIsQuiet | src/shm.rs:924-934 | Retiring a dirty flag is invisible to cached copies. |
| CacheLayers.RepairIsRepair | src/shm.rs:533-543 | Repair is at most one move of the slot's counter. |
| CacheLayers.ClearIsClearing | src/shm.rs:792-820 | A clear empties the segment first and then moves the counters one by one. |
| Names.Utf8IsEncoded | src/disk.rs:45-55 | A key that passes the text test is the UTF-8 encoding (section 3 of RFC 3629) of some sequence of scalar values. |
| Names.EncodedIsUtf8 | src/disk.rs:45-55 | Every encoding of a sequence of scalar values passes the text test. |
| Names.MaxKeyLenIsTight | src/disk.rs:19-24 | The longest key allowed is exactly the longest whose temporary name fits for every ten-digit process. |
| Names.StorableExactly | src/disk.rs:26-55 | A key is accepted exactly when it is not empty, the walk of the directory hands its name on, it holds no slash, and its temporary name fits whatever ten-digit pid writes it. |
| Names.AsciiIsStorable | src/disk.rs:45-55 | An ASCII text is accepted exactly when it has 1 to 239 bytes, does not begin with a dot and holds no slash. |
| Names.TempNameFits | src/disk.rs:24-55 | A storable key's temporary name fits for any ten-digit process, is swept by loading, and is no key's name. |
| Names.TempNameInjective | src/disk.rs:143-145 | Two temporary names are the same only for the same process and key. |
| FileSystem.CreateTemp | src/disk.rs:147-154 | Writing a temporary file leaves every key's file as it was. |
| FileSystem.RenameTemp | src/disk.rs:165-178 | Publishing flushed bytes gives the key its new file, whole, and changes no other. |
| FileSystem.UnlinkKey | src/disk.rs:207-214 | Removing a key's file changes no other. |
| FileSystem.FlushKeeps | src/disk.rs:234-243 | A flush changes no file and makes the current directory and contents durable. |
| FileSystem.CrashLeavesWholeFiles | src/disk.rs:106-112 | After a crash a key's file is whole: what it held at some moment since the last flush. |
| CommitTheorem.ActKeeps | src/store.rs:283-296 | A set or unset landing anywhere in a commit stays owed. |
| CommitTheorem.SnapKeeps | src/store.rs:393-408 | A snapshot lists only keys that are dirty, or whose files others have changed, and their values now. |
| CommitTheorem.StageOneKeeps | src/store.rs:420-436 | Staging, whole or failing part way, leaves every key's file alone. |
| CommitTheorem.FlushAllKeeps | src/store.rs:438-450 | Only a flush that succeeded lets publishing begin. |
| CommitTheorem.PublishOneKeeps | src/store.rs:452-465 | Publishing one entry gives its key's file the snapshot value or changes nothing. |
| CommitTheorem.RetireOneKeeps | src/store.rs:467-475 | A flag is retired only if memory still holds what the disk now has. |
| CommitTheorem.SyncAllKeeps | src/store.rs:477 | After the last flush everything published is durable. |
| CommitTheorem.RemoveOneKeeps | src/disk.rs:217-227 | Removing files during a clear keeps the invariant, whichever file it is and whether or not the removal fails. |
| CommitTheorem.DieKeeps | src/store.rs:380-478 | A death anywhere outside a clear loses no write. |
| CommitTheorem.NextKeeps | src/store.rs:380-511 | Every step of every process keeps the whole invariant. |
| CommitTheorem.NothingLost | src/store.rs:380-478 | In every reachable state each storable key without a dirty flag, and whose file nobody else changed or failed to remove, has on disk what it has in memory, and every dirty key is storable. |
| CommitTheorem.CrashIsAtomic | src/store.rs:414-477 | At every moment of every run a crash leaves each key's file whole; from the start of any commit's publishing until it returns, that is what a crash just before the publishing could have left, or the snapshot value, absent for a deletion. |
| CommitTheorem.TrueMeansDurable | src/store.rs:477 | When a commit returns true every entry of its snapshot survives any crash. |
| CommitTheorem.ClearStaysCleared | src/store.rs:487-511 | While a clear holds the commit lock no commit holds a snapshot, so none recreates a file; the only files are those that could not be removed. |
| CommitTheorem.ClearEmpties | src/store.rs:502-505 | Once every removal has been tried the store is empty in memory, and on disk but for what could not be removed. |
| CommitTheorem.UnblockedCanStep | src/store.rs:388-505 | A process that waits for no held lock has a step to make. |
| CommitTheorem.NoDeadlock | src/store.rs:489-501 | No reachable state has every process blocked on the two locks. |
| CommitOutcome.CommitEnds | src/store.rs:393-477 | A commit returns true exactly when none of its calls failed; it publishes exactly the entries for which none did, one failure holding no other back; the file of each is its value then, of every other key what it was; and each published entry whose counter stands is clean. |
| CommitOutcome.PublishedSurvives | src/store.rs:438-477 | If its flushes succeeded, what a commit published survives any crash, though other entries failed. |
| CommitTemps.CommitLeavesNoTemp | src/store.rs:438-465 | A commit that returns, whatever it returns, has left none of its temporary files unless a removal failed. |
| CommitProgress.StepNearer | src/store.rs:393-477 | Every step of a commit, failing or not, brings it nearer its end. |
| CommitProgress.CanProceed | src/store.rs:393-477 | A commit without a failure so far has a step to make that does not fail, unless another process holds the writer lock. |
| CommitProgress.CommitFinishes | src/store.rs:393-477 | From wherever it has got to without a failure, with nobody else holding the writer lock, it can go on by its own steps to returning true. |
| ClearOutcome.ClearEnds | src/store.rs:499-510 | A clear returns true exactly when it could list the files and its last flush succeeded; then, whatever crash follows, the files left are exactly those it failed to remove. |
| ClearOutcome.NoNewStrays | src/disk.rs:217-227 | Only a clear that cannot list or remove files leaves any that memory does not hold. |
| Layers.PutIsSet | src/shm.rs:558-600 | The segment's put is the protocol's set, outcome and counters included, exactly when its compaction re-inserted every entry other than the one it replaces. |
| Layers.RemoveIsUnset | src/shm.rs:645-673 | The segment's removal is the protocol's unset. |
| Layers.SnapshotIsSnap | src/shm.rs:863-911 | The segment's snapshot is what the protocol says is owed, which `QuietCommit.SnapshotLists` spells out. |
| Layers.RetireIsRetire | src/shm.rs:924-934 | The segment's write-back of one entry is the protocol's. |
| Layers.ClearIsClear | src/shm.rs:792-820 | The segment's clear is the protocol's. |
| Layers.QuietCommitSettles | src/store.rs:393-475 | With nobody else about, writing back a whole snapshot leaves no debt and every value as it was. |
| Layers.HeldSetsWriteNothing | src/shm.rs:562-588 | Any sequence of sets to values already held changes no byte, flag or counter; the next commit writes nothing exactly when nothing was owed. |
| QuietCommit.SnapshotLists | src/disk.rs:196-205 | A snapshot lists a key exactly when it is dirty, or is live and storable and its file is missing or of another length than its value; with its value and counter of that moment. |
| QuietCommit.RunQuiet | src/store.rs:393-477 | From a commit's snapshot on, while no set or unset changes anything, values and counters are what they were and no key becomes dirty, whatever else runs. |
| QuietCommit.QuietCommitHeals | src/store.rs:393-477 | Such a commit returns true exactly when none of its calls fails; then nothing is dirty, and each live key whose file was missing or of another length, whoever had touched it, has its value for a file again. |
| QuietCommit.QuietCommitCommits | src/store.rs:393-477 | A commit during which no set or unset changes anything, whatever else runs, and which returns true leaves nothing dirty. |
| Reboot.LoadAll | src/disk.rs:69-97 | Loading reads exactly the files that can be read and whose names are text and no dot files, sweeps every temporary file of a storable key, and leaves every other file. |
| Reboot.PopulateRebuilds | src/store.rs:72-101 | Every put of a populate lands exactly when the files fit and each finds a bucket, and then the map is the files, nothing owed. |
| Reboot.Fill | src/store.rs:82-89 | The populate loop puts every pair and remembers any failure. |
| Reboot.Create | src/shm.rs:225-236 | A segment is ready only if every put landed, and then holds what the disk held. |
| Reboot.LivePairsFit | src/shm.rs:677-693 | Pairs that a sound segment holds fit in the arena. |
| Reboot.CommittedSurvives | src/store.rs:477 | With nothing dirty after a true commit, what any crash leaves is, for every storable key, what memory held. |
| Reboot.CommittedFits | src/store.rs:72-101 | The files a committed store leaves fit in a new segment. |
| StorableNames.CrashLeavesStorable | src/disk.rs:69-97 | From a directory with no visible name but storable keys, no run and no crash leaves any other. |
| Reboot.PopulateRestores | src/store.rs:72-101 | The same round trip from whatever files fit, other visible names among them. |
| Reboot.RebootRoundTrip | src/store.rs:72-101 | After a true commit that left nothing dirty, with no stray file, losing the segment and any crash, the files fit, and populating a new segment from them in any listed order rebuilds the committed map, nothing owed, exactly when no key meets a full probe range on the way. |
| CrowdedReboot.RebootCanFail | src/store.rs:82-101 | A sound segment of 65 storable keys, far from full, and a listing of their files from which populating fails. |
| Getall.Packer.Emit | src/store.rs:527-547 | One record is added whole, or nothing is and overflow is remembered. |
| Getall.AllFit | src/store.rs:531-535 | Every record is emitted exactly when all their sizes plus one fit. |
| Getall.FittingFits | src/store.rs:531-535 | Otherwise as many are emitted as fit: the next would not. |
| Getall.GetAll | src/store.rs:518-568 | True exactly when everything fits; the buffer holds whole records and a terminator, and no other byte is touched. |
| Getall.ParseUndoesGetAll | tests/common/mod.rs:158-173 | Parsing gives back the records that fitted; on success every live pair exactly once, split back into its pair when its key has no `=`. |
| Getall.ParseAll | tests/common/mod.rs:158-173 | The reader of a packed buffer returns the records up to the first empty one. |

## Left out

- Weak memory ordering: loads and stores are sequentially consistent, fences do nothing, and a copy of arena bytes is a sequence of single-byte loads or stores.
- Counter width: counters are unbounded naturals, so the wrap at 2^64 is not modelled; `global_gen`, which nothing reads, is absent.
- FNV-1a: the hash is any function to positive numbers.
- System calls: mapping, semaphores, retries on EINTR and `syncfs` are atomic acquire, release (also on death) and flush steps; a lock that cannot be had is a parameter of the `Store` methods, and in the machines is covered by a process that dies.
- LockFreeRead.ReadIsAtomic: assumes that no clean tombstone carrying the reader's full hash is reclaimed by a writer in another slot between its counter loads while both stand even, nor had one been left half reclaimed by a dead writer when the read began with both even, because `probe` lets another slot's writer claim it; `ReclaimRace.ReclaimedReadIsWrong` is what happens otherwise.
- CacheHits.HitIsCurrent: assumes the same of reclaimed tombstones from the read to the hit; a copy recorded at an odd counter, as a set or unset that changes nothing over a dead writer's residue may do, is covered only in `Coherence`.
- CacheHits.HitStands: says nothing of a compaction that begins in a table whose byte accounts or buckets a dead writer has left unsound.
- Seqlock: a writer does not die inside a compaction or a clear, which lose data by design; the reader's load of a bucket's dirty flag, whose result it never uses, is not a step, and the loads made under the lock are part of the store that follows them.
- ClaimDeath.ClaimSparesExactly: starts from a sound table or what deaths in overwrites, removals and claims of empty buckets leave; after a death in the middle of reclaiming a tombstone only `Discipline.RawInv` and what follows from it is proved.
- MapRefinement.PutRefines: the map update is stated for compactions that lose nothing; `MapRefinement.PutRefinesExactly` says exactly when it holds, and `MapRefinement.PutAfterReserving` what happens in general.
- ProcessStore.Store.Set: the update of the map is stated for sound segments and compactions that lose nothing; over a dead writer's residue only what the key itself then reads as, and that the segment can still be searched.
- Coherence.HitIsCurrent: the segment appears as what its keys hold and its counters, and a lock-free read as one step at the moment `CacheHits.ReadLandsAt` gives; the theorem over single loads and stores is `CacheHits.HitIsCurrent`. A compaction that loses an entry, a reclaimed tombstone, and states inside a clear, are not in the machine.
- ProcessStore.Store.Get: as a method it runs with no other process between its steps; interleavings are in `Seqlock` and `Coherence`.
- ProcessStore.Store.Clear: file removal is in `CommitProtocol` and `ClearOutcome`, not in the method.
- CommitProtocol: a set, unset, snapshot or clear of the segment is one step, since the writer lock is held for all of it (`Layers` ties each to the segment); death in the middle of a clear is excluded.
- CommitTheorem.NothingLost: files may have been changed by others before the run, and `strays` names those it says nothing of; others do not change files during it. A stray file of its value's length, which `differs_on_disk` cannot see, is never healed.
- Detached processes: reading and writing the disk directly, `write_atomic`, `adopt` and reattach throttling.
- Reboot.Create: one initialiser; unlinking a stale name and concurrent `init` calls are not modelled, nor is the device-number check. A file that cannot be read is skipped and the segment is still published, as in the source.
- Reboot.PopulateRebuilds: for files that do not all fit, it takes compactions on the way to lose nothing.
- Reboot.RebootRoundTrip: takes the directory to have held no visible name but storable keys when the run began, no file to be a stray when it is over (`ClearOutcome.NoNewStrays`), and the old segment's operations to be those of the protocol (`Layers`).
- FFI wrappers, C string conversion, `parse_int`, path overrides and test hooks.
