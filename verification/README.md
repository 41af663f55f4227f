# A verified model of the blob store

The store keeps blobs under keys in namespaces. A blob is split into chunks; equal
chunks are stored once and counted. An index maps keys to blob manifests and chunks to
pages of append-only segment files. Compaction flags dead pages (phase 1) and rewrites
segments (phase 2). Uploads can be resumed through a staging area. This project models
the index transactions, the segment engine, the store's orchestration and the upload
tracker in Dafny, and proves what they promise.

`dafny verify dfyconfig.toml` checks everything.

## How the model is built

| files | what they hold |
|---|---|
| `Base`, `Records` | shared vocabulary, sums over maps, the index records |
| `IndexSpec`, `Index` | each index transaction as a function, and as the loops that run it |
| `DoubleEntry`, `Ledger`, `IndexRuns` | reference counts against claims, statistics against tables, over all runs |
| `MemTx` | the in-memory backend's transactions |
| `Disk` | segment files as pages; writing, reading and marking chunks |
| `StoreMachine`, `StoreInvariant`, `StoreSteps`, `StoreRuns`, `StoreRefinement`, `StoreReaders`, `StoreFates` | the store as a machine of atomic steps with its log, its invariant, the refinement of a map, readers beside it, and what becomes of every chunk |
| `ReplaySpec`, `Replay`, `ReopenSpec`, `Reopening`, `Recovery` | replay of the log, what reopening leaves in order, and what that means for keys |
| `StoreLimits`, `ReopenWitness`, `SweepWitness`, `RelocationWitness` | where the limits are, with runs that reach them |
| `SweepLedger`, `SweepQueue`, `Bookkeeping`, `RelocationSteps`, `Relocations`, `Namespace` | one namespace with one operation at a time, as code with loops, on chunks of any size |
| `Quota`, `Guards` | quotas, the two levels of locks |
| `ChunkReader` | the seekable reader |
| `LittleEndian`, `Parsing`, `Wal`, `WalFile`, `WalTears` | the log codec, and what a torn entry does to those behind it |
| `PageFormat`, `Pages`, `FileRuns`, `SegmentFile`, `PageRefinement` | the bytes of a segment file, and that they hold the pages of `Disk` |
| `Allocator` | where chunks are placed |
| `RangeSet`, `Words`, `Blocks`, `Bitmap`, `MarkRace` | interval set, bitmap and its race |
| `UploadSpec`, `Upload`, `UploadPieces`, `UploadWitness` | upload sessions, and what their piece check is worth |

A content address is modelled by the content itself, so SHA-256 counts as collision-free;
the checksum is any function. A chunker is any split of the input into nonempty pieces
that join to it. Integers are unbounded except where the width matters: in the log, in
page headers and in Seek they are 64-bit with wrap-around.

## Premises

The code does not enforce these, and without them the stronger claims are false. Where
there is an exact condition it is proved as an if-and-only-if.

- One namespace for reference counts (`DoubleEntry.PutKeepsDoubleEntryIff`).
- One chunk list per content, that is one chunker configuration (`DoubleEntry.PutNeedsOneChunkListIff`).
- A manifest counts at least its refs, not exactly (`DoubleEntry.PutKeepsExactIff`).
- Chunks of one page for phase 2 (`StoreLimits.CopyReadsBackIff`) and for phase 1 beside other operations (`StoreLimits.LivePageVerdict`). Everything else holds for chunks of any number of pages.
- `WriteBlob` up to `CommitPut` is one step towards phase 1 (`StoreLimits.UncommittedPageIsReaped`).
- Every open replays the log, and that can leave chunks in disorder: counted too low, or with a record at a page that is flagged or gone. Which ones is known exactly before the open (`Reopening.SoundAfterCrashIff`). Runs may reopen as often as they like: which keys read afterwards is `StoreFates.StoreReadsIff`, for every key. The other claims about such runs are for all other chunks (`StoreRuns.Tainted` collects the exceptions, `StoreRefinement.CleanStoreIsMap` is the case without any).
- The premises can be met: `StoreLimits.PagewiseChunkerIsValid` gives a chunker for every page size, `ReopenWitness.WitnessesExist` and `SweepWitness.DoublesExist` contents for the runs below.

## What the proofs found

- A delete takes no namespace guard, so it can commit between the read and the write of one relocation in phase 2. Its decrement is then overwritten, and the chunk is never freed (`RelocationWitness.ChunkIsNeverFreed` is such a run; over any run the excess is exactly these losses, `StoreLimits.RunGap`, and there is none exactly if no delete came in between, `StoreLimits.BooksKeptIff`).
- Phase 2 emits one entry per page, so a relocated chunk of several pages can no longer be read (`StoreLimits.CopyReadsBackIff`).
- Replay registers every logged blob that has no manifest, also one that was deleted and compacted. Its page is flagged by then, and a later put of the same content is deduplicated onto it: the put succeeds and the key cannot be read (`ReopenWitness.PutAgainIsUnreadable`; exactly when, `Recovery.PutAfterReopenReadsIff`).
- Worse, such an entry may list a chunk that a live key shares. Replay then moves that chunk’s record to the purged blob’s own copy, which was flagged as a duplicate when it was written, and the live key can no longer be read (`ReopenWitness.UntouchedKeyIsLost`; exactly when, `Recovery.GetAfterReopenIff`).
- Replay sets counts to one. Where a chunk occurs twice, or is claimed already, it ends up counted too low (`Replay.ReplayBooksIff`). Once the claims have fallen to that shortfall, the next sweep takes the chunk from the keys that still need it (`SweepWitness.LiveChunkIsSwept`; exactly when, `Shortfalls.SweepTakesIff`).
- A log with a torn tail is opened for appending as it is. Entries written later stand behind the torn one and can be lost, or the torn one is read with a false place (`WalTears.LaterEntriesLostIff`, `WalTears.TornPlaceIsMisreadIff`).
- The comment on ParseWAL says a chunk's sequence number is parsed from its id; the code takes the position in the entry, and the model follows the code.
- A segment can exceed MaxSegmentSize - 1 by more than one chunk exactly when MaxSegmentSize is at most 128 (`AllocatorRuns.NominalBoundIff`).
- A piece that has been verified is not checked again: a later chunk may replace its bytes and Complete still succeeds (`UploadWitness.ReplacedBlockCompletes`; a completed file matches its piece hashes exactly if that has not happened, `Uploads.AlignedSession.Complete`). In a session without block size a chunk is written before its checksum is looked at, so a refused chunk has already overwritten what was there, and the checksum of a chunk whose range is already received is not looked at (`RangeUploads.RangeSession.WriteChunk`). With a block size the announced checksum of the whole file is never looked at, pieces or not (the same two).

## Model

| member | source | states |
|---|---|---|
| `IndexStore.Index.DecrementChunkRef` | index/index.go:762-790 | one reference is taken off a chunk, never below zero; the length is reported exactly when the count reaches zero; a missing record is no error |
| `IndexStore.Index.UpsertBlob` | index/index.go:594-625 | an indexed manifest is kept and counted once more, a new one starts at one |
| `IndexStore.Index.ReleaseBlob` | index/index.go:627-661 | the replaced manifest loses a reference and each of its chunks one per occurrence; the dead bytes and chunks reported are those that reached zero; without a manifest nothing moves |
| `IndexStore.Index.UpsertChunks` | index/index.go:690-728 | the loop over new chunks: own records are counted again, revivals and reused duplicates are reported, foreign or missing records are replaced with count one |
| `IndexStore.Index.CommitPut` | index/index.go:557-760 | the whole new index state and the reused duplicates are those of the specification function whose gaps, ledgers and runs the lemmas below are about |
| `IndexStore.Index.CommitDelete` | index/index.go:792-852 | found exactly if the ref exists, and then the whole new state; a missing ref changes nothing |
| `IndexStore.Index.CommitRenameRef` | index/index.go:857-886 | the ref moves, or the source is missing, or the target exists, and then nothing changes |
| `IndexStore.Index.ScanDeadBlobs` | index/index.go:231-246 | the candidates are exactly the manifests with no references |
| `IndexStore.Index.PurgeBlob` | index/index.go:248-281 | the transaction checks the count again and removes the manifest exactly if it is still dead |
| `IndexStore.Index.PurgeDeadBlobs` | index/index.go:231-281 | with nothing beside it, exactly the dead manifests go, and their number is returned |
| `IndexStore.Index.ReapPhysicalPageIfDead` | index/index.go:392-438 | verdict and table of the three-way check: no record, record elsewhere, dead record here |
| `IndexStore.Index.ReconcileDeadStats` | index/index.go:524-540 | both dead counters go down by what was reaped and stop at zero; nothing else moves |
| `DoubleEntry.DecChunksCounts` | index/index.go:649-659 | over a whole chunk list the count of each chunk goes down by its multiplicity, stopping at zero, and no record moves |
| `DoubleEntry.UpsertCounts` | index/index.go:690-728 | over a whole chunk list the count of each chunk goes up by its multiplicity, except that a foreign record starts over; other records are untouched |
| `DoubleEntry.ReferencedBlobIsWhole` | index/index.go:627-661 | where counts cover claims, every ref has a manifest with a positive count, and every chunk of it has a record counting at least its occurrences, so no decrement underflows; chunk by chunk, so that disorder in one does not spoil the others |
| `DoubleEntry.PutGap` | index/index.go:557-760 | how CommitPut moves the difference between a chunk’s count and the claims of all manifests, in every branch, for each chunk outside any given set that was in disorder before |
| `DoubleEntry.PutKeepsDoubleEntryIff` | index/index.go:690-728 | with one chunk list per content, CommitPut keeps counts equal to claims if and only if none of its chunks is a live record of another namespace |
| `DoubleEntry.PutNeedsOneChunkListIff` | index/index.go:594-625 | inside one namespace it does so if and only if the counted list and the kept manifest hold each chunk equally often |
| `DoubleEntry.SharedChunkAcrossNamespaces` | index/index.go:695-719 | witness: two namespaces sharing one chunk leave it counted once and claimed twice |
| `DoubleEntry.DeleteKeepsGaps` | index/index.go:792-852 | CommitDelete succeeds exactly on existing refs and then keeps gaps, the coverage of refs, and every record location, for each chunk outside any given set that was in disorder before |
| `DoubleEntry.RenameKeepsGaps` | index/index.go:857-886 | a rename keeps gaps and the coverage of refs, for each chunk outside any given set that was in disorder before |
| `DoubleEntry.PurgeKeepsGaps` | index/index.go:248-281 | purging a manifest keeps gaps at any moment, for each chunk outside any given set that was in disorder before |
| `DoubleEntry.ReapKeepsGaps` | index/index.go:392-438 | reaping keeps gaps, and a record it deletes is claimed by nobody, for each chunk outside any given set that was in disorder before |
| `DoubleEntry.PutKeepsBacked` | index/index.go:557-625 | after any CommitPut every manifest counts at least its refs |
| `DoubleEntry.PutKeepsExactIff` | index/index.go:566-625 | refs equal manifest counts afterwards if and only if the put did not rewrite a key with the content it already had |
| `Ledger.PutKeepsLiveLedger` | index/index.go:730-749 | BlobCount, BytesStored and ChunkCount stay the sums over the live refs through every branch of CommitPut |
| `Ledger.DeleteKeepsLiveLedger` | index/index.go:829-850 | the same through CommitDelete |
| `Ledger.RenameKeepsLiveLedger` | index/index.go:857-886 | the same through a rename |
| `Ledger.DecChunksDead` | index/index.go:649-659 | what the decrement loop reports as dead is exactly what became dead, repeated chunks included |
| `Ledger.UpsertDead` | index/index.go:692-727 | what the upsert loop reports as revived is exactly what stopped being dead |
| `Ledger.PutKeepsDeadLedger` | index/index.go:690-749 | DeadBytes and DeadChunks stay the length sum and number of records with count zero, through new, overwrite, same content and revival |
| `Ledger.DeleteKeepsDeadLedger` | index/index.go:829-850 | the same through CommitDelete |
| `Ledger.DeadTotalsZeroIff` | index/index.go:524-540 | either dead total is zero if and only if no record is dead |
| `IndexRuns.ApplyKeepsInv` | index/index.go:557-886 | each index operation keeps double entry, coverage and live ledger of one namespace |
| `IndexRuns.ReachableBooks` | index/index.go:231-886 | all of this in every state reachable from the empty index by any operations in any order |
| `IndexRuns.ReachableDeadLedger` | index/index.go:690-850 | in every state reachable without a compaction in between, the dead counters are exact |
| `MemoryBackends.MemTx.Put` | index/index.go:1051-1058 | the view gains the binding, even of a key the transaction had deleted |
| `MemoryBackends.MemTx.Get` | index/index.go:1060-1077 | a read sees the transaction’s own writes and deletions, and otherwise the parent |
| `MemoryBackends.MemTx.Delete` | index/index.go:1079-1084 | the view loses the key, even one the transaction had written |
| `MemoryBackends.MemoryBackend.Tx` | index/index.go:1017-1036 | success is the operations applied to a plain map in order, with every read as in that map; failure or a closed backend leaves the data alone |
| `Disk.SlicesJoin` | volume/volume.go:1502-1543 | the page slices of a payload join to it; one page suffices exactly if it fits |
| `Disk.WriteChunkHolds` | volume/volume.go:536-576 | a written chunk is held by its record on page positions never used before, and nothing already written changes |
| `Disk.HeldChunkReads` | volume/volume.go:632-704 | a held chunk of any number of pages reads back as its content |
| `StoreRefinement.StoreRefinesMap` | store/store.go:402-1440 | in every interleaving of puts, refused and aborted puts, deletes, renames, any number of phase 1 sweeps, phase 2 relocations and crashes, each followed by replay of the log: Get fails as not found exactly on a key the map does not have, and returns exactly the bytes of the last successful put unless a reopen has left one of their chunks in disorder |
| `StoreRefinement.CleanStoreIsMap` | store/store.go:402-1440 | where every reopen of the run finds all it registers in order, and so without any, the store is the map without exception |
| `StoreFates.StoreReadsIff` | store/store.go:402-1440 | no exceptions left: over every run, reopens included, Get on a key of the map returns exactly its bytes if and only if each chunk has been put or replayed with no sweep taking its record since, and is not one whose record the last open pointed at flagged or missing pages; otherwise it fails on a missing record or page |
| `Shortfalls.CountIsClaimsLessShortfall` | index/index.go:557-852 | for every chunk of every run: the count is the claims of all manifests less a shortfall that replay creates, releases below zero cap at the claims left over, and relocations lower by what they restore |
| `Shortfalls.ShortfallNeverGrows` | index/index.go:762-790 | as long as the store stays open the shortfall of a chunk never grows |
| `Shortfalls.SweepTakesIff` | index/index.go:392-438 | a reap transaction removes the record of a chunk if and only if it is at the page that record names and the claims on the chunk do not exceed its shortfall |
| `Shortfalls.RecordedIff` | index/index.go:392-438 | after every run the chunks that have a record are exactly those put, relocated or replayed and not taken by such a sweep since |
| `Shortfalls.KeptWhileClaimed` | index/index.go:392-438 | while the claims on a chunk exceed the shortfall it had when the store was opened, at every sweep of its page, it keeps its record |
| `StoreFates.RecordReadsIff` | volume/volume.go:632-704 | after every run a record reads as its chunk unless an open pointed it at flagged or missing pages and no sweep or relocation has touched it since; then it cannot be read |
| `StoreRefinement.ReachableRecordsHold` | store/store.go:1256-1320 | in every reachable state, reopens included, every record not in disorder names an unflagged page with that chunk’s bytes |
| `StoreRefinement.FlaggedForever` | store/store.go:1304-1320 | a page that is flagged or gone at any moment stays so for the rest of any run, across reopens, and no record in order ever names it again |
| `StoreRefinement.SafeVerdictIsFinal` | index/index.go:357-438 | once a reap transaction calls a page safe, no later step makes it the location of a record in order, as long as the store stays open; a crash ends the operation |
| `StoreRefinement.GetReads` | store/store.go:788-835 | with all lookups in one state: a key with a ref reads as the content the ref names; no manifest, record or page on the way can be missing |
| `StoreReaders.GetInStepsReads` | store/store.go:788-835 | with each lookup in a state of its own, beside puts, deletes, renames and sweeps: success returns the content of the ref that was found, and a reader that found one fails only if the key was deleted, replaced or renamed meanwhile |
| `StoreSteps.StepKeeps` | store/store.go:664-1440 | every step of an open store keeps the invariant and never brings a retired page back, whatever chunks are in disorder |
| `StoreRuns.ReachableInv` | store/store.go:402-1440 | the invariant in every reachable state, reopens included, for all chunks but those the reopens have left in disorder |
| `StoreSteps.SafeMeansClear` | index/index.go:392-438 | a queued page the transaction calls safe is in no record’s span afterwards; without the location comparison this fails |
| `StoreSteps.RelocateKeeps` | store/store.go:1415-1430 | after each relocation write every record still resolves, in the old or the new segment |
| `StoreSteps.DropSegmentKeeps` | store/store.go:1432-1435 | when the old segment’s file is removed no record names it |
| `Reopening.SoundAfterCrashIff` | store/store.go:402-424 | opening again after a crash at any point, phase 2 included, leaves a chunk that replay registers counted as often as claimed if and only if it is logged once and claimed by nobody, and its record resolving if and only if its pages are there unflagged; every other chunk is as it was |
| `Reopening.CrashKeepsAllIff` | store/store.go:402-424 | so the whole invariant survives a crash and reopen if and only if that holds of every chunk replay registers |
| `Reopening.RecordsHoldIff` | store/store.go:481-532 | for any log whatever: after replay every record resolves if and only if the last replayed entry of each registered chunk does |
| `Reopening.ReopenKeepsIds` | volume/volume.go:423-453 | segment ids go on where they were, because the highest segment is never removed |
| `Recovery.GetAfterReopenIff` | store/store.go:402-424 | a key with a ref reads as its content after the next open if and only if no chunk of it is also in the log of a blob without a manifest with pages that are flagged or gone |
| `Recovery.PutAfterReopenReadsIff` | store/store.go:664-753 | a put after a reopen succeeds, and its key reads as the content if and only if every chunk of it that replay registered still has its pages unflagged |
| `Recovery.InterruptedPutIsReplayed` | store/store.go:385-424 | a put cut off between its log entry and its commit is there again after the next open: one manifest, count one, all its bytes, nothing else moved; counts and claims are in order if and only if its chunks are distinct and claimed by nobody |
| `Recovery.ReplayedSurviveSweep` | store/store.go:507-528 | a phase 1 right after replay of any log leaves the pages, records and manifests of everything it registered alone |
| `Recovery.DeleteAndSweepFlagsIff` | store/store.go:1304-1320 | deleting the last ref of a blob and sweeping removes its manifest and flags, of its chunks’ pages, exactly those of chunks counted for it alone; the log still has them |
| `ReopenWitness.PutAgainIsUnreadable` | store/store.go:481-532 | witness, a reachable run: put, delete, sweep, purge, reopen, put the same content again; the put succeeds and the key cannot be read |
| `ReopenWitness.UntouchedKeyIsLost` | store/store.go:481-532 | witness, a reachable run: a key reads, the store is reopened, and the same key, never touched, cannot be read, because a purged blob shared its chunk |
| `ReopenWitness.WitnessesExist` | volume/volume.go:495-510 | there are a chunker, a page size and contents for which the two runs above exist |
| `SweepWitness.LiveChunkIsSwept` | store/store.go:1256-1320 | witness, a reachable run: two keys share a blob, a put repeating its chunk is cut off, and the store is opened again; both keys read; one is deleted, a sweep takes the chunk, and the other key is lost |
| `SweepWitness.DoublesExist` | volume/volume.go:495-510 | there are contents for which that run exists |
| `StoreLimits.RunGap` | store/store.go:1415-1430 | over any run with compaction and reopens the count of a chunk that no reopen has left counted too low exceeds its claims by exactly the decrements its relocations overwrote since it was last registered |
| `StoreLimits.GapNeverFalls` | store/store.go:1415-1430 | as long as the store stays open the excess never falls again |
| `StoreLimits.PagewiseChunkerIsValid` | volume/volume.go:495-510 | cutting every input into pages is a chunker that meets the premises of the store machine, for every page size |
| `StoreLimits.AheadIsTaken` | store/store.go:1415-1430 | what a relocation is about to overwrite is exactly what deletes took of the chunk since its record was fetched |
| `StoreLimits.BooksKeptIff` | store/store.go:1415-1430 | after any run of an open store counts equal claims if and only if no delete of a blob with the chunk fell between the fetch and the write of any relocation |
| `StoreLimits.LossFreeKeepsBooks` | store/store.go:1415-1430 | and with clean reopens anywhere such runs keep them equal as well |
| `StoreLimits.RelocateKeepsBooksIff` | store/store.go:1415-1430 | a relocation write keeps counts equal to claims if and only if the count has not moved since it was fetched |
| `StoreLimits.DeleteDuringRelocationIsLost` | store/store.go:900-916 | a delete between fetch and write leaves the chunk counted too often by its multiplicity in the deleted blob |
| `RelocationWitness.ChunkIsNeverFreed` | store/store.go:900-916 | witness, a reachable run: put, seal, rewrite, fetch, delete, relocate; no ref is left and the chunk is counted once; in every continuation that keeps the store open it keeps a record with a positive count |
| `StoreLimits.CopyReadsBackIff` | volume/volume.go:899-955 | the relocated entry of a chunk’s page reads back as the chunk if and only if the chunk has one page |
| `StoreLimits.LivePageVerdict` | index/index.go:392-438 | a page of a live chunk is judged rightly if and only if it is the first one |
| `StoreLimits.UncommittedPageIsReaped` | store/store.go:698-745 | why a put is one step towards phase 1: a page written but not committed is judged safe, and the record committed for it cannot be read |
| `SweepLedger.FreedCoversDead` | store/store.go:1256-1320 | a quiescent phase 1 frees at least what the counters call dead |
| `SweepLedger.SweepClearsDead` | store/store.go:1304-1354 | afterwards no record is dead and both counters are zero |
| `SweepLedger.SweepTwice` | store/store.go:1219-1361 | a second one changes nothing and frees nothing |
| `SweepLedger.SweepKeepsCore` | store/store.go:1219-1361 | no live chunk is lost and every gap stays |
| `SweepQueue.ReapedExact` | store/store.go:1304-1320 | over the queue a record goes exactly when its own page comes up, and every verdict is safe |
| `SweepQueue.FlaggedExact` | store/store.go:1304-1320 | exactly the queued pages are flagged |
| `SweepQueue.QueueSweeps` | store/store.go:1256-1320 | working off the scan’s queue gives exactly the swept state |
| `Bookkeeping.PutAccounts` | store/store.go:698-745 | counts, claims and all statistics still agree after a put |
| `Bookkeeping.DeleteAccounts` | store/store.go:900-916 | and after a delete |
| `Bookkeeping.SweepAccounts` | store/store.go:1219-1361 | and after a quiescent phase 1 |
| `NamespaceStore.Namespace.constructor` | store/store.go:402-430 | an empty namespace: no keys, counts and statistics agree |
| `NamespaceStore.Namespace.WriteBlob` | volume/volume.go:498-577 | the loop over the chunker’s pieces leaves the disk and entries of the specification |
| `NamespaceStore.Namespace.Put` | store/store.go:664-753 | each refusal with its condition, no key changed by any of them; success binds exactly this key to exactly these bytes |
| `NamespaceStore.Namespace.Get` | store/store.go:788-835 | the bytes bound to the key, or not found, or the empty key refused; chunks of any number of pages |
| `NamespaceStore.Namespace.Delete` | store/store.go:900-916 | exactly this key goes; a missing key is no error |
| `NamespaceStore.Namespace.Rename` | store/store.go:882-898 | the binding moves, or is refused for exactly these reasons |
| `NamespaceStore.Namespace.ScanSegments` | store/store.go:1226-1275 | the queue has every unflagged page without a live record there, each once, with its bytes counted |
| `NamespaceStore.Namespace.CompactPhase1` | store/store.go:1219-1361 | no key changes, exactly the dead records, pages and manifests go, every unflagged page left has a record, both dead counters end at zero, and the result counts them |
| `NamespaceStore.Namespace.CompactPhase2` | store/store.go:1366-1442 | no key and no count changes; it ends normally if and only if every unflagged page of every selected segment has a record, and then exactly the segments at or above the threshold, the active one aside, are gone |
| `NamespaceStore.Namespace.Compact` | store/store.go:1190-1206 | phase 1 then phase 2 always ends normally, with no key changed |
| `Relocations.SegmentStats` | volume/volume.go:802-832 | live and total pages of every segment, exactly |
| `Relocations.RewriteSegment` | volume/volume.go:869-965 | the new segment holds the unflagged pages verbatim in order, and the entries name them |
| `Relocations.RelocateAll` | store/store.go:1415-1430 | committing the entries one by one changes no count and leaves every record resolving, even where it stops early; it stops early if and only if some entry’s chunk has no record |
| `Relocations.CompactSegments` | store/store.go:1379-1439 | the loop over segments keeps all accounts, ends normally if and only if every unflagged page of every selected segment has a record, and then has removed exactly the selected segments |
| `Quotas.StepKeepsQuota` | store/store.go:1515-1555 | each of check, commit and interleaved delete, rename or sweep keeps the quota bounds |
| `Quotas.ReachableWithinQuota` | store/store.go:703-745 | in every reachable state BytesStored, BlobCount and every ref size are within the quota |
| `Quotas.UnserialisedChecksOvershoot` | store/store.go:703-708 | witness: without the mutex two checked puts end above the limit |
| `Replay.ReplayBlob` | store/store.go:496-529 | one logged blob: skipped if its manifest exists, otherwise its chunks and manifest written in chunk order |
| `Replay.ReplayWAL` | store/store.go:481-532 | the loops over segments in id order and over the entries of each compute the specification’s replay of the whole log |
| `Replay.ReplayedRecord` | store/store.go:507-518 | the chunk table after replaying any log: a chunk of a replayed blob has the record of the last replayed entry that logs it, counted once; every other record is as it was |
| `Replay.NewChunksFrom` | store/store.go:501-505 | an entry is replayed if and only if it is the first of its blob and the blob had no manifest when replay began |
| `Replay.ReplayManifests` | store/store.go:496-529 | existing manifests, refs and statistics stay; every logged blob has a manifest afterwards, new ones from their first entry, with chunk order, total size and count one |
| `Replay.ReplayUntouchedIff` | store/store.go:501-505 | replay changes nothing if and only if every logged blob has a manifest |
| `Replay.ReplayResumes` | store/store.go:481-532 | replay cut off after any number of entries and started over ends as one full replay; in particular twice is once |
| `Replay.ReplayGap` | store/store.go:507-528 | the gap of every chunk after replaying any log, in closed form |
| `Replay.ReplayBooksIff` | store/store.go:481-532 | replaying a log keeps counts equal to claims if and only if the chunks it registers are pairwise distinct and unreferenced before it; otherwise some chunk is counted less than claimed |
| `Replay.ReplayCoversIff` | store/store.go:481-532 | where counts only cover claims: a registered chunk stays covered if and only if it is logged once and claimed by nobody |
| `GuardRuns.NextKeeps` | store/store.go:558-645 | every step of every client keeps the rules of both locks |
| `GuardRuns.ReachableGuards` | store/store.go:191-212 | in every reachable state a rewrite has its namespace to itself among guarded operations, and Close tears down only when no operation or open reader is left, for good |
| `GuardRuns.OtherNamespacesProceed` | store/store.go:605-640 | a rewrite keeps nobody out of another namespace |
| `GuardRuns.NeverAllBlocked` | store/store.go:558-645 | while any operation is going on some client can take its next step, pending writers or not, if each client holds at most one operation |
| `GuardRuns.LeakedReaderBlocks` | store/store.go:180-190 | while a reader stays open no rewrite of its namespace begins and Close tears nothing down |
| `ChunkOffsets.ResolveChunkOffset` | store/store.go:1671-1681 | the unique chunk that contains the position and the offset in it, or the end |
| `ChunkOffsets.OneContains` | store/store.go:1664-1681 | no position is in two chunks |
| `ChunkOffsets.ChunkAt` | store/store.go:1671-1681 | a chunk is the stretch of the blob between its offset and the next |
| `ChunkReaders.ChunkReader.constructor` | store/store.go:1582-1588 | a reader at position 0 with the total size |
| `ChunkReaders.ChunkReader.Read` | store/store.go:1590-1624 | the next bytes of the blob at the position, as many as fit and the chunk there still has; end of file exactly past the end; a failed read moves nothing and is caused by the chunk at the position or an empty one in front of it |
| `ChunkReaders.ChunkReader.Seek` | store/store.go:1640-1662 | the target in 64-bit arithmetic for each whence, to the end and past it; an invalid call changes nothing |
| `ChunkReaders.ChunkReader.ReadAll` | store/store.go:1697-1704 | everything from the position to the end |
| `Pages.HeaderBack` | volume/volume.go:195-225 | a header decodes to what was encoded |
| `Pages.HeaderForth` | volume/volume.go:195-225 | and bytes that decode encode back to themselves |
| `Pages.ReadChunkBack` | volume/volume.go:632-704 | a chunk whose pages hold its slices reads as its payload if and only if none of them is flagged, whatever the pooled buffer held |
| `Pages.MarkDeletedOneBit` | volume/volume.go:723-747 | marking changes at most the lowest bit of one byte of the file |
| `FileRuns.PatchedPage` | volume/volume.go:1291-1339 | patching any page, its own included, changes nothing a read looks at |
| `FileRuns.MarkedPage` | volume/volume.go:723-747 | marking one page flags that page and no other |
| `FileRuns.AppendedChunkReads` | volume/volume.go:1502-1543 | for any payload and page size above 88: the appended chunk reads back as its payload through any run of appends, patches and marks, until one of its own pages is marked, and as deleted from then on |
| `FileRuns.CopiedChunkReads` | volume/volume.go:1545-1560 | a page copied verbatim reads at its new place as it did at the old one |
| `FileRuns.ScanVisitsEveryPage` | volume/volume.go:1341-1396 | the scan yields every page of a well-formed file once and in order |
| `FileRuns.RunScanned` | volume/volume.go:1341-1396 | and so it does after any run since the file header was written |
| `PageSteps.AppendRefines` | volume/volume.go:1502-1543 | appending bytes is adding the chunk’s pages to the page map the store model uses |
| `PageSteps.MarkRefines` | volume/volume.go:723-747 | setting the bit is flagging that page of the map |
| `PageSteps.PatchRefines` | volume/volume.go:1291-1339 | patching is no step of the map |
| `PageSteps.ReadRefines` | volume/volume.go:632-704 | reading a chunk from the bytes gives what reading it from the map gives, refusals included |
| `SegmentFile.EncodePageHeader` | volume/volume.go:195-203 | the seven fields in place, the rest of the buffer untouched |
| `SegmentFile.FillPage` | volume/volume.go:1519-1531 | the page buffer is exactly header, slice and zeros; nothing a previous user left remains |
| `SegmentStore.SegFile.AppendChunk` | volume/volume.go:1502-1543 | file and buffer together grow by exactly the chunk’s pages; the page count is that of its slices |
| `SegmentStore.SegFile.Write` | volume/volume.go:1405-1412 | the buffered writer loses and reorders nothing, however much it spills |
| `SegmentStore.SegFile.Flush` | volume/volume.go:1598-1598 | everything buffered is in the file, in order |
| `SegmentStore.SegFile.Patch` | volume/volume.go:1291-1339 | the file changes as the patch function says, and on a bad magic only in the first two fields |
| `SegmentStore.SegFile.SetDeleted` | volume/volume.go:723-747 | fails without a page header there and then changes nothing |
| `SegmentStore.SegFile.Read` | volume/volume.go:632-704 | the loop returns what the reading function gives, every error with its condition |
| `AllocatorEngine.Engine.WriteChunk` | volume/volume.go:536-558 | ensureActive, rollIfNeeded and the append hand out exactly the span at the end of the active segment |
| `AllocatorEngine.Engine.RewriteSegment` | volume/volume.go:869-965 | refused exactly for the active segment; otherwise a new file with one page for each unflagged page of the source |
| `AllocatorEngine.Engine.Reopen` | volume/volume.go:423-453 | numbering goes on behind the highest segment found |
| `AllocatorRuns.StepKeeps` | volume/volume.go:1249-1280 | each operation keeps spans aligned and disjoint, sizes bounded and ids fresh |
| `AllocatorRuns.ReachableAllocations` | volume/volume.go:1249-1280 | over any run of writes, rolls, rewrites, deletions and restarts: spans are aligned and pairwise disjoint and no segment exceeds its bound |
| `AllocatorRuns.NewIdsAreNew` | volume/volume.go:1226-1280 | a new segment file has an id no segment ever had |
| `AllocatorRuns.NominalBoundIff` | volume/volume.go:1262-1280 | MaxSegmentSize - 1 plus one maximal chunk bounds every segment of every run if and only if MaxSegmentSize is above 128 |
| `LittleEndian.GetPut` | volume/volume.go:1562-1582 | a value that fits its width is read back |
| `Wal.PageCountIsPagesWritten` | volume/volume.go:1170-1173 | the recomputed page count is the number of pages appendChunk wrote |
| `Wal.EntryBack` | volume/volume.go:1085-1188 | an encoded entry decodes to itself and leaves exactly what follows |
| `Wal.DecodeExtends` | volume/volume.go:1085-1188 | a successful decode does not depend on what follows |
| `Wal.TornEntryFails` | volume/volume.go:1041-1048 | no proper prefix of an encoded entry decodes |
| `Wal.ParseReturnsComplete` | volume/volume.go:1049-1079 | for any entries as WriteBlob builds them and any proper prefix of one more, parsing returns exactly the entries in order, with their sequence numbers and page counts |
| `WalTears.EntryForth` | volume/volume.go:1085-1188 | bytes that decode are the encoding of the entry they yield, followed by the rest |
| `WalTears.DecodesIff` | volume/volume.go:1085-1188 | bytes decode if and only if they begin with the encoding of some entry |
| `WalTears.ParseIff` | volume/volume.go:1049-1079 | parsing a list of encoded entries and then anything returns exactly that list if and only if what follows does not begin with an entry |
| `WalTears.LaterEntriesLostIff` | volume/volume.go:1461-1493 | a log is opened for appending without cutting a torn tail: entries before the tear always come back; all entries behind it are lost if and only if the torn bytes and what follows them begin with no entry; exactly they come back if and only if their bytes also stand right at the tear and no entry begins after them |
| `WalTears.TornMagicLosesAll` | volume/volume.go:1461-1493 | if only part of the magic number was written, every later entry is lost |
| `WalTears.TornPlaceIsMisreadIff` | volume/volume.go:1461-1493 | torn in its last 24 bytes, the entry comes back with the place of its last chunk read from what follows if and only if at least the missing bytes follow; parsing then goes on inside a later entry |
| `WalFile.Log.Append` | volume/volume.go:1562-1596 | the log grows by exactly one encoded entry |
| `WalFile.DecodeWALEntry` | volume/volume.go:1085-1188 | the cursor decoder succeeds exactly when the entry decodes, with its value and length |
| `WalFile.Log.ParseAll` | volume/volume.go:1049-1079 | the loop returns every entry up to the first that does not decode |
| `RangeSets.MergeInPlace` | staging/staging.go:140-153 | of any list of nonempty ranges sorted by start, equal starts in any order, the array’s prefix is the canonical list of the same positions |
| `RangeSets.MergeTurn` | staging/staging.go:142-151 | one turn of the merge loop: the written prefix covers one range more and the unread part is untouched |
| `RangeSets.RangeSet.Add` | staging/staging.go:125-153 | the set grows by exactly the interval and its list stays canonical |
| `RangeSets.RangeSet.TotalBytes` | staging/staging.go:156-162 | the cardinality of the set |
| `RangeSets.RangeSet.IsComplete` | staging/staging.go:166-171 | true exactly if the set is `[0, n)` |
| `RangeSets.RangeSet.Contains` | staging/staging.go:174-181 | for a nonempty interval: every position is in the set; for an empty one: some range surrounds it |
| `Ranges.CanonicalIsUnique` | staging/staging.go:122-123 | a set of positions has one canonical list |
| `Ranges.CompleteIff` | staging/staging.go:166-171 | which list denotes `[0, n)` |
| `Bitmaps.BlockBitmap.Mark` | staging/staging.go:200-216 | exactly the given block becomes marked; out of range is ignored |
| `Bitmaps.BlockBitmap.IsComplete` | staging/staging.go:219-236 | true exactly if every block is marked, whatever stands behind the last block |
| `Bitmaps.BlockBitmap.Progress` | staging/staging.go:1172-1205 | the popcount arithmetic is the sum of the marked blocks’ lengths, a partial last block included |
| `Bitmaps.BlockBitmap.ReconstructRanges` | staging/staging.go:499-522 | canonical ranges of exactly the marked blocks clipped to the size, with that total |
| `Bitmaps.CompletenessAgrees` | staging/staging.go:219-236 | all blocks marked, progress equal to the size, and the range list covering `[0, size)` are equivalent; the range total is the progress |
| `BlockSizes.BytesByCount` | staging/staging.go:1196-1205 | counting bits times block size, less the shortfall of a marked partial last block, is the byte sum |
| `BlockSizes.CountFits` | staging/staging.go:1209-1218 | the last block starts inside the file and reaches its end |
| `Words.MaskValue` | staging/staging.go:230-235 | the low mask is the number `(1 << v) - 1` |
| `MarkRace.NextKeeps` | staging/staging.go:200-216 | each load or compare-and-swap keeps the invariant and clears no bit |
| `MarkRace.QuiescentMarks` | staging/staging.go:200-216 | under any interleaving, when all calls have returned the marks are exactly the initial and the in-range ones |
| `MarkRace.RetriesBounded` | staging/staging.go:207-215 | each failure is paid for by a bit the word gained, so no call fails more than 64 times |
| `MarkRace.StepsRunOut` | staging/staging.go:207-215 | every step of a call ends it or lowers a bound on its remaining steps |
| `UploadBlocks.AcceptedBlocksExact` | staging/staging.go:1235-1241 | the blocks an accepted chunk marks are, clipped to the file, exactly `[offset, offset + len)` |
| `UploadRace.NextKeeps` | staging/staging.go:564-705 | with any number of chunks in flight every step keeps marked blocks written |
| `UploadRace.CompleteMeansWritten` | staging/staging.go:856-861 | in every interleaving, failures included, a full bitmap means every byte was written |
| `Uploads.DataFile.Stream` | staging/staging.go:664-690 | every byte that got through is in the file, and the error is that of the first transfer that failed, or of the reader |
| `Uploads.AlignedSession.WriteStream` | staging/staging.go:656-709 | each refusal with its condition; blocks are marked exactly if the whole chunk arrived and is acceptable |
| `Uploads.AlignedSession.WriteVerified` | staging/staging.go:586-650 | a chunk refused for place or checksum writes nothing; a written one marks its blocks; the piece check decides the result; verified blocks keep the bytes they were checked with if and only if the bytes that reach the file leave them so |
| `Uploads.AlignedSession.CheckPieces` | staging/staging.go:622-641 | succeeds exactly if every block not verified before matches its piece hash; a verified block is not checked again; what each newly verified block held is recorded |
| `Uploads.AlignedSession.WriteChunk` | staging/staging.go:564-586 | a misaligned offset is refused before anything happens; no error but a piece mismatch leaves a mark; an accepted chunk marks exactly its blocks; with pieces, verified blocks stay as checked if and only if the written bytes keep them |
| `Uploads.AlignedSession.Complete` | staging/staging.go:846-868 | succeeds exactly on size, bitmap and pieces, whatever the announced checksum; then every byte was written and the file holds what was written last; with pieces the file matches them if, and without collisions only if, no verified block was given other bytes since its check |
| `UploadPieces.IntactAfter` | staging/staging.go:622-641 | after a chunk is written and checked, verified blocks are as they were checked if and only if the chunk kept those verified before |
| `UploadPieces.MatchesIff` | staging/staging.go:856-867 | with all blocks verified, a file with intact blocks matches the piece hashes, and without collisions no other does |
| `UploadWitness.ReplacedBlockCompletes` | staging/staging.go:622-641 | witness, a session with one piece hash and an announced checksum, both of one content: its bytes are accepted, then others for the same block; Complete returns a file whose hash is neither |
| `RangeUploads.RangeSession.WriteChunk` | staging/staging.go:712-791 | bytes go to the file first; the range is recorded exactly if the chunk arrived whole, fits, and is known or has its checksum |
| `RangeUploads.RangeSession.Complete` | staging/staging.go:846-887 | succeeds exactly if the received set is the whole file, the size is the announced one and the checksum holds, and then every byte was written |

## Left out

- Files, directories, fsync, descriptors, buffer and hasher pools, preallocation: files are byte sequences or page maps, and a write that reached the file stays there.
- Crashes inside a write: a crash falls between the steps of the machine. Torn log tails are covered byte by byte, replay cut off between two entries by `Replay.ReplayResumes`. A put that stops part of the way is a step of its own, before or after its log entry.
- Disk errors during replay or compaction.
- The chunker (FastCDC), content-type sniffing and encryption: nonce and tag are opaque fields that relocation carries along; the cipher is not part of the page model.
- `RebuildIndex`, `Verify`, `List`, `Head`, `Update`, namespace creation and deletion, key encoding, JSON records, and the bbolt backend: the index is a typed map with atomic transactions, the in-memory backend is modelled on keys and values.
- Times, content types and custom metadata of refs.
- Two puts whose page writes interleave: a put's pages are written in one step of the machine. Spans of concurrent appends are still disjoint, because each append holds the engine's lock (`AllocatorRuns.ReachableAllocations`).
- StoreRefinement.StoreRefinesMap: one namespace, chunks of one page and a put as one step towards phase 1, for the reasons under Premises; it sets chunks in disorder aside, `StoreFates.StoreReadsIff` does not.
- StoreFates.StoreReadsIff: the log of the machine holds whole entries; a torn one is `WalTears`.
- StoreRefinement.GetReads: all lookups in one state; `StoreReaders.GetInStepsReads` takes them apart.
- NamespaceStore.Namespace.Put: this class has no log and is never reopened; the machine has both.
- NamespaceStore.Namespace.WriteBlob: the log entry is written in the machine (`StoreMachine`), not in this class.
- StoreSteps.RelocateKeeps: chunks of one page, because the code loses longer ones.
- Quotas.ReachableWithinQuota: one namespace, and puts serialised by its mutex as in the code.
- GuardRuns.ReachableGuards: operations that take the namespace guard. Delete, Rename and Update take only the store's guard, so a rewrite does not keep them out.
- GuardRuns.NeverAllBlocked: states that some step is possible, not that every waiting client gets its turn. The quota mutex is not part of it: nobody waits for another lock while holding it.
- ChunkReaders.ChunkReader.Read: the engine returns a chunk's recorded length or an error; Close is not modelled.
- AllocatorEngine.Engine.RewriteSegment: takes the flags of the old file's pages; their bytes are copied in `Relocations.RewriteSegment`.
- SegmentStore.SegFile.Patch: only on pages that have reached the file, as the original demands of its callers.
- RangeSets.RangeSet.Add: starts from a canonical list; a list loaded from a damaged metadata file is not considered.
- Bitmaps.BlockBitmap.Mark: without contention; the contended loop is `MarkRace`.
- Uploads.AlignedSession.WriteVerified: chunk offsets and lengths stay below 2^63; session files, activity times, the reaper and the lock handed over by Complete are not modelled.
- Overflow of 64-bit counters and sizes in the index statistics.
