# clawhdf5: a verified model of the agent memory engine

This project models the agent memory engine of clawhdf5 in Dafny and proves what its parts
promise: the store with its write-ahead log, `.h5` image and vector index; the background writer;
staged snapshot restore; the knowledge graph; the Markdown and leaf codecs; consolidation and the
ephemeral tier; and the fast algorithms that each claim to equal something simpler (product
quantisation, inverted files, chunked top-k, BM25, blocked Fletcher-32).

Check everything with `dafny verify dfyconfig.toml`.

## How the model is laid out

| file | modules | subject |
|---|---|---|
| Wrappers.dfy | Wrappers | values that may be missing |
| Cache.dfy | Cache | parallel arrays that act as one list of rows; compaction |
| Durability.dfy | WriteAheadLog, Storage | log framing and replay; flat image and its loading |
| VectorIndex.dfy | VectorIndex | the vector index and when it mirrors the cache |
| Hybrid.dfy | Hybrid | vector and keyword search, scaled and merged |
| Store.dfy | Store | the store, one disk action at a time |
| StoreRuns.dfy | StoreRuns | whole runs of a store, and crashes anywhere in them |
| StoreExamples.dfy | StoreExamples | stores on which the exact conditions fail |
| AsyncWriter.dfy | AsyncWriter | the background writer under every interleaving |
| Restore.dfy | TempNames, Restore | concurrent staged restores |
| KnowledgeGraph.dfy, Resolution.dfy, EditDistance.dfy | KnowledgeGraph, Traversal, Resolution, EditDistance | breadth-first search, subgraphs, entity resolution, Levenshtein |
| MarkdownText.dfy, Markdown.dfy | MarkdownText, Markdown, MarkdownRoundTrip | parser, exporter, round trip |
| Leaves.dfy, StoreLeaves.dfy, LeafReader.dfy | Hex, Leaves, StoreLeaves, LeafReader | canonical leaf bytes, reading them back, hexadecimal text |
| Quantizer.dfy, Lloyd.dfy, QuantizerTraining.dfy | SquaredDistance, Quantizer, Lloyd, QuantizerTraining | product quantiser, its training |
| Ephemeral.dfy | Ephemeral | lazy expiry against eager expiry |
| Consolidation.dfy | Consolidation | three tiers, promotion, eviction, accounting |
| Sorting.dfy, VectorSearch.dfy, InvertedFile.dfy, IvfTraining.dfy, IvfSearch.dfy, Bm25.dfy | Sorting, VectorSearch, InvertedFile, IvfTraining, IvfSearch, Bm25 | stable sorting, chunked top-k, IVF/RAIRS, BM25 |
| Fletcher32.dfy | Fletcher32 | blocked checksum with delayed modulo |

Conventions: floating-point numbers are `real` (bits, in the leaf encoding); scores, similarities,
`exp` and `ln` are arbitrary functions, so every ranking result holds for any scoring. The clock,
I/O outcomes and hash and signature checks are parameters. `HDF5Memory` keeps its rows as one sequence; `MemoryCache` shows
that the parallel arrays behave as that sequence, with the same functions (`NewRow`, `Updated`,
`Deleted`, `Compacted`) in both contracts.

## Where the code and its promises part

Each of these is a proved statement with its exact condition, and where a member is named after a colon, at
an input on which it fails:

- The image gives back the cache exactly when every embedding has the configured length
  (`Storage.LoadsIffUniform`); until a flush, the log recovers any embedding (`Store.HDF5Memory.Save`).
- An upsert that hits an existing row is logged as a plain save, so until the next flush it is
  recovered as one row more (`Store.HDF5Memory.SaveOrUpdate`: `StoreExamples.UpsertIsRecoveredTwice`). After
  any run the disk gives the cache back exactly unless an upsert has hit since the last flush (`StoreRuns.Run`).
- Creating a store keeps an old log beside it: the new store recovers as empty exactly when that log
  holds no save (`Store.Create`: `StoreExamples.StaleLogShows`).
- Besides the window between rename and truncation there is a second one: while the log's header is
  being rewritten opening fails, with the complete image in place (`Store.WindowShape`).
- A log cut off after an entry's body still reads, but appending to it after reopening makes the whole
  log refused: the append reads back exactly when the file ended in a chain hash
  (`WriteAheadLog.AppendReadsIffFramed`). So a save acknowledged after such a crash is lost unless a flush comes
  first or the save itself flushes (`Store.ReopenAndSave`: `StoreExamples.BareBodyIsFatal`).
- The writer's dirty flag is lost exactly at a failed save, or a failed threshold or timer flush, while
  acknowledged rows are unflushed (`AsyncWriter.KeptIffNeverForgets`: `AsyncWriter.FailedSaveHidesPending`),
  and then the next flush is answered Ok without one (`AsyncWriter.ForgettingShows`); and a store opened with
  a pending log starts with the flag down (`AsyncWriter.PendingDirtyIffOpenedClean`).
- `get_subgraph` is documented to return the relations among the returned entities; it returns those among
  the ids in range, which include unstored seeds (`Traversal.RelationsClosedIffNoDanglingSeed`:
  `Traversal.UnstoredSeedDangles`).
- Markdown round-trips exactly when no content line ends in a carriage return
  (`MarkdownRoundTrip.RoundTripIff`: `MarkdownRoundTrip.BareCrIsLost`).
- The ephemeral tier keeps to its capacity exactly when that is positive
  (`Ephemeral.CapacityHoldsIffPositive`: `Ephemeral.ZeroCapacityOverflows`); `set_ttl` can bring an expired entry
  back and `delete` reports one (`Ephemeral.SetTtlRefinesIff`: `Ephemeral.SetTtlRevives`;
  `Ephemeral.DeleteRefinesIff`: `Ephemeral.DeleteReportsExpired`).

## Model

| member | source | states |
|---|---|---|
| `Cache.MemoryCache.constructor` | crates/clawhdf5-agent/src/cache.rs:23-36 | a new cache has no rows and its arrays are parallel |
| `Cache.MemoryCache.Push` | crates/clawhdf5-agent/src/cache.rs:53-74 | acts as appending one live row of weight one that carries the entry, field by field, and returns its index |
| `Cache.FindFirst` | crates/clawhdf5-agent/src/cache.rs:78-88 | the search result is the first live row with the tags; none is reported only if no live row has them |
| `Cache.MemoryCache.Find` | crates/clawhdf5-agent/src/cache.rs:78-88 | the loop finds that first live row; empty tags never match |
| `Cache.MemoryCache.Update` | crates/clawhdf5-agent/src/cache.rs:91-110 | acts as overwriting one row with the entry, field by field, apart from tags and tombstone, and resetting its weight; out of range nothing changes |
| `Cache.MemoryCache.MarkDeleted` | crates/clawhdf5-agent/src/cache.rs:113-120 | tombstones exactly a live row and says whether it did |
| `Cache.MemoryCache.TombstoneFraction` | crates/clawhdf5-agent/src/cache.rs:123-129 | is the share of rows with tombstone 1, zero on an empty cache |
| `Cache.MemoryCache.Compact` | crates/clawhdf5-agent/src/cache.rs:134-178 | keeps exactly the live rows in order, reports how many it removed, and its index map renumbers them |
| `Cache.CompactRenumbers` | crates/clawhdf5-agent/src/cache.rs:134-178 | the index map is an order-preserving bijection from live old indices onto new indices that keeps each row, and sends tombstoned indices nowhere |
| `Cache.CompactedIsLive` | crates/clawhdf5-agent/src/cache.rs:134-178 | the rows kept are exactly the live ones, and compacting twice is compacting once |
| `Cache.MemoryCache.FlatEmbeddings` | crates/clawhdf5-agent/src/cache.rs:181-187 | is all embeddings one after another, in row order |
| `WriteAheadLog.FramedReads` | crates/clawhdf5-agent/src/wal.rs:408-564 | a log in which every entry is followed by its chain hash reads back whole, also when cut off after one more body |
| `WriteAheadLog.FramedAppend` | crates/clawhdf5-agent/src/wal.rs:241-305 | appending body and chain hash to such a log gives such a log |
| `WriteAheadLog.LeftReads` | crates/clawhdf5-agent/src/wal.rs:408-564 | every log an interrupted append can leave reads as the entries before it |
| `WriteAheadLog.ReadsExactly` | crates/clawhdf5-agent/src/wal.rs:408-564 | a log reads as some entries exactly when they stand at its front, each followed by its own chain hash, and nothing follows but perhaps an entry too close to the end for its hash; any other log is refused as corrupt |
| `WriteAheadLog.BodyLeaves` | crates/clawhdf5-agent/src/wal.rs:289-305 | an append interrupted after the body leaves a log that is readable and does not end in a chain hash |
| `WriteAheadLog.AppendReadsIffFramed` | crates/clawhdf5-agent/src/wal.rs:167-228 | after reopening, an append reads back exactly when the previous writer was not interrupted after a body; otherwise the log is refused as corrupt |
| `WriteAheadLog.ReplayGrows` | crates/clawhdf5-agent/src/wal.rs:567-590 | replay adds exactly one row per save |
| `WriteAheadLog.ReplayAppends` | crates/clawhdf5-agent/src/wal.rs:567-590 | a log of saves replays as its own rows appended to whatever was there |
| `WriteAheadLog.ReplayInto` | crates/clawhdf5-agent/src/wal.rs:567-590 | the replay loop computes that replay |
| `Storage.UniformBuilds` | crates/clawhdf5-agent/src/schema.rs:427-510 | embeddings of one length survive flattening and cutting |
| `Storage.LoadsIffUniform` | crates/clawhdf5-agent/src/schema.rs:427-510 | a written image loads as what was written exactly when every embedding has the configured, positive length |
| `Storage.StaleLogShowsIffSave` | crates/clawhdf5-agent/src/lib.rs:252-267 | a leftover log shows up in an empty store exactly when it holds a save |
| `VectorIndex.Build` | crates/clawhdf5-agent/src/lib.rs:388-411 | the index is absent exactly when the rows are not indexable, and otherwise holds them under equal ids with exactly the tombstoned ones deleted |
| `Hybrid.NodesAreLive` | crates/clawhdf5-agent/src/search.rs:28-38 | what the approximate search finds in a fresh index are live rows |
| `VectorIndex.DeleteMirrors` | crates/clawhdf5-agent/src/lib.rs:452-456 | deleting a row in cache and index together keeps the mirror, also when the row is past what the index covers |
| `VectorIndex.GrowMirrors` | crates/clawhdf5-agent/src/lib.rs:1501-1510 | pushes the index is not told about keep the mirror of the rows before |
| `VectorIndex.WeightsMirror` | crates/clawhdf5-agent/src/search.rs:129-133 | changing weights only keeps the mirror |
| `Store.WindowShape` | crates/clawhdf5-agent/src/lib.rs:358-370 | between rename and truncation recovery is the full cache followed by the pending rows, so the cache itself only if nothing was pending; a torn log header makes opening fail |
| `Store.FlushLosesNothing` | crates/clawhdf5-agent/src/lib.rs:358-370 | wherever a crash hits a flush, every live row of what is flushed is recovered up to its weight, or opening fails on a torn log beside an image that holds it |
| `Store.AppendMoves` | crates/clawhdf5-agent/src/wal.rs:241-305 | while a save is being appended, recovery gives the rows before it or the rows with it |
| `Store.AppendRecoversIff` | crates/clawhdf5-agent/src/lib.rs:584-608 | after append and push recovery is exact exactly when it was before |
| `Store.WalFile.Append` | crates/clawhdf5-agent/src/wal.rs:241-305 | on a sealed log every disk state on the way is one an interrupted append can leave, of the old or the new entries, and the log ends sealed; on a log ending in a bare body the log is refused afterwards; the header count lags by fewer than eight entries |
| `Store.WalFile.Truncate` | crates/clawhdf5-agent/src/wal.rs:354-370 | leaves an empty log; every disk state on the way is a torn header or an empty log, and the image is untouched |
| `Store.OpenLog` | crates/clawhdf5-agent/src/wal.rs:167-228 | succeeds exactly when the log reads; a fresh log is created if there is none; the handle is good exactly for a log a writer left whose header does not overcount, and sealed exactly when the file ends in a chain hash |
| `Store.Create` | crates/clawhdf5-agent/src/lib.rs:252-282 | fails exactly on an unreadable leftover log; the new store recovers as empty exactly when that log reads and holds no save |
| `Store.Open` | crates/clawhdf5-agent/src/lib.rs:303-351 | succeeds exactly when image and log can be read, with exactly the recovered contents; the store is usable exactly when a writer of saves left the log, interrupted or not |
| `Store.ReopenAndSave` | crates/clawhdf5-agent/src/lib.rs:303-351 | a save acknowledged by a store reopened after a crash behind an entry body makes the store refused, unless a flush came first or the save flushed; then it is durable |
| `Store.HDF5Memory.Flush` | crates/clawhdf5-agent/src/lib.rs:358-370 | afterwards the log is empty and sealed, also if it was refused before; recovery is exact exactly when all embeddings have the configured length, and then every disk state on the way holds the complete image |
| `Store.HDF5Memory.FlushWal` | crates/clawhdf5-agent/src/lib.rs:1542-1549 | the same with the log truncated a second time |
| `Store.HDF5Memory.FlushIfDue` | crates/clawhdf5-agent/src/lib.rs:607-616 | flushes exactly when there is no log or it is over its limit |
| `Store.HDF5Memory.HnswOnInsert` | crates/clawhdf5-agent/src/lib.rs:426-445 | keeps the mirror, by inserting or by asking for a rebuild |
| `Store.HDF5Memory.EnsureHnswFresh` | crates/clawhdf5-agent/src/lib.rs:416-423 | afterwards the index is absent exactly when the cache is not indexable, and otherwise holds every row under its id with exactly the tombstoned ones deleted |
| `Store.HDF5Memory.LogSave` | crates/clawhdf5-agent/src/wal.rs:241-305 | on a sealed log recovery moves from what it was to one row more, in every disk state on the way |
| `Store.HDF5Memory.Save` | crates/clawhdf5-agent/src/lib.rs:584-616 | appends the row, keeps the mirror, and says what is pending afterwards; recovery stays exact without a flush for any embedding, with one exactly when all lengths are right; every disk state on the way gives what was recoverable, that and the new row, or is in a flush; on a log ending in a bare body the store is refused afterwards unless it flushed |
| `Store.HDF5Memory.SaveOrUpdate` | crates/clawhdf5-agent/src/lib.rs:541-578 | updates the first live row with the tags in place, or saves; every disk state on the way and the pending log are as for a save, so a hit that did not flush is recovered as one more row and recovery is exact exactly on a flush with right lengths or a miss |
| `Store.HDF5Memory.SaveBatch` | crates/clawhdf5-agent/src/lib.rs:619-637 | appends all rows, returns their indices, and is durable exactly when all lengths are right |
| `Store.HDF5Memory.Delete` | crates/clawhdf5-agent/src/lib.rs:639-657 | fails exactly on a row that is not live, leaving everything as it was; otherwise tombstones it, compacts exactly when the threshold is positive and exceeded, and every disk state on the way survives |
| `Store.HDF5Memory.Compact` | crates/clawhdf5-agent/src/lib.rs:659-666 | keeps exactly the live rows; touches the disk exactly when there were others |
| `Store.HDF5Memory.Record` | crates/clawhdf5-agent/src/lib.rs:1493-1521 | without a strategy fails and changes nothing; otherwise pushes all entries unhooked, keeps the mirror, and is durable |
| `Store.HDF5Memory.PromoteEphemeral` | crates/clawhdf5-agent/src/lib.rs:1577-1621 | pushes all promoted entries unhooked, keeps the mirror, and is durable |
| `Store.HDF5Memory.TickSession` | crates/clawhdf5-agent/src/lib.rs:1525-1535 | multiplies every weight by the decay factor and changes nothing else, keeps the mirror, and is durable |
| `Store.HDF5Memory.HybridSearch` | crates/clawhdf5-agent/src/search.rs:85-133 | the index is made fresh; the hits are the rows of the top k merged scores of the vector stage and the keyword stage, neither of which lists a row twice, ordered by score times the root of their weight; all are live, none comes twice, exactly their weights grow, by the boost, and the result is durable |
| `Store.HDF5Memory.SetSide` | crates/clawhdf5-agent/src/lib.rs:489-506 | sessions and knowledge are written through without touching the rows |
| `StoreRuns.Perform` | crates/clawhdf5-agent/src/lib.rs:541-666 | every operation keeps the mirror and a sealed log; with embeddings of the right length it loses no live row but the one it deletes or replaces, every disk state inside it has a known crash shape, and the disk stays exact or ahead of the cache |
| `StoreRuns.CrashGives` | crates/clawhdf5-agent/src/lib.rs:353-370 | a crash anywhere in a step: opening gives the cache before it (or what the disk gave back, after an unflushed upsert hit), or that with the row being saved, or a cache of the step perhaps followed by the pending rows, or fails on a torn log beside its complete image |
| `StoreRuns.StepAt` | crates/clawhdf5-agent/src/lib.rs:353-370 | every disk state of a run belongs to one of its steps |
| `StoreRuns.StepLosesNothing` | crates/clawhdf5-agent/src/lib.rs:353-370 | no crash inside a step loses a live row that the step does not delete or replace |
| `StoreRuns.RowStays` | crates/clawhdf5-agent/src/lib.rs:541-666 | a live row stays in the cache, up to its weight, until a step deletes or replaces it |
| `StoreRuns.NoSaveLost` | crates/clawhdf5-agent/src/lib.rs:353-370 | in every run, an entry saved in one step whose row was not deleted or replaced since is found, field by field, in a live row of every disk state of every later step, or opening fails on a torn log beside an image that holds it |
| `StoreRuns.NoSaveLostAtRest` | crates/clawhdf5-agent/src/lib.rs:353-370 | in every run, such an entry is carried by a live row of the cache and of the disk when any later step has ended, the last included |
| `StoreRuns.Reopen` | crates/clawhdf5-agent/src/lib.rs:303-351 | opening any disk state inside a run succeeds exactly when it can be recovered, gives a usable store with the recovered contents, and its log is ready for appending exactly when the crash was not behind the body of an entry |
| `StoreRuns.ReopenAndRun` | crates/clawhdf5-agent/src/lib.rs:303-370 | after a crash at any disk state of a run, reopening and, if needed, a flush give a store on which any further run is again chained and sound from the recovered contents |
| `StoreRuns.Run` | crates/clawhdf5-agent/src/lib.rs:353-370 | in every run the mirror holds; with embeddings of the right length every step is sound for every disk state it went through and for the one it ended in, and at the end the disk gives back exactly the cache if and only if no upsert has hit since the last flush |
| `StoreExamples.UpsertIsRecoveredTwice` | crates/clawhdf5-agent/src/lib.rs:541-578 | a store with one updated row whose disk gives back two |
| `StoreExamples.StaleLogShows` | crates/clawhdf5-agent/src/lib.rs:252-282 | a freshly created store that does not recover as empty |
| `StoreExamples.BareBodyIsFatal` | crates/clawhdf5-agent/src/wal.rs:167-228 | a reopened store whose acknowledged save makes it refused |
| `Hybrid.NormalizedInUnit` | crates/clawhdf5-agent/src/hybrid.rs:102-122 | scaled scores keep their indices and lie between zero and one |
| `Hybrid.NormalizedExactly` | crates/clawhdf5-agent/src/hybrid.rs:102-122 | scaling is the linear map that sends the least score to zero and the greatest to one, and equal scores to zero |
| `Hybrid.NormalizedOrders` | crates/clawhdf5-agent/src/hybrid.rs:102-122 | scaling keeps the order of the scores strictly, in both directions |
| `Hybrid.MergeVectorKeyword` | crates/clawhdf5-agent/src/hybrid.rs:72-97 | the merged ranking is the top k by the sum of weighted, scaled scores over exactly the indices either stage found |
| `Hybrid.MergedExactly` | crates/clawhdf5-agent/src/hybrid.rs:72-97 | the merged score of a row is the weighted sum of its two scaled scores, with zero where a stage did not find it |
| `Hybrid.MergeOrders` | crates/clawhdf5-agent/src/hybrid.rs:72-97 | with positive weights, a row that does no worse in either stage and better in one has the greater merged score |
| `Hybrid.BetterRanksFirst` | crates/clawhdf5-agent/src/hybrid.rs:72-97 | such a row comes before the other one in the results, wherever the other one is in them |
| `Hybrid.VectorOrderKept` | crates/clawhdf5-agent/src/hybrid.rs:72-97 | with nothing found by keyword the results follow the vector scores |
| `Hybrid.VectorKeywordSearch` | crates/clawhdf5-agent/src/search.rs:18-58 | the results are the top k of the merged scores of the keyword hits and of either the answer of the index, if it has nodes of the right length, or the ranking of all live rows; every result is a live row, none twice |
| `Hybrid.RankHits` | crates/clawhdf5-agent/src/search.rs:102-122 | the hits are exactly the rows of the results, ordered by score times the root of the weight, live and distinct |
| `AsyncWriter.FlushHonest` | crates/clawhdf5-agent/src/async_memory.rs:489-505 | a flush that put its image in place leaves nothing acknowledged unflushed |
| `AsyncWriter.StepKeepsIff` | crates/clawhdf5-agent/src/async_memory.rs:446-545 | every event of writer, clients and timer keeps the promise that unflushed acknowledged rows are flagged dirty, exactly when it is not a failed save or a failed threshold or timer flush with such rows about |
| `AsyncWriter.KeptIffNeverForgets` | crates/clawhdf5-agent/src/async_memory.rs:446-545 | over any run, failures included, the promise holds throughout exactly when no event forgets |
| `AsyncWriter.SuccessNeverForgets` | crates/clawhdf5-agent/src/async_memory.rs:446-545 | a run in which no save and no flush fails never forgets |
| `AsyncWriter.ForgettingShows` | crates/clawhdf5-agent/src/async_memory.rs:470-505 | after an event that forgets, the next flush is skipped and answered Ok over an acknowledged row that is not in the image |
| `AsyncWriter.OkFlushIsHonest` | crates/clawhdf5-agent/src/async_memory.rs:489-523 | in every interleaving that never forgets, whatever else fails, when a flush (also a skipped one) or a tick is answered Ok, every save acknowledged by then is in the image or was deleted since |
| `AsyncWriter.FailedSaveHidesPending` | crates/clawhdf5-agent/src/async_memory.rs:470-470 | a run in which one failed save makes the next flush be skipped over an acknowledged row |
| `AsyncWriter.PendingDirtyIffOpenedClean` | crates/clawhdf5-agent/src/async_memory.rs:434-545 | pending log entries imply the dirty flag at every loop head of every run without failures, exactly when the store was opened without a pending log |
| `AsyncWriter.FlushesAtThreshold` | crates/clawhdf5-agent/src/async_memory.rs:473-491 | after an acknowledged save the writer flushes exactly when at least threshold entries are pending; then the image is the cache and the log empty, otherwise nothing is written and the flag stays up |
| `AsyncWriter.PendingBelowThresholdIff` | crates/clawhdf5-agent/src/async_memory.rs:446-491 | at every loop head of every run in which no save and no threshold flush fails, fewer than threshold entries are pending, exactly when that was so at the start |
| `AsyncWriter.AnsweredInOrder` | crates/clawhdf5-agent/src/async_memory.rs:446-528 | in every interleaving the commands are answered once each, in the order sent, each Ok exactly when its work was done |
| `AsyncWriter.AckedExactly` | crates/clawhdf5-agent/src/async_memory.rs:450-472 | the acknowledged rows are exactly those of the saves answered Ok |
| `AsyncWriter.AckedIsDurable` | crates/clawhdf5-agent/src/async_memory.rs:450-472 | at every point of every run, whatever fails, a row of a save answered Ok is in the image or the log, or was deleted since |
| `AsyncWriter.FlushRound` | crates/clawhdf5-agent/src/async_memory.rs:493-510 | a flush command writes the cache and empties the log exactly when the flag is up and nothing fails; a failed one keeps the flag up |
| `TempNames.DigitsInjective` | crates/clawhdf5-agent/src/storage.rs:255-260 | decimal numerals determine their number |
| `TempNames.TempNamesDistinct` | crates/clawhdf5-agent/src/storage.rs:255-260 | staging names are equal only for the same process and sequence number |
| `TempNames.TempIsNotLive` | crates/clawhdf5-agent/src/storage.rs:255-260 | a staging name is never the live path |
| `Restore.NewestVerifiedExact` | crates/clawhdf5-format/src/merkle_recovery.rs:147-155 | last-known-good is the newest record that verifies, absent exactly when none does |
| `Restore.SelectionGate` | crates/clawhdf5-format/src/merkle_recovery.rs:131-157 | a selected record is journaled, passes the signature gate and is of the version asked for or the newest that passes; selection fails exactly when there is none |
| `Restore.StepKeeps` | crates/clawhdf5-agent/src/storage.rs:187-248 | every file-system call of any restorer, failed or not, keeps names unique, records signed, and staged files past the gate as the gate saw them |
| `Restore.LiveAlwaysGood` | crates/clawhdf5-agent/src/storage.rs:187-248 | in every interleaving of any number of restores, whatever fails, the live file holds its initial bytes or bytes that passed both gates, and a settled restore whose clean-up worked has no temporary left |
| `Restore.LiveChangesOnlyOnRestore` | crates/clawhdf5-agent/src/storage.rs:187-248 | the live file changes only in the step that completes a restore, to bytes its gate accepted, so a failed restore leaves it alone |
| `Restore.SelectsExactly` | crates/clawhdf5-format/src/merkle_recovery.rs:131-157 | selection gives a record exactly when it is the signed, journaled one the target asks for |
| `Restore.GoodRestoreCompletes` | crates/clawhdf5-agent/src/storage.rs:187-248 | a restore in which no call fails can run to its end exactly when the snapshot asked for is there and the dataset gate accepts its bytes, and ends with these bytes as the live file |
| `Restore.RefusedIsRemoved` | crates/clawhdf5-agent/src/storage.rs:217-222 | a staged file that the dataset gate refuses is removed, the live file left as it was, and a failed removal is known |
| `Restore.GivesUpIffFailed` | crates/clawhdf5-agent/src/storage.rs:211-246 | in every interleaving a restore gives up exactly when one of its own calls failed or its dataset gate refused the bytes it had copied |
| `Restore.LiveIsLastPlaced` | crates/clawhdf5-agent/src/storage.rs:187-248 | in every interleaving the live file is exactly what the last restore to complete had copied from its snapshot, or as it was |
| `Restore.RestoreSettles` | crates/clawhdf5-agent/src/storage.rs:187-248 | no restore takes more than seven calls, and none is ever stuck: the next call of one that is not settled can succeed |
| `Traversal.BfsNeighbors` | crates/clawhdf5-agent/src/knowledge.rs:339-378 | returns each stored entity within the depth exactly once, never the seed, in order of depth, each with its shortest distance over stored entities |
| `Traversal.ExpandNode` | crates/clawhdf5-agent/src/knowledge.rs:352-374 | expanding one node keeps the search invariant |
| `Traversal.LabelIsDistance` | crates/clawhdf5-agent/src/knowledge.rs:339-378 | the depth at which the search finds a node is its shortest distance |
| `Traversal.GetSubgraph` | crates/clawhdf5-agent/src/knowledge.rs:387-417 | selects exactly the stored entities within the distance of some seed, and exactly the relations with both ends in that id set, both in stored order and as often as stored |
| `Traversal.RelationsClosedIffNoDanglingSeed` | crates/clawhdf5-agent/src/knowledge.rs:380-417 | all returned relations join stored entities exactly when no seed is unstored and related to an id in range |
| `Traversal.UnstoredEndDangles` | crates/clawhdf5-agent/src/knowledge.rs:387-417 | an unstored end of a returned relation is such a seed |
| `Traversal.UnstoredSeedDangles` | crates/clawhdf5-agent/src/knowledge.rs:387-417 | a graph and a seed for which a relation is returned without both its entities |
| `EditDistance.ComputeLevenshtein` | crates/clawhdf5-agent/src/knowledge.rs:127-152 | the two-row loop computes the recursive edit distance |
| `EditDistance.FillRow` | crates/clawhdf5-agent/src/knowledge.rs:137-147 | the inner loop turns one row of distances into the next |
| `EditDistance.DistanceTriangle` | crates/clawhdf5-agent/src/knowledge.rs:127-152 | the triangle inequality |
| `EditDistance.LevenshteinIsMetric` | crates/clawhdf5-agent/src/knowledge.rs:127-152 | the distance is symmetric, zero exactly on equal strings, and obeys the triangle inequality |
| `EditDistance.ShortestChain` | crates/clawhdf5-agent/src/knowledge.rs:127-152 | there is a chain of that many single edits |
| `EditDistance.ChainNoShorter` | crates/clawhdf5-agent/src/knowledge.rs:127-152 | no chain of single edits is shorter |
| `EditDistance.LevenshteinCountsEdits` | crates/clawhdf5-agent/src/knowledge.rs:127-152 | the distance is the least number of insertions, deletions and replacements |
| `Resolution.KnowledgeCache.AddEntity` | crates/clawhdf5-agent/src/knowledge.rs:194-209 | appends one entity under the next id, which no other has |
| `Resolution.KnowledgeCache.ResolveOrCreate` | crates/clawhdf5-agent/src/knowledge.rs:304-330 | returns the first entity at least distance within the bound and changes nothing, or creates one fresh entity exactly when none is near |
| `Resolution.KnowledgeCache.ResolveTwice` | crates/clawhdf5-agent/src/knowledge.rs:304-330 | resolving the same name twice gives the same id |
| `Resolution.SearchOutcomeUnique` | crates/clawhdf5-agent/src/knowledge.rs:304-330 | the outcome of the search is determined |
| `Resolution.LoadNextId` | crates/clawhdf5-agent/src/schema.rs:557-570 | negative ids are refused; otherwise the next id is the least above all loaded ones |
| `Markdown.ParseSections` | crates/clawhdf5-agent/src/openclaw.rs:173-250 | the scanning loop computes the sections, and they tile the document |
| `Markdown.ParseTiles` | crates/clawhdf5-agent/src/openclaw.rs:173-250 | sections follow each other without gap to the last line; each is its heading line and its body without trailing empty lines, no body holds a boundary, and before the first there are only blank lines |
| `Markdown.BoundaryExactly` | crates/clawhdf5-agent/src/openclaw.rs:150-170 | a line starts a section exactly when it is one to six hashes, at least the threshold, followed by nothing or by a rest that begins with a space; the title is the rest without the white space around it |
| `Markdown.HashtagIsContent` | crates/clawhdf5-agent/src/openclaw.rs:163-167 | hashes directly before any other character never start a section |
| `Markdown.HeadingsStartSections` | crates/clawhdf5-agent/src/openclaw.rs:173-222 | exactly the heading lines at the threshold start sections, with their level and title |
| `MarkdownText.LinesOfText` | crates/clawhdf5-agent/src/openclaw.rs:176-176 | the lines of any text are what stands before each newline, without one carriage return before it, and what follows the last newline |
| `MarkdownText.TrimNewlinesExactly` | crates/clawhdf5-agent/src/openclaw.rs:234-236 | content loses all newlines at its end and nothing else |
| `Markdown.BlankContent` | crates/clawhdf5-agent/src/openclaw.rs:227-240 | a discarded preamble consists of blank lines only |
| `MarkdownRoundTrip.ExportSections` | crates/clawhdf5-agent/src/openclaw.rs:258-274 | the printing loop computes the export |
| `MarkdownRoundTrip.ExportConcat` | crates/clawhdf5-agent/src/openclaw.rs:258-274 | exports of two runs of sections are joined by an empty line |
| `MarkdownRoundTrip.HeadingLineParses` | crates/clawhdf5-agent/src/openclaw.rs:155-170 | a printed heading reads back with its level and title |
| `MarkdownRoundTrip.BodyOfContent` | crates/clawhdf5-agent/src/openclaw.rs:227-240 | content and body without trailing empty lines determine each other |
| `MarkdownRoundTrip.ExportParses` | crates/clawhdf5-agent/src/openclaw.rs:155-274 | parsing the exported lines gives the same headings, levels and contents |
| `MarkdownRoundTrip.ParseCrs` | crates/clawhdf5-agent/src/openclaw.rs:173-250 | parsing makes no carriage returns |
| `MarkdownRoundTrip.RoundTripIff` | crates/clawhdf5-agent/src/openclaw.rs:155-274 | for every text and threshold, parse-export-parse gives the same headings, levels and contents exactly when no content line ends in a carriage return |
| `MarkdownRoundTrip.RoundTripWithoutCrs` | crates/clawhdf5-agent/src/openclaw.rs:155-274 | every text without carriage returns round-trips |
| `MarkdownRoundTrip.BareCrIsLost` | crates/clawhdf5-agent/src/openclaw.rs:173-250 | a text that does not round-trip |
| `Hex.HexEncode` | crates/clawhdf5-agent/src/integrity.rs:272-279 | the loop writes two lower-case digits per byte |
| `Hex.HexDecode` | crates/clawhdf5-agent/src/integrity.rs:281-293 | fails exactly on odd length or a character that is no digit, and otherwise reads the pairs |
| `Hex.DecodeOfEncode` | crates/clawhdf5-agent/src/integrity.rs:272-293 | decoding undoes encoding on every byte string |
| `Hex.EncodeOfDecode` | crates/clawhdf5-agent/src/integrity.rs:272-293 | encoding undoes decoding up to letter case |
| `Leaves.FieldFront` | crates/clawhdf5-agent/src/integrity.rs:86-89 | no field is a proper prefix of another of its shape |
| `Leaves.FieldsInjective` | crates/clawhdf5-agent/src/integrity.rs:86-89 | field lists of one shape with equal bytes are equal |
| `Leaves.LittleEndianValue` | crates/clawhdf5-agent/src/integrity.rs:86-89 | the bytes of a number that fits stand for it, the least significant first |
| `StoreLeaves.EncodeLeaf` | crates/clawhdf5-agent/src/integrity.rs:104-132 | the pushing loop writes tag and fields |
| `StoreLeaves.AllLeaves` | crates/clawhdf5-agent/src/integrity.rs:95-181 | builds the leaves of all five sections in order, and none at all exactly for an empty store |
| `LeafReader.MemoryReadsBack` | crates/clawhdf5-agent/src/integrity.rs:104-132 | the leaf of a memory row gives back every field of the row under its name, with the defaults where an array is short |
| `LeafReader.SessionReadsBack` | crates/clawhdf5-agent/src/integrity.rs:134-147 | so does the leaf of a session |
| `LeafReader.EntityReadsBack` | crates/clawhdf5-agent/src/integrity.rs:149-157 | so does the leaf of an entity |
| `LeafReader.RelationReadsBack` | crates/clawhdf5-agent/src/integrity.rs:159-168 | so does the leaf of a relation |
| `LeafReader.AliasReadsBack` | crates/clawhdf5-agent/src/integrity.rs:170-178 | so does the leaf of an alias |
| `LeafReader.ReadsOnce` | crates/clawhdf5-agent/src/integrity.rs:71-89 | a leaf reads as one record only |
| `StoreLeaves.SectionsAgree` | crates/clawhdf5-agent/src/integrity.rs:71-77 | equal leaf lists agree section by section, because of the tags |
| `StoreLeaves.LeavesInjective` | crates/clawhdf5-agent/src/integrity.rs:95-181 | two full stores with equal leaf lists are equal in every covered field |
| `StoreLeaves.LeavesOfCompleted` | crates/clawhdf5-agent/src/integrity.rs:104-132 | a missing trailing element and a present default give the same leaves |
| `StoreLeaves.LeavesEqualIff` | crates/clawhdf5-agent/src/integrity.rs:95-181 | any two stores have equal leaves exactly when they complete to the same store |
| `StoreLeaves.FullIffCompleted` | crates/clawhdf5-agent/src/schema.rs:450-470 | the stores with all arrays of full length, as the loader returns them, are exactly those that are their own completion |
| `StoreLeaves.FullIffLoaded` | crates/clawhdf5-agent/src/schema.rs:436-510 | every store the loader returns is full, norms and weights included, and the full stores are exactly those it returns unchanged |
| `StoreLeaves.LoadedLeavesEqualIff` | crates/clawhdf5-agent/src/schema.rs:436-636 | for any two files the loader does not refuse, the leaves of what it returns agree exactly when the returned stores are equal |
| `StoreLeaves.ShortTombstonesInvisible` | crates/clawhdf5-agent/src/schema.rs:450-470 | dropping a trailing live tombstone is invisible to the leaves, and the length check refuses it |
| `Quantizer.Encode` | crates/clawhdf5-agent/src/pq.rs:140-163 | each code is the first nearest centroid of its segment |
| `Quantizer.Decode` | crates/clawhdf5-agent/src/pq.rs:166-180 | concatenates the centroids the codes name |
| `Quantizer.CodeDistanceIsDecodedDistance` | crates/clawhdf5-agent/src/pq.rs:205-217 | the sum of segment distances is the squared distance to the decoded vector |
| `Quantizer.EncodingIsOptimal` | crates/clawhdf5-agent/src/pq.rs:140-163 | greedy encoding minimises the distance to the decoded vector over all code tuples |
| `Quantizer.ReencodingIsStable` | crates/clawhdf5-agent/src/pq.rs:140-180 | re-encoding a decoded vector decodes to the same vector |
| `Quantizer.PrecomputeDistanceTable` | crates/clawhdf5-agent/src/pq.rs:183-202 | the table holds the distance of every query segment to every centroid |
| `Quantizer.AsymmetricDistanceWithTable` | crates/clawhdf5-agent/src/pq.rs:205-211 | the table look-up equals the squared distance from query to decoded vector |
| `SquaredDistance.L2ZeroIffEqual` | crates/clawhdf5-agent/src/pq.rs:319-326 | the distance is zero exactly on equal vectors |
| `Lloyd.AssignStep` | crates/clawhdf5-agent/src/pq.rs:78-98 | assigns every vector to the first nearest centroid and reports exactly whether anything changed |
| `Lloyd.NearestMinimises` | crates/clawhdf5-agent/src/pq.rs:78-98 | no other assignment has a smaller total error |
| `Lloyd.UpdateStep` | crates/clawhdf5-agent/src/pq.rs:103-126 | every centroid becomes the mean of its vectors, zero if it has none |
| `Lloyd.MeansMinimise` | crates/clawhdf5-agent/src/pq.rs:103-126 | no other centroids have a smaller total error under this assignment, empty clusters included |
| `Lloyd.Iterate` | crates/clawhdf5-agent/src/pq.rs:78-126 | one round is an assignment and, if that changed anything, an update, and neither raises the error |
| `Lloyd.TrainSegment` | crates/clawhdf5-agent/src/pq.rs:56-127 | the clusterings after each step take turns between assignments to the nearest centroid and updates to the means, none has a larger error than the one before, training stops exactly on an assignment that changed nothing or at the limit, and the last error is no larger than that of any assignment to the initial centroids |
| `QuantizerTraining.Train` | crates/clawhdf5-agent/src/pq.rs:31-137 | every segment of the trained codebook reads back from the flat layout and is the end of a settled descent from its initial centroids, with the error never growing |
| `Ephemeral.EphemeralStore.CleanupExpiredInternal` | crates/clawhdf5-agent/src/ephemeral.rs:132-140 | keeps exactly the entries that have not expired and counts the rest |
| `Ephemeral.EphemeralStore.EvictOne` | crates/clawhdf5-agent/src/ephemeral.rs:143-160 | removes one entry least in access count, then in last access |
| `Ephemeral.EphemeralStore.Set` | crates/clawhdf5-agent/src/ephemeral.rs:168-196 | is a lazy set step: cleans up and then evicts only when full and the key is new; the entry holds the value, with no accesses, from now on |
| `Ephemeral.EphemeralStore.Get` | crates/clawhdf5-agent/src/ephemeral.rs:233-261 | returns the value exactly if present and not expired, and counts the hit or miss and, if tracked, the access |
| `Ephemeral.EphemeralStore.ExistsKey` | crates/clawhdf5-agent/src/ephemeral.rs:339-350 | is true exactly for a present entry that has not expired |
| `Ephemeral.EphemeralStore.LiveKeys` | crates/clawhdf5-agent/src/ephemeral.rs:543-550 | lists exactly the keys that have not expired |
| `Ephemeral.EphemeralStore.CleanupExpired` | crates/clawhdf5-agent/src/ephemeral.rs:395-400 | is a clean-up step |
| `Ephemeral.SetLivesExactly` | crates/clawhdf5-agent/src/ephemeral.rs:168-261 | an entry set at one time is found at another exactly when its lifetime has not run out; one that is not positive never does |
| `Ephemeral.RetimedLivesExactly` | crates/clawhdf5-agent/src/ephemeral.rs:233-372 | the same after a new lifetime, for an entry that is there, expired or not |
| `Ephemeral.StepKeepsWellFormed` | crates/clawhdf5-agent/src/ephemeral.rs:132-261 | every step keeps all expiry times from being negative, on which every call of the store relies |
| `Ephemeral.StepRefines` | crates/clawhdf5-agent/src/ephemeral.rs:132-261 | every lazy step is, on the live view, a step of the store that drops expired entries at once and evicts a least used one only when its live count is at capacity; size stays within capacity |
| `Ephemeral.RunRefines` | crates/clawhdf5-agent/src/ephemeral.rs:132-261 | every lazy run with a monotone clock has an eager run with the same answers whose states are its live views |
| `Ephemeral.RunBounded` | crates/clawhdf5-agent/src/ephemeral.rs:168-196 | the physical size never exceeds a positive capacity |
| `Ephemeral.CapacityHoldsIffPositive` | crates/clawhdf5-agent/src/ephemeral.rs:168-196 | a set keeps to the capacity exactly when it is positive |
| `Ephemeral.SetTtlRefinesIff` | crates/clawhdf5-agent/src/ephemeral.rs:363-372 | changing a lifetime refines the eager store exactly when the entry is not expired and still present |
| `Ephemeral.DeleteRefinesIff` | crates/clawhdf5-agent/src/ephemeral.rs:353-357 | deletion always refines the live view; its answer agrees exactly when the entry is not expired and still present |
| `Ephemeral.SetTtlRevives` | crates/clawhdf5-agent/src/ephemeral.rs:363-372 | an expired entry that a new lifetime brings back |
| `Ephemeral.DeleteReportsExpired` | crates/clawhdf5-agent/src/ephemeral.rs:353-357 | an expired entry that deletion still reports |
| `Ephemeral.ZeroCapacityOverflows` | crates/clawhdf5-agent/src/ephemeral.rs:168-196 | a store of capacity zero that keeps an entry |
| `Consolidation.ConsolidationEngine.constructor` | crates/clawhdf5-agent/src/consolidation.rs:193-200 | starts empty |
| `Consolidation.ConsolidationEngine.AddMemory` | crates/clawhdf5-agent/src/consolidation.rs:205-245 | appends a Working record under an id no record has, never accessed and created now |
| `Consolidation.ConsolidationEngine.AccessMemory` | crates/clawhdf5-agent/src/consolidation.rs:248-253 | adds one access at this time to the record with the id and leaves the others as they are |
| `Consolidation.ConsolidationEngine.Promote` | crates/clawhdf5-agent/src/consolidation.rs:299-323 | moves exactly the due records of a tier one tier up and counts them |
| `Consolidation.ConsolidationEngine.Evict` | crates/clawhdf5-agent/src/consolidation.rs:278-294 | evicts the overflow of a tier and counts it |
| `Consolidation.ConsolidationEngine.ConsolidateAll` | crates/clawhdf5-agent/src/consolidation.rs:256-353 | one cycle is the consolidation step of the state machine |
| `Consolidation.VictimsExact` | crates/clawhdf5-agent/src/consolidation.rs:262-291 | the victims are records of the tier, as many as overflow, none less decayed than a survivor |
| `Consolidation.DecayOrders` | crates/clawhdf5-agent/src/consolidation.rs:171-178 | a record that is no less important, no less often and no less recently accessed is no more decayed |
| `Consolidation.DecaysExponentially` | crates/clawhdf5-agent/src/consolidation.rs:171-178 | left alone a record decays exponentially; just accessed it counts its importance once per access and once more |
| `Consolidation.EvictTierEvicts` | crates/clawhdf5-agent/src/consolidation.rs:278-294 | eviction leaves the tier within capacity and every other tier as it was, and loses exactly the victims |
| `Consolidation.ConsolidateBounds` | crates/clawhdf5-agent/src/consolidation.rs:256-353 | both capacities hold after every cycle |
| `Consolidation.ConsolidateFates` | crates/clawhdf5-agent/src/consolidation.rs:256-353 | in a cycle first the Working overflow goes, then records climb, Working ones above the importance threshold and Episodic ones above the access threshold, and then the Episodic overflow goes |
| `Consolidation.ConsolidateKeepsInv` | crates/clawhdf5-agent/src/consolidation.rs:256-353 | a cycle keeps ids increasing, next id = records + evictions, and promotions = tier ranks + Episodic evictions |
| `Consolidation.StepDescends` | crates/clawhdf5-agent/src/consolidation.rs:205-353 | every operation keeps that accounting, moves no tier back and loses no Semantic record |
| `Consolidation.RunDescends` | crates/clawhdf5-agent/src/consolidation.rs:205-353 | so does every run |
| `Sorting.SortIsStableSort` | crates/clawhdf5-agent/src/vector_search.rs:61-62 | insertion sort is a sorted permutation that keeps equal keys in order |
| `Sorting.StableSortUnique` | crates/clawhdf5-agent/src/vector_search.rs:61-62 | there is only one stable sort of a list |
| `Sorting.SortOfConcat` | crates/clawhdf5-agent/src/vector_search.rs:195-205 | the stable sort of two lists is the merge of their stable sorts |
| `Sorting.TakeOfMerge` | crates/clawhdf5-agent/src/vector_search.rs:195-205 | the top of a merge needs only the tops of its parts |
| `Sorting.ChunkedTopK` | crates/clawhdf5-agent/src/vector_search.rs:163-206 | sorting and truncating chunks, concatenating, sorting and truncating gives the sequential top, ties included |
| `VectorSearch.CandidatesExact` | crates/clawhdf5-agent/src/vector_search.rs:36-59 | the scan lists exactly the live vectors, once each, with their scores |
| `VectorSearch.CosineSimilarityBatch` | crates/clawhdf5-agent/src/vector_search.rs:23-63 | is the stable descending ranking of the live vectors, empty for a zero query |
| `VectorSearch.ParallelCosineBatch` | crates/clawhdf5-agent/src/vector_search.rs:163-206 | for every number of threads and k, is exactly the first k of the sequential ranking |
| `VectorSearch.TopKExact` | crates/clawhdf5-agent/src/vector_search.rs:97-105 | a top-k list holds the best candidates, best first, with the score sequence of the sorted candidates and no index twice |
| `VectorSearch.RankingIsBest` | crates/clawhdf5-agent/src/vector_search.rs:23-105 | the first k of the ranking are the best live vectors, best first |
| `InvertedFile.BuildInvertedLists` | crates/clawhdf5-agent/src/ivf.rs:143-147 | list c holds exactly the vectors assigned to c, in order |
| `InvertedFile.ListsPartition` | crates/clawhdf5-agent/src/ivf.rs:143-147 | the lists partition the indices |
| `InvertedFile.ClusterOrderPermutes` | crates/clawhdf5-agent/src/ivf.rs:322-347 | ordering the clusters loses and repeats none |
| `InvertedFile.ClusterOrderDescends` | crates/clawhdf5-agent/src/ivf.rs:322-347 | the most similar cluster comes first |
| `InvertedFile.TargetListsExact` | crates/clawhdf5-agent/src/ivf.rs:149-228 | a vector goes to exactly redundancy-many distinct lists, its primary among them |
| `InvertedFile.SharedListsExact` | crates/clawhdf5-agent/src/ivf.rs:149-228 | each vector sits in exactly that many shared lists, its primary and the best others |
| `InvertedFile.BuildIndex` | crates/clawhdf5-agent/src/ivf.rs:143-228 | from any assignment to clusters, the lists partition the vectors, each vector sits in exactly redundancy-many shared lists, its primary and the best others, and every entry names its primary list |
| `IvfTraining.KMeans` | crates/clawhdf5-agent/src/ivf.rs:91-141 | runs from evenly spaced seeds through rounds that each assign every vector to its most similar centroid and take the means; ends settled, with every vector at its most similar centroid, or after exactly the limit of rounds; unless it settled in the first round, every centroid is the mean of its vectors |
| `IvfTraining.SeedsSpaced` | crates/clawhdf5-agent/src/ivf.rs:91-103 | with no more clusters than vectors the seeds stand at equal distances, from the first vector on |
| `IvfTraining.StrideExact` | crates/clawhdf5-agent/src/ivf.rs:93-97 | the distance is the greatest that lets all seeds fall inside |
| `IvfTraining.TrainRairs` | crates/clawhdf5-agent/src/ivf.rs:81-228 | training gives partitioned lists and exact shared lists for the clustering it found, with cluster count and redundancy clamped |
| `InvertedFile.ToStored` | crates/clawhdf5-agent/src/ivf.rs:368-387 | offsets and data are the running lengths and the concatenation |
| `InvertedFile.FromStored` | crates/clawhdf5-agent/src/ivf.rs:390-428 | cuts the data at the offsets, with shared lists mirroring the primary ones |
| `InvertedFile.FlattenedSlice` | crates/clawhdf5-agent/src/ivf.rs:368-428 | the slice between two offsets is the list |
| `InvertedFile.StoreAndReload` | crates/clawhdf5-agent/src/ivf.rs:368-428 | storing and reloading restores the lists |
| `IvfSearch.Search` | crates/clawhdf5-agent/src/ivf.rs:237-274 | ranks the live vectors of the probed lists |
| `IvfSearch.SearchRairs` | crates/clawhdf5-agent/src/ivf.rs:277-319 | ranks the live vectors of the probed shared lists, each once |
| `IvfSearch.ProbeBest` | crates/clawhdf5-agent/src/ivf.rs:322-347 | as many clusters as asked for are probed, and no other one is more similar |
| `IvfSearch.SearchProbesExactly` | crates/clawhdf5-agent/src/ivf.rs:237-319 | for any number of probes, the searches return the best live vectors of the probed clusters, and of the probed shared lists |
| `IvfSearch.SearchAllIsExact` | crates/clawhdf5-agent/src/ivf.rs:237-274 | probing all clusters gives the brute-force top-k |
| `IvfSearch.SearchRairsAllIsExact` | crates/clawhdf5-agent/src/ivf.rs:277-319 | so does probing all shared lists |
| `IvfSearch.SearchSound` | crates/clawhdf5-agent/src/ivf.rs:237-319 | any probe returns only live vectors with their scores, none twice |
| `Bm25.PostingsAreExact` | crates/clawhdf5-agent/src/bm25.rs:171-210 | postings are strictly increasing and hold exactly the live documents with the term, with their counts |
| `Bm25.VocabularyExact` | crates/clawhdf5-agent/src/bm25.rs:171-210 | a term is indexed exactly when it has a posting |
| `Bm25.AveragePositive` | crates/clawhdf5-agent/src/bm25.rs:205-218 | the average length is positive whenever it divides |
| `Bm25.NaiveHitsExact` | crates/clawhdf5-agent/src/bm25.rs:58-158 | the naive scan lists exactly the live documents with a query term, once each, with their scores |
| `Bm25.IdfOrders` | crates/clawhdf5-agent/src/bm25.rs:212-217 | a rarer term weighs more, and every term weighs something |
| `Bm25.IdfClosedForm` | crates/clawhdf5-agent/src/bm25.rs:212-217 | the inverse document frequency is the logarithm of one more than the documents over half more than those with the term |
| `Bm25.TermFrequencyOrders` | crates/clawhdf5-agent/src/bm25.rs:104-112 | the part of the term frequency grows with the occurrences up to a limit, shrinks with the length, and is one for one occurrence in a document of average length |
| `Bm25.TokenScoreIsBm25` | crates/clawhdf5-agent/src/bm25.rs:104-112 | what a token adds to a document is the BM25 product over the live documents, those with the token, and its multiplicity; nothing if it is not there |
| `Bm25.ScoreAdds` | crates/clawhdf5-agent/src/bm25.rs:104-143 | a query scores as its parts together |
| `Bm25.BM25Index.Build` | crates/clawhdf5-agent/src/bm25.rs:39-55 | builds the index of the documents |
| `Bm25.BM25Index.Rebuild` | crates/clawhdf5-agent/src/bm25.rs:161-168 | gives the index a fresh build would give, whatever was there |
| `Bm25.IndexDetermined` | crates/clawhdf5-agent/src/bm25.rs:161-218 | the documents determine the index in every field |
| `Bm25.BM25Index.Search` | crates/clawhdf5-agent/src/bm25.rs:58-158 | accumulating over postings gives the top-k of the naive scan; the threshold bookkeeping changes nothing |
| `Bm25.ScoresGiveTopK` | crates/clawhdf5-agent/src/bm25.rs:120-158 | ranking accumulated scores in any order of the map gives that top-k |
| `Fletcher32.ScalarChecksum` | crates/clawhdf5-accel/src/scalar.rs:64-84 | the reference loop computes the checksum |
| `Fletcher32.SumsClosedForm` | crates/clawhdf5-accel/src/scalar.rs:64-84 | the two sums are the plain and the weighted word sums modulo 65535 |
| `Fletcher32.ChecksumClosedForm` | crates/clawhdf5-accel/src/scalar.rs:64-84 | the halves of the checksum are the word sum and the position-weighted word sum modulo 65535, and all ones for no data |
| `Fletcher32.OddIsPadded` | crates/clawhdf5-accel/src/scalar.rs:64-84 | a trailing odd byte counts as if a zero byte followed |
| `Fletcher32.BlockedChecksum` | crates/clawhdf5-accel/src/avx2.rs:188-215 | the blocked loop with delayed modulo never overflows 32 bits and gives the same checksum, for empty and odd lengths too |
| `Fletcher32.CeilingFits` | crates/clawhdf5-accel/src/neon.rs:148-178 | the largest second sum a block can reach fits 32 bits exactly up to 360 words |
| `Fletcher32.BlockSafeExactlyUpTo360` | crates/clawhdf5-accel/src/avx2.rs:188-215 | a block size is safe for all words exactly up to 360 |

## Left out

- HDF5 file building and reading, compression, fixed-length string padding and `norms` as stored data: the image is its datasets, and norms are derived from embeddings.
- Merkle verification on load, signatures and hashing: gates are predicates, and a chain hash is taken to determine the entries it commits to.
- Crashes inside a single write call, and version-1 logs: a disk action is one write, rename or create.
- I/O failures in the store itself: `Store` has every call succeed; failing flushes and saves are in `AsyncWriter`, failing file calls in `Restore`.
- The search inside the HNSW graph: the index is its vectors and its deleted set.
- Store.HDF5Memory.HybridSearch: the approximate search in the index is any function that finds nodes not deleted, none twice; similarity, logarithm and square root are arbitrary, and reciprocal rank fusion is not modelled.
- Store.HDF5Memory.Record: takes what the strategy decided as input, and the knowledge updates as opaque content.
- AsyncWriter.OkFlushIsHonest: names rows by numbers instead of contents; what a flush writes is proved in `Store`. The bound on the channel is not modelled.
- AsyncWriter.FlushesAtThreshold: a panic while the pending count is read, which the code takes for zero, is not modelled.
- Restore.LiveAlwaysGood: assumes that no other process writes the live or the staging files, and that process ids are not reused while a restore runs.
- IvfTraining.TrainRairs: similarities and the scores behind the shared lists are arbitrary functions of the vectors and centroids; balance checks and IVF-PQ are not modelled.
- Quantizer.Encode: the initial bound `f32::MAX` is taken to exceed every distance.
- Lloyd.TrainSegment: exact arithmetic; rounding is not modelled.
- Bm25.BM25Index.Search: starts from tokens; the tokenizer and the unused upper bounds (`max_tf_score`, `remaining_max`) are not modelled.
- Ephemeral.RunRefines: texts, embeddings and tags of ephemeral entries, their searches and promotion are not modelled; the clock is monotone and not negative.
- Consolidation.ConsolidationEngine.AddMemory: the importance score is an input; `get_stats` is not modelled.
- Resolution.KnowledgeCache.ResolveOrCreate: lower-casing is an arbitrary function; timestamps and properties are not modelled.
- `spreading_activation`, alias resolution, entity extraction, query expansion, reranking, decision gates and report text: single-pass filters and word tables with easier claims.
- SIMD, BLAS and GPU kernels, and half-precision conversion.
