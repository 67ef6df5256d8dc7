# STLdb durability, as a verified model

STLdb keeps transactional maps in shared memory and makes them durable with a write-ahead log and
checkpoints.  This project models that machinery in Dafny and proves what it is for: that a checkpoint
is a snapshot, that the log reads back as what was committed, that memory, log and checkpoint agree, and
that the concurrent parts neither corrupt each other nor deadlock.

Code that updates state in place is modelled by classes whose methods are proved against functions on
values.  Concurrent parts are protocols: a state, a set of atomic events, and theorems over every
sequence of them; the methods are proved to be events, or runs of events, of these protocols.

- **Page checkpoints** (`CheckpointInfo`, `SnapshotProtocol`, `SnapshotInvariant`, `SnapshotTheorems`,
  `CheckpointManager`): a region of n pages and a file of 2n, with any number of writing threads, the
  fault handler and the copier.
- **Checkpoint file space** (`ExtentSets`, `Extents`, `ExtentTheorems`, `CheckpointStream`,
  `CheckpointScan`): best-fit allocation, deferred frees, coalescing, clearing, and reading back.
- **Log** (`Checksum`, `LogFormat`, `Os`, `LogReader`, `GroupCommit`, `GroupCommitInvariant`,
  `GroupCommitTheorems`, `GroupCommitFiles`, `GroupCommitFailures`, `LogIntegrity`, `Logger`): records as bytes,
  group commit by any number of threads, file rolls, failing writes, and the reader on whole, truncated,
  damaged and arbitrary files.
- **Log selection and recovery** (`LogSelection`, `RecoveryManager`, `RecoveryTheorems`).
- **Transactions** (`Rows`, `RowCommit`, `TransMap`, `Transactions`, `Calls`, `Commit`, `Scan`): row locks,
  calls, commit, rollback, forward scans, any number of interleaved transactions.
- **Recovery of contents** (`Recovery`, `Durability`, `CheckpointRuns`): replay over a fuzzy checkpoint, and
  the way from a running database, checkpointed as it runs, to its recovery.
- **Locks of commits** (`PicketLockSet`, `LockOrder`, `CommitLocks`).

`Ordered` holds the ordered-set operations that several parts use.

Where the code does not do what its documentation promises, the model follows the code; each of these
has a concrete case and the exact condition under which the promise holds:

- Two updates of one row in a transaction commit to the first value and are logged with the last
  (`RowCommit.TwoUpdatesDiffer`, `RowCommit.CommitAgreesWithLog`).
- A row that a transaction inserted and erased again stays visible to forward scans until it commits
  (`Scan.ErasedInsertIsShown`, `Scan.ViewIsIsolated`).
- A checkpoint scan misses the last entry of a file that does not end in free space
  (`CheckpointScan.FullSegmentIsLost`, `CheckpointScan.LastEntryMissed`).
- Clearing a checkpoint file with a gap pending in part loses space or counts it twice
  (`ExtentTheorems.ClearLosesSpace`, `ExtentTheorems.ClearKeepsTiling`); its callers clear before
  anything is pending.
- `stldb_lib/docs/logging.qbk:25` says that a checkpoint contains all transactions up to its start.  The
  start is the last LSN written, and a transaction is applied only after it is written, so several
  written transactions may not be in the maps yet (`Durability.WrittenButNotApplied`).
  A row is recovered if and only if its lock holder, when the row is captured, is not logged at or below
  the start with a change still to be applied (`CheckpointRuns.CommittedIsInLog`,
  `CheckpointRuns.CapturedRowRecovers`).
- With a maximum log length of zero `log` never returns (`GroupCommitInvariant.PassTakesSome`,
  `GroupCommitTheorems.NoLengthNoProgress`).
- A lock call by a transaction whose id equals the LSN of the row's last commit succeeds and takes no lock;
  ids (`stldb_lib/stldb/Database.h:125`) and LSNs (`stldb_lib/stldb/logger.h:85`) both count from 1
  (`Transactions.LockNotHeld`, `Rows.LockIsHeld`).
- Erasing, re-inserting and erasing a row again makes commit follow an iterator to an erased row
  (`RowCommit.ErasedTwice`, with the condition of `RowCommit.CommitAgreesWithLog`).
- A thread returns from `log` although no write of its buffer has succeeded, if another thread had taken
  the buffer and failed to write it (`GroupCommitFailures.ReturnedAndLost`,
  `GroupCommitFailures.ReturnedIsWritten`); `stldb_lib/stldb/transaction.h:467-473` expects the exception to
  reach the client.

## Model

| member | source | states |
|---|---|---|
| `PageMap.CheckpointInfo.constructor` | stldb_lib/stldb/detail/checkpoint_manager_impl.h:136-158 | a fresh map of 2n pages: nothing placed, every page free |
| `PageMap.CheckpointInfo.Grow` | stldb_lib/stldb/detail/checkpoint_manager_impl.h:172-178 | old places stay, exactly the new pages become free, the map stays a partition |
| `CheckpointManagerImpl.RegionChangeInfo.Grow` | stldb_lib/stldb/detail/checkpoint_manager_impl.h:79-83 | the new pages are unchanged, what is recorded stays |
| `CheckpointManagerImpl.CheckpointManager.Grow` | stldb_lib/stldb/detail/checkpoint_manager_impl.h:172-181 | the page map and both change records grow together |
| `PageMap.CheckpointInfo.NearestFree` | stldb_lib/stldb/detail/checkpoint_manager_impl.h:193-207 | the one-step search up and back finds a nearest free page, the lower of two equally near ones |
| `PageMap.CheckpointInfo.Allocate` | stldb_lib/stldb/detail/checkpoint_manager_impl.h:183-212 | the page moves to the nearest free place, its old place becomes pending, and used, free and pending pages still partition [0,2n) with page_locs and ckpt_content mutual inverses |
| `PageMap.CheckpointInfo.CompleteCheckpoint` | stldb_lib/stldb/detail/checkpoint_manager_impl.h:214-224 | pending pages become free, nothing else moves, the partition holds |
| `PageMap.FreePageLeft` | stldb_lib/stldb/detail/checkpoint_manager_impl.h:185-212 | no exhaustion: while a page has not been copied this cycle and every pending page is the old place of a copied one, some page is free |
| `SnapshotTheorems.NeverFails` | stldb_lib/src/checkpoint_manager_impl.cpp:252-318 | over every interleaving: allocate always finds a free page, modified_pages never overflows, both BOOST_VERIFYs hold, the page map is consistent |
| `SnapshotTheorems.CheckpointIsSnapshot` | stldb_lib/src/checkpoint_manager_impl.cpp:252-318 | at completion every placed page holds in the file what the region held at the swap, and a page without a place was never stored to, whatever writers, handlers and copier did between |
| `SnapshotTheorems.LastCheckpointUntouched` | stldb_lib/stldb/detail/checkpoint_manager_impl.h:185-224 | until the next completion no page of the last completed mapping is overwritten or free to be handed out |
| `SnapshotTheorems.EveryChangedPageOnce` | stldb_lib/src/checkpoint_manager_impl.cpp:124-142 | between swap and completion each page changed before the swap is copied once, by the handler or by the copier, and no other page is copied |
| `SnapshotInvariant.EventKeeps` | stldb_lib/src/checkpoint_manager_impl.cpp:116-176 | every atomic step keeps the invariant: while a page is owed to the checkpoint it is protected and equals the snapshot, copies of one page exclude each other, counts match the list |
| `CheckpointManagerImpl.CheckpointManager.SwapAndProtect` | stldb_lib/src/checkpoint_manager_impl.cpp:257-277 | the exclusive section is the protocol step that swaps the change records and protects every page |
| `CheckpointManagerImpl.CheckpointManager.CopierAllocate` | stldb_lib/src/checkpoint_manager_impl.cpp:284-289 | the copier's locked check and allocation is one protocol step |
| `CheckpointManagerImpl.CheckpointManager.CopierCopy` | stldb_lib/src/checkpoint_manager_impl.cpp:290-293 | the copier's copy, bit and counter is one protocol step |
| `CheckpointManagerImpl.CheckpointManager.HandlerAllocate` | stldb_lib/src/checkpoint_manager_impl.cpp:126-136 | the handler's double-checked locked section is one protocol step |
| `CheckpointManagerImpl.CheckpointManager.HandlerCopy` | stldb_lib/src/checkpoint_manager_impl.cpp:138-140 | the demand copy is one protocol step |
| `CheckpointManagerImpl.CheckpointManager.HandlerMark` | stldb_lib/src/checkpoint_manager_impl.cpp:144-158 | recording the page as modified is one protocol step |
| `CheckpointManagerImpl.CheckpointManager.PageWriteHandler` | stldb_lib/src/checkpoint_manager_impl.cpp:116-176 | the whole handler is a run of the protocol that ends with the page writable and the thread back in its transaction |
| `CheckpointManagerImpl.CheckpointManager.Checkpoint` | stldb_lib/src/checkpoint_manager_impl.cpp:252-318 | the whole checkpoint is a run of the protocol after which the file holds the region in every place the page map names |
| `ExtentSets.CanonicalUnique` | stldb_lib/src/checkpoint.cpp:202-219 | two sets of extents with the same bytes and no touching members are equal: coalescing is a canonical form |
| `CheckpointStream.CheckpointOfstream.MergeNeighbours` | stldb_lib/src/checkpoint.cpp:207-219 | the in-place merge loop ends, keeps the exact byte set and leaves no two touching extents |
| `CheckpointStream.CheckpointOfstream.ReconcileFreeSpace` | stldb_lib/src/checkpoint.cpp:183-237 | pending space joins free space in canonical form and the list by size is rebuilt as its mirror image |
| `CheckpointStream.CheckpointOfstream.Allocate` | stldb_lib/src/checkpoint.cpp:100-142 | best fit: the least extent that is large enough, after growing the file if none is; the extent is in both lists, so the abort is not reached; the leftover goes back to both |
| `CheckpointStream.CheckpointOfstream.WriteImage` | stldb_lib/src/checkpoint.cpp:166-178 | the size goes to the start of the extent and every size header that the bytes meet is gone |
| `CheckpointStream.CheckpointOfstream.Write` | stldb_lib/stldb/checkpoint.h:142-160 | writing one object is one protocol step that keeps the invariant |
| `CheckpointStream.CheckpointOfstream.AddFreeSpace` | stldb_lib/stldb/checkpoint.h:127-135 | a freed entry is pending, not free |
| `CheckpointStream.CheckpointOfstream.Clear` | stldb_lib/src/checkpoint.cpp:244-256 | the gaps between free extents become pending, where insert keeps an entry that is there already |
| `CheckpointStream.CheckpointOfstream.Commit` | stldb_lib/src/checkpoint.cpp:260-263 | the commit as one protocol step that keeps the invariant |
| `ExtentTheorems.RunKeepsInv` | stldb_lib/src/checkpoint.cpp:100-263 | over every run of write, free, clear and commit, free, pending and live extents tile the file in units of 64 bytes, the two free lists mirror each other, free space avoids whatever was live at the last commit, and the file still holds the size of each of those entries and of each live one |
| `ExtentTheorems.AllocatedIsSafe` | stldb_lib/src/checkpoint.cpp:100-142 | an allocated extent has room for the entry and its size, and shares no byte with a live or pending extent or one live at the last commit |
| `ExtentTheorems.AllocationIsFrugal` | stldb_lib/src/checkpoint.cpp:100-142 | over every run: the file grows only if no free extent is large enough, and by the larger of the need and 64 MB; else the smallest one that is large enough is taken |
| `ExtentTheorems.ClearKeepsTiling` | stldb_lib/src/checkpoint.cpp:244-256 | clear keeps the tiling if and only if each gap is pending as a whole or not at all; with nothing pending it does |
| `ExtentTheorems.ClearLosesSpace` | stldb_lib/src/checkpoint.cpp:244-256 | a reachable case: two entries, one of them freed, then a clear after which no extent of any kind has the other one's bytes |
| `Extents.AllocateKeepsInv` | stldb_lib/src/checkpoint.cpp:100-178 | growing, choosing, carving and writing keep the tiling, the mirror, and the sizes stored at all other entries |
| `ExtentTheorems.CommitKeepsInv` | stldb_lib/src/checkpoint.cpp:199-237 | replacing free and pending extents by any canonical set with their bytes keeps the tiling |
| `CheckpointScan.PrepareFreeByOffset` | stldb_lib/src/checkpoint.cpp:60-69 | the list by offset rebuilt from the saved list by size is the one that was saved, with no offset twice |
| `CheckpointScan.CheckpointIterator.Forward` | stldb_lib/stldb/checkpoint.h:292-316 | skips free extents, ends, and stands on the next live entry with its stored size, or at the end of the file |
| `CheckpointScan.LoadCheckpoint` | stldb_lib/stldb/containers/trans_map.tcc:798-816 | the load loop visits the live extents in file order, each once and with its size, except one that ends where the file ends |
| `CheckpointScan.LastEntryMissed` | stldb_lib/stldb/checkpoint.h:211-218 | an entry is missed if and only if the file is not empty and does not end in free space |
| `CheckpointScan.FullSegmentIsLost` | stldb_lib/src/checkpoint.cpp:107-137 | a reachable case: one entry that fills the first segment is committed, the file meets what the load loop needs, and whatever the loop is given there is empty |
| `CheckpointScan.CommittedIsReadable` | stldb_lib/src/checkpoint.cpp:166-178 | after any run and a commit, and as long as no other commit follows, the saved free list and length and the sizes in the file fit together, whatever is written in between |
| `Checksum.Adler` | stldb_lib/src/logging.cpp:21-45 | the blockwise loops, in 32-bit arithmetic that never overflows, compute the byte-by-byte sums of section 2.2 of RFC 1950 |
| `Checksum.BlockFits` | stldb_lib/src/logging.cpp:30-42 | in a 5550-byte block the accumulators stay at or below 4,291,727,895, which is reached |
| `Checksum.LongestBlock` | stldb_lib/src/logging.cpp:30-42 | reduction may wait n bytes for every input if and only if n is at most 5552 |
| `Checksum.OneByteShows` | stldb_lib/src/logging.cpp:21-45 | changing any one byte of any data changes its checksum |
| `Checksum.KnownSums` | stldb_lib/src/logging.cpp:21-45 | the checksums of no bytes and of a common test string |
| `LogFormat.DecodeEncode` | stldb_lib/stldb/logging.h:22-31 | decoding the 24 stored bytes of a header gives the header back |
| `LogFormat.EncodeDecode` | stldb_lib/stldb/logging.h:22-31 | any 24 bytes are the encoding of what they decode to |
| `LogFormat.Layout` | stldb_lib/stldb/logging.h:22-31 | each field is at its own offset, lowest byte first, the LSN in two's complement |
| `LogFormat.EmptyIsZeros` | stldb_lib/stldb/logging.h:37-40 | only 24 zero bytes are the empty header |
| `LogFormat.FinalizedNotEmpty` | stldb_lib/stldb/logging.h:37-44 | a finalized header has a non-zero checksum, so it never looks like the end of the file |
| `LogFormat.Finalize` | stldb_lib/stldb/logging.h:41-44 | only the checksum changes, and it is that of the header without it |
| `LogFormat.CommitBuffer.PrepareHeader` | stldb_lib/stldb/commit_buffer.h:57-62 | size and operation count modulo 2^32 and the checksum of the data |
| `LogFormat.CommitBuffer.FinalizeHeader` | stldb_lib/stldb/commit_buffer.h:65-68 | the LSN and the header checksum, nothing else |
| `Os.ReadFile` | stldb_lib/stldb/detail/os_file_functions_ext.h:90-108 | under any pattern of short and interrupted reads: exactly the bytes asked for, or those up to the end of the file |
| `Os.GatheredWriteFile` | stldb_lib/stldb/detail/os_file_functions_ext.h:135-172 | under any pattern of short and interrupted writes the regions reach the file in order and without gaps; after an error a prefix of them has |
| `Os.DropWritten` | stldb_lib/stldb/detail/os_file_functions_ext.h:162-168 | the inner loop leaves in place exactly what follows the bytes written |
| `LogReader.RoundTrip` | stldb_lib/src/log_reader.cpp:96-144 | reading what has been written, with a zero tail, gives the transactions, header and data, without the padding, and then the end |
| `LogReader.Truncated` | stldb_lib/src/log_reader.cpp:96-144 | cut at any byte, a file gives exactly the transactions whose records lie wholly before the cut, and then the reader stops |
| `LogReader.WithinIsPrefix` | stldb_lib/src/log_reader.cpp:96-144 | what lies wholly before a cut is a prefix of what was written |
| `LogIntegrity.ReadIsSound` | stldb_lib/src/log_reader.cpp:96-144 | on any bytes: what is read are the transactions of a row of records at the start of the file, each with a right header checksum, the length its header says and, unless padding, a right data checksum; the reading throws if and only if what follows is neither the end nor one more such record |
| `LogIntegrity.TransactionsAre` | stldb_lib/stldb/logging.h:33-36 | the records passed over are just those without operations, LSN and data checksum |
| `LogIntegrity.ChangedRecordIsDamaged` | stldb_lib/src/log_reader.cpp:109-139 | a record with any one byte changed, in its header or in the data of a transaction, is not read: the reader throws |
| `LogIntegrity.ChangedFile` | stldb_lib/src/log_reader.cpp:109-139 | a file with one such byte changed gives exactly the transactions whose records lie before it, and then throws |
| `LogIntegrity.SearchPasses` | stldb_lib/src/log_reader.cpp:65-82 | on any bytes: how far the search for an LSN goes, and that the LSN it reports is that of the last transaction passed |
| `LogReader.LogReader.ReadNextTxn` | stldb_lib/src/log_reader.cpp:96-144 | on any bytes: the next transaction, the end, or an exception, as the format function says; an I/O error only if the system reported one |
| `LogReader.LogReader.NextTransaction` | stldb_lib/src/log_reader.cpp:85-93 | the same, with the last LSN and the count kept up |
| `LogReader.LogReader.SeekTransaction` | stldb_lib/src/log_reader.cpp:65-82 | the first transaction from an LSN on, or the last LSN of the file, or -1 |
| `GroupCommitInvariant.PaddedBatch` | stldb_lib/stldb/logger.h:242-264 | a padded batch has exactly the batch's transactions and ends on a 512-byte boundary; an empty batch on a boundary writes nothing |
| `GroupCommitInvariant.EventKeepsInv` | stldb_lib/stldb/logger.h:163-371 | every step of any thread keeps queue, files and durability counters as promised |
| `GroupCommitTheorems.WaitingIsTheRest` | stldb_lib/stldb/logger.h:163-183 | in every reachable state LSNs are contiguous from 1 in queue order and each buffer is written, in the current batch, or waiting, in that order |
| `GroupCommitTheorems.LogReadsBack` | stldb_lib/stldb/logger.h:191-295 | after any run each file named n reads back as LSNs n+1 up to the next name, on a sector boundary, and all files together as exactly what was written, in order and once |
| `GroupCommitTheorems.CutFileReadsPrefix` | stldb_lib/stldb/logger.h:191-295 | any file of any reachable log, cut at any byte, reads back as a prefix |
| `GroupCommitFiles.FilesAreFilled` | stldb_lib/stldb/logger.h:356-369 | over every run without a checkpoint's roll: every file but the last has records of at least the maximum length |
| `GroupCommitFiles.RecordsBeginInside` | stldb_lib/stldb/logger.h:207-232 | over every run: each transaction record begins below the maximum length |
| `GroupCommitFiles.FilesAreExtended` | stldb_lib/stldb/logger.h:389-402 | over every run: each file is longer than the maximum length from the moment it is there |
| `GroupCommitFiles.PassTakesWhatFits` | stldb_lib/stldb/logger.h:207-232 | a pass leaves a buffer waiting only if it has taken seven or the file is full with what it has taken |
| `GroupCommitInvariant.PassTakesSome` | stldb_lib/stldb/logger.h:214-237 | a pass of the loop takes at least one buffer if and only if files may have any length |
| `GroupCommitTheorems.LogTerminates` | stldb_lib/stldb/logger.h:191-295 | while a thread is inside log, the fetches and writes of any run number at most two for each LSN it lacks and one more, whatever is queued in between, and once none is left it can leave |
| `GroupCommitTheorems.LogProgresses` | stldb_lib/stldb/logger.h:191-295 | in every state inside log there is a next step, and each fetch or write brings the end of the call nearer |
| `GroupCommitTheorems.NoLengthNoProgress` | stldb_lib/stldb/logger.h:199-237 | with a maximum length of zero nothing is ever written and nobody returns |
| `GroupCommitTheorems.NobodyIsStuck` | stldb_lib/stldb/logger.h:191-295 | while a queued thread has not returned, some thread can step |
| `GroupCommitTheorems.ReturnedIsDurable` | stldb_lib/stldb/logger.h:292-295 | a thread that has returned finds its LSN written and, with log_sync, synced |
| `GroupCommitTheorems.NoSyncUnlessAsked` | stldb_lib/stldb/logger.h:292-295 | without log_sync no run syncs for a commit |
| `GroupCommitFailures.ReturnedIsWritten` | stldb_lib/stldb/logger.h:273-295 | over every run in which writes may fail: a returned thread has an LSN that counts as written, and its buffer has been written if and only if it was in no batch whose write failed |
| `GroupCommitFailures.FailedBatchIsLost` | stldb_lib/stldb/logger.h:207-279 | the buffers of a batch whose write failed are not written by anything that follows |
| `GroupCommitFailures.FailureHarmsNothing` | stldb_lib/stldb/logger.h:273-287 | a failed write changes no counter, not the queue and no byte that was written before |
| `GroupCommitFailures.ReturnedAndLost` | stldb_lib/stldb/transaction.h:464-473 | a reachable case: one write fails, the exception goes to one thread, and another one returns with its LSN covered although no write of its buffer has succeeded |
| `LoggerImpl.Logger.QueueForCommit` | stldb_lib/stldb/logger.h:163-183 | refuses a buffer without data or operations and changes nothing; else seals it with the next LSN and appends it |
| `LoggerImpl.Logger.EnsureOpenLogfile` | stldb_lib/stldb/logger.h:356-405 | rolls or opens as the protocol says, under all three conditions |
| `LoggerImpl.Logger.AdvanceLogfile` | stldb_lib/stldb/logger.h:342-347 | a new file is named by the last LSN written |
| `LoggerImpl.Logger.FetchBuffers` | stldb_lib/stldb/logger.h:207-240 | up to seven buffers while the file is not full, header and data of each in the write regions |
| `LoggerImpl.Logger.Pad` | stldb_lib/stldb/logger.h:242-264 | the regions become the bytes of the padded batch, within the sixteen there are |
| `LoggerImpl.Logger.PadAndWrite` | stldb_lib/stldb/logger.h:242-287 | a pass appends the padded batch at the end of the data, wherever the file pointer was |
| `LoggerImpl.Logger.Log` | stldb_lib/stldb/logger.h:191-311 | unless a write fails, the call ends, as a run of the protocol, with its LSN written and, with log_sync, synced; a failed write leaves the state of the run up to it, with a part of the batch in the file and the batch gone from the queue |
| `LogSelection.GetCheckpointLsnRange` | stldb_lib/src/db_file_util.cpp:149-164 | least start and greatest end over the checkpoints, or zeros without any |
| `LogSelection.GetFirstNeeded` | stldb_lib/src/db_file_util.cpp:168-184 | the last file not named above the LSN, or the first file |
| `LogSelection.RecoverFrom` | stldb_lib/stldb/recovery_manager.h:88-92 | the search of recover ends at the same file |
| `LogSelection.GetCurrentLogs` | stldb_lib/src/db_file_util.cpp:187-204 | the files from there on |
| `LogSelection.GetArchivableLogs` | stldb_lib/src/db_file_util.cpp:207-224 | the files before it |
| `LogSelection.NeededIsCurrent` | stldb_lib/src/db_file_util.cpp:187-204 | in every reachable log each written LSN above the least start is in a current file and in no other file |
| `LogSelection.ArchivableIsOld` | stldb_lib/src/db_file_util.cpp:207-224 | an archivable file holds only LSNs at or below the least start |
| `LogSelection.SelectionIsTight` | stldb_lib/src/db_file_util.cpp:168-184 | every current file but the last holds an LSN above it |
| `LogSelection.ArchivingKeepsStart` | stldb_lib/stldb/recovery_manager.h:88-100 | with any of the archivable files gone, however many and in whatever order, the search ends at the same file |
| `RecoveryManager.Manager.Recover` | stldb_lib/stldb/recovery_manager.h:81-150 | for any files: 0 without logs, an exception if the first name is above the start, else the transactions from the start on in the first file and all of the later ones, up to the first damage; the LSN returned is that of the last one applied or, with none applied, the last one the first file has below the start |
| `RecoveryTheorems.RecoveryAppliesTheRest` | stldb_lib/stldb/recovery_manager.h:81-150 | on the files of any reachable log recovery applies exactly the LSNs from the start on, in order and once; from the next one on if a file has just that name |
| `RecoveryTheorems.CutLogRecoversPrefix` | stldb_lib/stldb/recovery_manager.h:81-150 | with the last file cut anywhere, recovery from any start applies a prefix of what it applies to the whole log |
| `RecoveryTheorems.ChangedByteRecoversPrefix` | stldb_lib/stldb/recovery_manager.h:81-150 | with one byte changed in any file of any reachable log, in a header or in the data of a transaction, recovery applies a prefix of what it applies to the whole log and nothing of any later file, whatever is in there |
| `RecoveryTheorems.LaterFileIsWhole` | stldb_lib/stldb/recovery_manager.h:122-150 | of a later file all transactions are applied, whatever their LSNs are |
| `TransMap.TransactionalMap.Insert` | stldb_lib/stldb/containers/trans_map.tcc:374-421 | row, recorded operation, pending value and outcome for every op code, other rows untouched |
| `TransMap.TransactionalMap.Update` | stldb_lib/stldb/containers/trans_map.tcc:211-252 | the same for update, with the previous id and op code recorded |
| `TransMap.TransactionalMap.Erase` | stldb_lib/stldb/containers/trans_map.tcc:460-489 | the same for erase, an own insert becoming a deleted insert |
| `TransMap.TransactionalMap.Lock` | stldb_lib/stldb/containers/trans_map.tcc:174-189 | the same for lock |
| `Calls.CallIsSeen` | stldb_lib/stldb/containers/trans_map.tcc:174-489 | in every reachable state: after a call that succeeds the transaction sees the value it wrote, nothing after an erase and no change after a lock, and elsewhere what it saw before; a refused call changes nothing |
| `Calls.CallIsPrivate` | stldb_lib/stldb/containers/trans_map.tcc:174-489 | no call changes what any other transaction sees at any key |
| `Calls.CallAnswer` | stldb_lib/stldb/containers/trans_map.tcc:174-489 | which outcome each call has in every reachable state, from what is committed at the key and what its lock holder sees there |
| `TransMap.TransactionalMap.CommitChanges` | stldb_lib/stldb/transaction.h:166-173 | the commit loop acts on the map as the recorded operations in order |
| `TransMap.TransactionalMap.RollbackChanges` | stldb_lib/stldb/transaction.h:175-185 | the rollback loop acts as the recorded operations undone last to first |
| `TransMap.TransactionalMap.AddToLog` | stldb_lib/stldb/transaction.h:187-196 | the logged operations and their number |
| `TransMap.TransactionalMap.RecoverTxn` | stldb_lib/stldb/recovery_manager.h:155-192 | the recovery loop applies the logged operations in order |
| `TransMap.CommitOnRow` | stldb_lib/stldb/transaction.h:166-173 | committing a list acts on each row as its operations on that row do |
| `TransMap.RollbackOnRow` | stldb_lib/stldb/transaction.h:175-185 | undoing a list acts on each row as its operations on that row do |
| `Rows.CallExtendsChain` | stldb_lib/stldb/containers/rbtree.h:1571-1640 | every call, whatever its outcome, extends the chain from the committed row to the stored one by what it records |
| `Rows.CallOnOthersRow` | stldb_lib/stldb/containers/rbtree.h:1571-1640 | a call on a row another transaction has locked changes nothing and is refused |
| `Rows.LockIsHeld` | stldb_lib/stldb/containers/trans_map.tcc:174-189 | a lock call that reports success leaves the row locked by the caller if and only if the row was not committed under an LSN equal to the caller's id |
| `Rows.UndoRestores` | stldb_lib/stldb/containers/detail/map_ops.h:146-148 | undoing a chain gives the committed row back: value, op code and id |
| `RowCommit.CommitAgreesWithLog` | stldb_lib/stldb/containers/detail/map_ops.h:139-169 | commit leaves what replaying the logged operations over the committed row gives if and only if first and last update agree and the row is erased once |
| `RowCommit.TwoUpdatesDiffer` | stldb_lib/stldb/containers/detail/map_ops.h:139-145 | two updates of one row: memory keeps the first value, the log the last |
| `RowCommit.ErasedTwice` | stldb_lib/stldb/containers/detail/map_ops.h:200-214 | erase, re-insert and erase again are three recorded calls after which commit follows an iterator to an erased row |
| `Transactions.MemoryAgreesWithLog` | stldb_lib/stldb/transaction.h:408-506 | after any interleaving, replaying the log gives every row its committed value and LSN; with nothing in progress it is the map |
| `Transactions.LogIsNumbered` | stldb_lib/stldb/logger.h:163-183 | log records are numbered from 1 without gaps |
| `Transactions.RollbackRestores` | stldb_lib/stldb/transaction.h:534-555 | rollback restores every row the transaction touched to what it found there and leaves all others, whatever ran in between |
| `Transactions.CommitUnlocks` | stldb_lib/stldb/containers/detail/map_ops.h:85-89 | whatever it did, a transaction that commits leaves the row unlocked |
| `Transactions.LockNotHeld` | stldb_lib/stldb/containers/trans_map.tcc:174-189 | a reachable case: a lock call succeeds, takes nothing, and another transaction updates the row |
| `TransactionCommit.Database.Commit` | stldb_lib/stldb/transaction.h:408-506 | log first, apply afterwards with that LSN; nothing for an empty transaction; one that logs nothing is refused and keeps its locks |
| `TransactionCommit.Database.Rollback` | stldb_lib/stldb/transaction.h:534-555 | rollback as one protocol step, with the operation list cleared |
| `Scan.TransIterator.SkipForward` | stldb_lib/stldb/containers/trans_assoc_iterator.h:253-261 | stops at the first row the transaction may see |
| `Scan.TransIterator.SetCurrent` | stldb_lib/stldb/containers/trans_assoc_iterator.h:275-285 | shows the stored value or the transaction's pending one |
| `Scan.TransIterator.Forward` | stldb_lib/stldb/containers/trans_assoc_iterator.h:288-294 | moves to the next visible row |
| `Scan.ScanAll` | stldb_lib/stldb/containers/trans_assoc_iterator.h:288-294 | a scan from begin to end yields the visible rows in key order |
| `Scan.ViewIsIsolated` | stldb_lib/stldb/containers/trans_assoc_iterator.h:253-285 | in every reachable state the iterator shows the committed row overlaid with the transaction's own operations if and only if the row is not an erased pending insert |
| `Scan.ScanIsIsolated` | stldb_lib/stldb/containers/trans_assoc_iterator.h:253-294 | a whole scan is, in key order, exactly the committed rows overlaid with the transaction's own operations |
| `Scan.ErasedInsertIsShown` | stldb_lib/stldb/containers/trans_assoc_iterator.h:253-261 | a reachable case: a row inserted and erased by one uncommitted transaction is shown to another |
| `Recovery.RecoveryConverges` | stldb_lib/stldb/detail/db_file_util.h:56-63 | if each row is in the checkpoint as committed somewhere between lsn_at_start and lsn_at_end, replay from either side of the start through any later point gives the committed database there |
| `Recovery.ReplayLogAgain` | stldb_lib/stldb/containers/detail/map_ops.h:154-169 | replaying a stretch of log over a row from within it gives the row after it or leaves the row alone |
| `Recovery.ClearStartsOver` | stldb_lib/stldb/containers/detail/map_ops.h:386-390 | for whole logs and any contents: what follows a logged clear acts on the container as on an empty one, so no row of it is left if nothing about it follows |
| `Recovery.OtherContainersStay` | stldb_lib/stldb/containers/detail/map_ops.h:386-390 | taking all operations on one container out of a log, clears included, and changing its contents leaves every row of the others as it was |
| `Recovery.InsertsKeepPresent` | stldb_lib/stldb/containers/detail/map_ops.h:103-109 | insert records leave a row that is there alone, value and LSN |
| `Recovery.LastRecordDecides` | stldb_lib/stldb/containers/detail/map_ops.h:103-236 | what the last record of a log does to its row, by its kind and with its LSN |
| `Recovery.ValuesConverge` | stldb_lib/stldb/containers/trans_map.tcc:700-703 | the same for values alone: the checkpoint writes rows in progress under a made-up LSN |
| `Recovery.CapturedTooEarly` | stldb_lib/stldb/Database.tcc:793 | a row captured one transaction too early is lost |
| `Durability.RunIsHistory` | stldb_lib/stldb/containers/detail/map_ops.h:97-109 | the log of any run inserts only rows that are not there |
| `Durability.RecoveryRestoresMemory` | stldb_lib/stldb/recovery_manager.h:81-150 | after any run, checkpoint and log together give the memory of the run back, row by row |
| `Durability.WrittenButNotApplied` | stldb_lib/stldb/Database.tcc:793 | a reachable run with two transactions written and not applied, in which the start LSN a checkpoint notes makes recovery lose the first |
| `CheckpointRuns.CommittedIsInLog` | stldb_lib/stldb/Database.tcc:793 | in every reachable state the committed row is the row of the log at some point from the start on if and only if its lock holder is not logged at or below the start with a change still to be applied |
| `CheckpointRuns.CapturedRowRecovers` | stldb_lib/stldb/Database.tcc:793 | a row captured in any reachable state is recovered if and only if it has no such lock holder; if it has one, replay leaves the row as it was captured |
| `CheckpointRuns.CheckpointIsCaptured` | stldb_lib/stldb/containers/trans_map.tcc:618-770 | a checkpoint that captures its rows at different points of one run, with no such lock holder at its start, has each row as committed at some point of the log from its start on |
| `CheckpointRuns.CheckpointedRunRecovers` | stldb_lib/docs/logging.qbk:25 | end to end: a run is checkpointed while it goes on; that checkpoint and the log from either side of the start give the memory at the end of the run back |
| `CheckpointRuns.SavedIsCommitted` | stldb_lib/stldb/containers/trans_map.tcc:638-651 | the entry the checkpoint writes for a row, in progress or not, has the committed value, and the committed LSN too if nothing is in progress |
| `CheckpointRuns.SavedRowRecovers` | stldb_lib/stldb/containers/trans_map.tcc:691-703 | a row written by the checkpoint under its made-up LSN is recovered to its value at the end of the run |
| `PicketLockSet.LockSet.Mutexes` | stldb_lib/stldb/sync/picket_lock_set.h:43-58 | strictly ascending, without duplicates, and exactly the mutexes of the given rows, each counted once |
| `PicketLockSet.Pickets` | stldb_lib/stldb/sync/picket_lock_set.h:43-58 | the same as a function of the rows |
| `PicketLockSet.LocksInTurn` | stldb_lib/stldb/sync/picket_lock_set.h:29-33 | the 31 locks are dealt out to consecutive rows in turn, and the bytes of one row share a lock |
| `CommitLocks.ContainerLocks.Initialize` | stldb_lib/stldb/containers/concurrent_trans_map.h:536-556 | the locks taken in one container, its own first |
| `CommitLocks.ContainerLocks.Complete` | stldb_lib/stldb/containers/concurrent_trans_map.h:558-576 | the same locks given back |
| `CommitLocks.ContainerLocks.AcquireAll` | stldb_lib/stldb/transaction.h:483-487 | all containers in set order |
| `CommitLocks.ContainerLocks.ReleaseAll` | stldb_lib/stldb/transaction.h:499-502 | all containers in the opposite order |
| `LockOrder.TakenAscends` | stldb_lib/stldb/transaction.h:483-487 | every transaction takes its locks in one common ascending order |
| `LockOrder.GivesBackWhatItTook` | stldb_lib/stldb/transaction.h:499-502 | the locks released are those acquired |
| `LockOrder.GivenBackwards` | stldb_lib/stldb/transaction.h:499-502 | containers are released last one first, and in each the picket locks before the mutex |
| `LockOrder.PicketsUnderMutex` | stldb_lib/stldb/containers/concurrent_trans_map.h:536-576 | at every moment whoever holds a picket lock holds the mutex of its container |
| `LockOrder.LocksGuardRows` | stldb_lib/stldb/containers/concurrent_trans_map.h:536-556 | with all locks taken a transaction holds the picket lock of each row it changed and each container's mutex, exclusively where it changes the container as a whole |
| `LockOrder.CommitsAreApart` | stldb_lib/stldb/containers/concurrent_trans_map.h:536-576 | in every reachable state two transactions that apply changes to one container have no picket in common, and neither changes it as a whole |
| `LockOrder.NoDeadlock` | stldb_lib/stldb/containers/concurrent_trans_map.h:536-614 | while some transaction has not finished, some transaction can take its next step |
| `LockOrder.ReachableIsSafeAndLive` | stldb_lib/stldb/containers/concurrent_trans_map.h:536-614 | in every reachable state no lock is held in conflicting modes and nobody is deadlocked |
| `LockOrder.StepIsProgress` | stldb_lib/stldb/containers/concurrent_trans_map.h:536-614 | every step brings its transaction nearer to its end |
| `LockOrder.FinishedHoldsNothing` | stldb_lib/stldb/transaction.h:499-502 | a finished transaction holds no lock |

## Left out

- Real mapping, protection calls, signals, syncing, directory listing, renaming, tracing, timers and
  statistics: protection is a flag per page, files are byte sequences, short and failed I/O is a script
  of answers.
- Several processes on one region: protecting the region at the swap affects only the calling process,
  so the snapshot theorems are about one process with many threads.
- The metafile of the page checkpoint, which the code does not write yet, and growing a region while a
  checkpoint runs.
- `LoggerImpl.Logger.Log`: while it runs as one method no other thread queues a buffer; the protocol theorems
  cover that.
- Where later writes land after a failed one: the file pointer may then be off, so the theorems about
  failing writes are about which buffers a completed write has included, not about bytes.
- `CheckpointManagerImpl.CheckpointManager.PageWriteHandler`: is one call with the page's mutex free and
  nothing in between; the theorems about runs cover every interleaving of its steps.
- `CheckpointManagerImpl.CheckpointManager.Checkpoint`: is one call while all threads are idle; the theorems
  about runs cover writers and handlers in between.
- `TransactionCommit.Database.Commit`: leaves out diskless commits and exceptions while containers are
  locked.
- `LoggerImpl.Logger.QueueForCommit`: does not model buffers of 4 GiB or more, whose size the 32-bit
  header field does not hold, or an LSN counter at its 64-bit limit; the queue holds values, so a
  caller changing a queued buffer is not modelled.
- That the bytes of an earlier file are on the disk when one call of `log` rolls to a new file: the sync
  is of the current file only, and the durability theorem is about the counters.
- `LogReader.LogReader.ReadNextTxn`: does not model that after a record with a size of zero the buffer
  still holds the previous record; the logger writes no such transaction.
- Byte order: numbers in log headers are little-endian.
- The archive format inside a log record, and exceptions while it is decoded; a logged operation for a
  container that no longer exists, whose body the code does not skip.
- Restarting on an existing log directory: every run starts with LSN 1 and no files.
- `Transactions.MemoryAgreesWithLog`: is for runs in which each transaction, when logged, commits to what
  it logs; `RowCommit.CommitAgreesWithLog` shows that this is exactly the condition, row by row.
- Transactions that only lock (the queue refuses them, and the model with it), waiting for a locked row, and
  the insert at a hinted position.
- Clearing and swapping a map inside a running transaction: the recovery half of clear is modelled, the
  rest is not.  Swap reports the op code of clear.
- Backward iteration, and the insert and erase of the concurrent map, which differ in the operation they
  record over a deleted row.
- Which of several equally small free extents is taken: the model allows any.
- The order in which a checkpoint visits the rows, which may be any, and the entries it reuses from an earlier
  checkpoint because their rows did not change since.
- `Scan.ScanIsIsolated`: is for states without an erased pending insert; `Scan.ViewIsIsolated` shows that
  this is exactly the condition, row by row.
- Exceptions in the middle of a commit or rollback, and upgradable ownership of a container mutex.
- The mutex classes come from Boost and are not part of this model, which takes from them that an
  exclusive request, once pending, keeps new shared ones out.
- Node ownership and allocation of the underlying tree, the database registry, inspectors and type
  utilities.
