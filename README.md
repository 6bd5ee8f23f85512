# Remote translog of OpenSearch, modelled in Dafny

This project models the remote-store translog of an OpenSearch shard. The
translog keeps its operations in a local writer, seals the writer into
read-only readers, and uploads each generation to a blob store as a
translog file, a checkpoint and a metadata file. The model covers six
pieces:

- The sync gate of `RemoteFsTranslog`. This is the `class
  RemoteFsTranslog` in `remote_fs_translog.dfy`. A single sync permit
  guards every upload. `prepareAndUpload` is the gate itself: it checks
  for a started primary and a free permit, then for an older or the
  current generation, then seals the writer (a throw here is a tragic
  close) and uploads. `upload` always releases the permit.
  `ensureSynced`, `rollGeneration`, `sync` and `syncNeeded` are the entry
  points. `drainSync` and its release-once handle pause sync.
  `setMinSeqNoToKeep` is the monotone sequence-number floor. The two
  permit invariants are predicates of the class: sync permits are
  conserved, and deletion permits plus pending delete callbacks make two.
- The translog retention sweep, `trimUnreferencedReaders`. It trims the
  local readers, prunes the upload tracker of stale translog files,
  passes the gates before listing, and runs the listener over the listed
  metadata files. The listener keeps the newest file for a live index,
  works out generation ranges from names, a cache or a metadata read, and
  keeps generations covered by pinned metadata files through
  `isGenerationPinned`, which tests the ceiling and then the floor of the
  generation among the pinned ranges. It then issues the deletes and the
  one-time cleanup of stale primary terms. The specification functions
  are in `retention.dfy` and `pinned_generations.dfy`.
- Download and recovery (`download.dfy`). Up to three attempts are made.
  A retry follows only a retryable I/O failure. One attempt either
  downloads generations from the newest down to the minimum and copies
  the checkpoint, or, without remote metadata, resets a non-empty local
  translog.
- The two transfer snapshots (`transfer_snapshot.dfy`): the
  checkpoint-file snapshot and the sync snapshot. Each has its builder,
  which folds the readers for the first highest generation and the lowest
  one. Under Java assertions the builder checks the checkpoint
  generations, the primary term and generation, and the absence of
  generation gaps. The gap check is modelled exactly as the source
  streams it, including the long wrap-around of `LongStream.iterate` and
  its `limit`.
- The upload tracker for checkpoints sent as blob metadata
  (`ckp_tracker.dfy`).
- The remote store path resolver (`path_resolver.dfy`), and the blob
  container the tests use for checkpoint-as-metadata uploads
  (`mock_blob_container.dfy`). For the container, the model covers only
  the checkpoint file name, the metadata store, the ten-part upload into
  a buffer array with its length check, and the part split for reads.

Everything the translog calls but does not define is a parameter of the
modelled operation. This covers the local file system, the transfer
manager, the listing of metadata files, the pinned-timestamp service, the
cluster state and the clock. The parameters are the datatypes `SyncEnv`,
`TrimEnv` and `Store` and the function-typed fields inside them. The
remote calls a sweep starts are appended to the field `remoteOps`, in the
order they are started. Ranges read from metadata files are appended to
`metadataReads`, which lets the contracts say that each old-format file
is read at most once.

Some behaviour follows from doing exactly what the code does, and the
contracts state it:

- `isGenerationPinned` tests two ranges only: the ceiling and then the
  floor of the point range of the generation. The ceiling contains the
  generation only when it starts exactly there, so a range that starts
  below the generation is reached only as its floor. When a nested range
  such as 2..3 sits between 1..10 and generation 5, the floor is 2..3, and
  5 is reported as unpinned and may be deleted; see
  `PinnedMissesNestedRange` and `NestedKeptRangeDoesNotProtect`. The test
  is exact when the maxima ascend with the minima; see
  `PinnedIsCompleteWhenMaxAscending`.
- The gap assertion of both snapshot builders fails for any reader list
  whose lowest generation is zero or below; see `AssertionsFailFromZero`.
- When the primary-term cleanup throws after the deletes have started,
  the listener's catch block releases both deletion permits although the
  two delete callbacks will release them again. `SweepRemote` states this
  case as its own postcondition.
- `fileTransferTracker` in `RemoteFsTranslog` is created in the
  constructor as a plain tracker. The constructor does not use the
  checkpoint-as-metadata tracker, which is modelled separately.

## Model

| member | source | states |
|---|---|---|
| RemoteTranslog.RemoteFsTranslog.constructor | server/src/main/java/org/opensearch/index/translog/RemoteFsTranslog.java:143-210 | A new translog holds the recovered readers and the new writer, one free sync permit and two free deletion permits, an empty cache, an empty tracker and no remote calls, so both permit invariants hold. |
| RemoteTranslog.NextWriter | server/src/main/java/org/opensearch/index/translog/RemoteFsTranslog.java:458-461 | The writer opened after a seal has the next generation and no operations. |
| RemoteTranslog.RemoteFsTranslog.MinFileGeneration | server/src/main/java/org/opensearch/index/translog/RemoteFsTranslog.java:969-969 | The oldest generation still held: the smallest reader generation, or the writer's generation when there are no readers. |
| RemoteTranslog.RemoteFsTranslog.SnapshotMetadata | server/src/main/java/org/opensearch/index/translog/RemoteFsTranslog.java:499-506 | The metadata of an upload carries the primary term, generation and node id it was built for, the number of file snapshots, and the min translog generation of the first highest reader. |
| RemoteTranslog.RemoteFsTranslog.UploadOutcome | server/src/main/java/org/opensearch/index/translog/RemoteFsTranslog.java:496-516 | An upload answers true exactly when the snapshot builds, the transfer succeeds and no file snapshot fails to close; it never answers false. |
| RemoteTranslog.RemoteFsTranslog.Upload | server/src/main/java/org/opensearch/index/translog/RemoteFsTranslog.java:496-516 | The sync permit is released on every path; the metadata is handed to the transfer exactly when the snapshot builds; a successful transfer sets the uploaded generation and the minimum referenced generation, and a failed one changes neither. |
| RemoteTranslog.RemoteFsTranslog.OnUploadComplete | server/src/main/java/org/opensearch/index/translog/RemoteFsTranslog.java:966-976 | After a successful upload, the highest uploaded generation is the generation just sent and the minimum referenced generation is the oldest generation still held. |
| RemoteTranslog.RemoteFsTranslog.PrepareAndUpload | server/src/main/java/org/opensearch/index/translog/RemoteFsTranslog.java:437-494 | Callers ask for the current generation or none. Three cases. Not a started primary, or the permit is taken: false, and nothing changes. A generation older than the writer's: false, and the permit stays taken. Otherwise, a seal failure closes the translog as a tragedy with the permit held; else the writer is sealed into a reader, a new writer is opened unless closed, and the upload's outcome is returned. The sync permits are conserved on every path. |
| RemoteTranslog.RemoteFsTranslog.SealAndUpload | server/src/main/java/org/opensearch/index/translog/RemoteFsTranslog.java:450-494 | A failing seal step is a tragic close, and the reader is added only if the close into a reader succeeded; a successful seal adds the reader, opens the next writer, releases the permit and answers with the upload's outcome. |
| RemoteTranslog.RemoteFsTranslog.SealFails | server/src/main/java/org/opensearch/index/translog/RemoteFsTranslog.java:467-471 | When a seal step throws, the translog is closed on a tragic event with the failure and the permit stays held. |
| RemoteTranslog.RemoteFsTranslog.SealThenUpload | server/src/main/java/org/opensearch/index/translog/RemoteFsTranslog.java:455-492 | After a successful seal, the new reader and writer are in place, the permit is back, and the result is the upload's outcome; a true result means the sealed generation was uploaded and no sync is needed. |
| RemoteTranslog.RemoteFsTranslog.OnTragicEvent | server/src/main/java/org/opensearch/index/translog/RemoteFsTranslog.java:467-471 | A tragic event closes the translog, marks it tragic and answers with that failure. |
| RemoteTranslog.RemoteFsTranslog.EnsureSynced | server/src/main/java/org/opensearch/index/translog/RemoteFsTranslog.java:418-426 | An older location is already synced, so false and nothing changes. On a closed translog the result is AlreadyClosed. Otherwise the result follows prepareAndUpload: false when the gate is shut, a tragedy when the seal throws, else a new reader and writer and the upload's outcome. |
| RemoteTranslog.RemoteFsTranslog.RollGeneration | server/src/main/java/org/opensearch/index/translog/RemoteFsTranslog.java:429-435 | The sync before the roll runs first. With nothing to sync and an empty writer under the current primary term, nothing changes. With the gate shut, the roll passes without change. A seal failure closes the translog as a tragedy. Otherwise, on an open translog, exactly one seal happens: the writer becomes a reader, the next writer opens under the current term, and the roll passes exactly when the upload does. On a closed translog the writer stays and the reader is appended. |
| RemoteTranslog.RemoteFsTranslog.Sync | server/src/main/java/org/opensearch/index/translog/RemoteFsTranslog.java:532-537 | With nothing to sync, nothing happens. With the gate shut, the sync passes without change. A seal failure closes the translog as a tragedy. Otherwise the writer is sealed, a new writer is opened unless closed, and the sync passes exactly when the upload does. |
| RemoteTranslog.RemoteFsTranslog.SyncNeeded | server/src/main/java/org/opensearch/index/translog/RemoteFsTranslog.java:542-547 | A sync is needed when the writer has unsynced operations, or when an empty writer sits more than one generation past the last upload; a writer with operations needs one only through its own flag. |
| RemoteTranslog.RemoteFsTranslog.NoSyncNeededAfterUpload | server/src/main/java/org/opensearch/index/translog/RemoteFsTranslog.java:542-547 | Once the sealed generation is uploaded, the writer opened after it needs no sync. |
| RemoteTranslog.RemoteFsTranslog.SyncNeededWhenUploadLags | server/src/main/java/org/opensearch/index/translog/RemoteFsTranslog.java:542-547 | A writer with unsynced operations needs a sync, and so does an empty writer more than one generation past the last upload. |
| RemoteTranslog.RemoteFsTranslog.ShouldFlush | server/src/main/java/org/opensearch/index/translog/RemoteFsTranslog.java:1004-1011 | Never with the reader limit -1; otherwise a flush is asked for once the readers reach the limit. TrimLocal never raises it. |
| RemoteTranslog.RemoteFsTranslog.NoReaderLimitNeverFlushes | server/src/main/java/org/opensearch/index/translog/RemoteFsTranslog.java:1004-1011 | With the reader limit -1 no flush is asked for, however many readers there are. |
| RemoteTranslog.RemoteFsTranslog.SetMinSeqNoToKeep | server/src/main/java/org/opensearch/index/translog/RemoteFsTranslog.java:587-594 | The minimum sequence number to keep never decreases: a smaller request fails with both values and leaves it unchanged, and any other request sets it. |
| RemoteTranslog.RemoteFsTranslog.DrainSync | server/src/main/java/org/opensearch/index/translog/RemoteFsTranslog.java:596-616 | With the permit free, the drain takes it, pauses sync and returns a fresh handle that has not been released; otherwise it times out with no change. |
| RemoteTranslog.DrainHandle.constructor | server/src/main/java/org/opensearch/index/translog/RemoteFsTranslog.java:603-609 | A new handle belongs to its translog and has not been released. |
| RemoteTranslog.DrainHandle.Release | server/src/main/java/org/opensearch/index/translog/RemoteFsTranslog.java:603-609 | The first release returns the permit, unpauses sync and restores the one-free-permit state; later releases change nothing. |
| RemoteTranslog.RemoteFsTranslog.PruneTracker | server/src/main/java/org/opensearch/index/translog/RemoteFsTranslog.java:630-644 | Pruning fails exactly when some uploaded file is a translog file whose generation does not parse. On success the tracker loses exactly the stale translog files, those older than the oldest reader, along with their checkpoint files. |
| RemoteTranslog.RemoteFsTranslog.PruneFile | server/src/main/java/org/opensearch/index/translog/RemoteFsTranslog.java:634-642 | One tracker file: an unparsable translog name fails with that file and nothing changes; otherwise its stale names, if any, are removed. |
| RemoteTranslog.RemoteFsTranslog.TrimLocal | server/src/main/java/org/opensearch/index/translog/RemoteFsTranslog.java:624-644 | When trimming locally, the superclass trim keeps exactly the readers at or above the minimum referenced generation. The tracker is then pruned against the oldest remaining reader, and this fails exactly on an unparsable tracker file. A translog that did not ask for a flush does not ask for one after the trim. |
| RemoteTranslog.SweepGate | server/src/main/java/org/opensearch/index/translog/RemoteFsTranslog.java:648-663 | The sweep stops early when the shard is not a started primary or sync is paused, when the pinned state is stale for a live index, or when a deletion is already in flight. These are the only early stops, and the conditions are given both ways. |
| RemoteTranslog.RemoteFsTranslog.SweepRemote | server/src/main/java/org/opensearch/index/translog/RemoteFsTranslog.java:648-743 | A closed gate starts no deletion and changes nothing. A started deletion happens only with the gate open and the pinned state fresh; it has the planned deletes and two callbacks pending. The deletion permit balance is kept, except after a failed primary-term cleanup, which over-releases the permits. |
| RemoteTranslog.RemoteFsTranslog.OnMetadataFilesListed | server/src/main/java/org/opensearch/index/translog/RemoteFsTranslog.java:665-741 | The listener exits in these cases, each an if-and-only-if: the listing failed; at most one metadata file; the pinned state went stale; nothing found to delete. Deletes are issued only as planned. The two permits return unless a deletion started, and two callbacks are pending after a started deletion. |
| RemoteTranslog.RemoteFsTranslog.SweepListedFiles | server/src/main/java/org/opensearch/index/translog/RemoteFsTranslog.java:684-734 | There is nothing to delete exactly when no metadata file qualifies; otherwise the generations of the files to be deleted are worked out and deleted, and the permits are accounted for as above. |
| RemoteTranslog.RemoteFsTranslog.DeleteUnpinnedGenerations | server/src/main/java/org/opensearch/index/translog/RemoteFsTranslog.java:699-734 | An unreadable metadata file and an empty set of generations to delete are recognised exactly when the specification says so. On a started deletion the generations, metadata files and primary-term cleanup issued are exactly the planned ones. |
| RemoteTranslog.RemoteFsTranslog.IssueDeletes | server/src/main/java/org/opensearch/index/translog/RemoteFsTranslog.java:710-734 | Deletes are issued for the computed generations and the metadata files to be deleted, plus the primary-term cleanup; exactly two callbacks are pending. A failing cleanup releases both permits. |
| RemoteTranslog.RemoteFsTranslog.StartDeletes | server/src/main/java/org/opensearch/index/translog/RemoteFsTranslog.java:710-734 | The remote calls are appended in order: generations, metadata files, then the primary-term cleanup if due. The old-format cache then keeps only entries of files that are kept. The cleanup fails exactly when a metadata file's primary term cannot be read. |
| RemoteTranslog.RemoteFsTranslog.DeletionCallback | server/src/main/java/org/opensearch/index/translog/RemoteFsTranslog.java:710-722 | Each delete callback returns one permit and keeps the permit balance. |
| RemoteTranslog.RemoteFsTranslog.TrimUnreferencedReaders | server/src/main/java/org/opensearch/index/translog/RemoteFsTranslog.java:618-744 | Local readers and the tracker are trimmed as in TrimLocal. An error stops the trim before the remote sweep. Otherwise the sweep behaves as SweepRemote: a closed gate changes nothing, and a started deletion is the planned one. |
| RemoteTranslog.PrimaryTermCleanup | server/src/main/java/org/opensearch/index/translog/RemoteFsTranslog.java:876-892 | Stale primary terms are deleted once, below the smallest primary term of the metadata files, and only when every one of those terms can be read. |
| RemoteTranslog.RemoteFsTranslog.DeleteStaleRemotePrimaryTerms | server/src/main/java/org/opensearch/index/translog/RemoteFsTranslog.java:876-892 | The cleanup is marked done; the remote call issued is the one PrimaryTermCleanup plans; it fails exactly when, on the first call, a metadata file's primary term is unreadable. |
| RemoteTranslog.RemoteFsTranslog.GetMinMaxTranslogGenerationFromMetadataFile | server/src/main/java/org/opensearch/index/translog/RemoteFsTranslog.java:851-868 | The range comes from the file name, else from the cache, else from reading the metadata file once; a read range is cached, and an unreadable file is an error naming it. |
| RemoteTranslog.RemoteFsTranslog.LookUpRange | server/src/main/java/org/opensearch/index/translog/RemoteFsTranslog.java:851-868 | A lookup agrees with the range specification, only extends the cache, and reads each metadata file at most once. |
| RemoteTranslog.RemoteFsTranslog.GetGenerationForMetadataFiles | server/src/main/java/org/opensearch/index/translog/RemoteFsTranslog.java:842-848 | The map from each metadata file to its range is built exactly when every range can be found, and the error is the first unreadable file. |
| RemoteTranslog.RemoteFsTranslog.PutRange | server/src/main/java/org/opensearch/index/translog/RemoteFsTranslog.java:842-848 | One step of building the range map keeps the map equal to the ranges of the files seen so far. |
| RemoteTranslog.RangeMapSnoc | server/src/main/java/org/opensearch/index/translog/RemoteFsTranslog.java:842-848 | Adding the next file's range extends the range map of a prefix to the next prefix. |
| RemoteTranslog.RemoteFsTranslog.GetGenerationsToBeDeleted | server/src/main/java/org/opensearch/index/translog/RemoteFsTranslog.java:747-776 | The generations to delete are exactly those the specification computes from the files kept and the files to delete. The old-format cache only grows with correct ranges. |
| RemoteTranslog.RemoteFsTranslog.GenerationsOfMetadataFiles | server/src/main/java/org/opensearch/index/translog/RemoteFsTranslog.java:758-764 | The generations collected are exactly the union of the ranges of the metadata files to be deleted, or the first unreadable file. |
| RemoteTranslog.RemoteFsTranslog.AddRangeGenerations | server/src/main/java/org/opensearch/index/translog/RemoteFsTranslog.java:758-764 | One step of collecting generations keeps the set equal to the union of the ranges seen so far. |
| RemoteTranslog.GetOrderedPinnedMetadataGenerations | server/src/main/java/org/opensearch/index/translog/RemoteFsTranslog.java:829-839 | The pinned ranges are exactly the ranges of the kept metadata files, ordered without repeats. |
| RemoteTranslog.UnpinnedGenerations | server/src/main/java/org/opensearch/index/translog/RemoteFsTranslog.java:768-774 | Exactly the generations at most the bound that the ceiling-then-floor test does not report as pinned are kept for deletion. |
| Retention.RangeOf | server/src/main/java/org/opensearch/index/translog/RemoteFsTranslog.java:851-868 | A metadata file's generation range is missing exactly when neither the name, the cache nor the file gives one, and the error names the file. |
| Retention.RangeOfStable | server/src/main/java/org/opensearch/index/translog/RemoteFsTranslog.java:851-868 | A range found once is found again after the cache grows. |
| Retention.ExtendsTransitive | server/src/main/java/org/opensearch/index/translog/RemoteFsTranslog.java:859-866 | Cache growth composes. |
| Retention.RangesOf | server/src/main/java/org/opensearch/index/translog/RemoteFsTranslog.java:842-848 | The ranges of a list of files are found exactly when each file's range is, and they match position by position; otherwise the error is that of some file. |
| Retention.RangesOfStable | server/src/main/java/org/opensearch/index/translog/RemoteFsTranslog.java:842-848 | The ranges of a list do not change as the cache grows. |
| Retention.RangesOfSnoc | server/src/main/java/org/opensearch/index/translog/RemoteFsTranslog.java:842-848 | The ranges of a longer prefix follow from those of the shorter one and the next file. |
| Retention.RangesOfPrefixError | server/src/main/java/org/opensearch/index/translog/RemoteFsTranslog.java:842-848 | An error in a prefix is the error of the whole list. |
| Retention.RangesOfStep | server/src/main/java/org/opensearch/index/translog/RemoteFsTranslog.java:842-848 | The next file either fails the whole list with its own error or adds its range. |
| Retention.ValuesOfRangeMap | server/src/main/java/org/opensearch/index/translog/RemoteFsTranslog.java:766-767 | The values of the range map of the kept files are exactly their ranges. |
| Retention.GenerationsToBeDeletedSpec | server/src/main/java/org/opensearch/index/translog/RemoteFsTranslog.java:747-776 | Every generation deleted is at most the bound and lies in the range of some metadata file being deleted. |
| Retention.DeletedGenerationsAreBounded | server/src/main/java/org/opensearch/index/translog/RemoteFsTranslog.java:752-775 | For a live index, nothing at or above the minimum referenced generation minus the extra readers kept is deleted, and every deleted generation comes from a deleted metadata file. |
| Retention.StaleTrackerFiles | server/src/main/java/org/opensearch/index/translog/RemoteFsTranslog.java:630-644 | Every uploaded translog file older than the oldest reader is stale, together with its checkpoint file. |
| Retention.StaleTrackerFilesAdd | server/src/main/java/org/opensearch/index/translog/RemoteFsTranslog.java:634-640 | Adding one file to the tracker adds its stale names, if it is stale, and nothing else. |
| Retention.StaleTrackerFilesVisit | server/src/main/java/org/opensearch/index/translog/RemoteFsTranslog.java:634-642 | Visiting one more file adds exactly its stale names. |
| Retention.CheckpointNameIsNotTranslogName | server/src/main/java/org/opensearch/index/translog/RemoteFsTranslog.java:639-639 | A checkpoint file name never ends with the translog suffix. |
| Retention.PruningKeepsLiveFiles | server/src/main/java/org/opensearch/index/translog/RemoteFsTranslog.java:637-640 | A translog file not older than the oldest reader is never pruned. |
| Retention.PruningSparesGenerationKeys | server/src/main/java/org/opensearch/index/translog/RemoteFsTranslog.java:635-635 | A tracker with no translog file names is not pruned at all. |
| Retention.MinReaderGeneration | server/src/main/java/org/opensearch/index/translog/RemoteFsTranslog.java:631-631 | The minimum live generation is a reader's generation and at most every reader's. |
| Retention.KeepReadersFrom | server/src/main/java/org/opensearch/index/translog/RemoteFsTranslog.java:627-627 | The readers kept are exactly those at or above the minimum referenced generation. |
| Retention.MinPrimaryTerm | server/src/main/java/org/opensearch/index/translog/RemoteFsTranslog.java:876-892 | The smallest primary term of the metadata files is missing exactly when some file's term cannot be read; otherwise it is one of their terms and at most every one of them. |
| Retention.MinPrimaryTermUnreadable | server/src/main/java/org/opensearch/index/translog/RemoteFsTranslog.java:876-892 | One unreadable term makes the minimum missing. |
| Retention.MinPrimaryTermSnoc | server/src/main/java/org/opensearch/index/translog/RemoteFsTranslog.java:876-892 | The minimum over a longer prefix is the minimum of the shorter one and the next term. |
| PinnedGenerations.Insert | server/src/main/java/org/opensearch/index/translog/RemoteFsTranslog.java:829-839 | Inserting a range into the ordered set keeps it ordered, and the set gains exactly that range. |
| PinnedGenerations.Ceiling | server/src/main/java/org/opensearch/index/translog/RemoteFsTranslog.java:817-827 | The ceiling of a range is the least range at or above it, and it is missing exactly when every range is below. |
| PinnedGenerations.Floor | server/src/main/java/org/opensearch/index/translog/RemoteFsTranslog.java:817-827 | The floor of a range is the greatest range at or below it, and it is missing exactly when every range is above. |
| PinnedGenerations.PinnedIsSound | server/src/main/java/org/opensearch/index/translog/RemoteFsTranslog.java:817-827 | A generation the ceiling-then-floor test reports as pinned lies in some pinned range. |
| PinnedGenerations.PinnedIsCompleteWhenMaxAscending | server/src/main/java/org/opensearch/index/translog/RemoteFsTranslog.java:817-827 | When pinned ranges ordered by minimum also have ascending maxima, every generation in a pinned range is reported as pinned. |
| PinnedGenerations.PinnedMissesNestedRange | server/src/main/java/org/opensearch/index/translog/RemoteFsTranslog.java:817-827 | With the ranges 1..10 and 2..3 pinned, generation 5 lies in a pinned range but the ceiling-then-floor test does not report it: no range starts at 5, and the floor of 5 is 2..3. |
| PinnedGenerations.StrictlySortedUnique | server/src/main/java/org/opensearch/index/translog/RemoteFsTranslog.java:829-839 | Two duplicate-free ordered sequences with the same elements are equal. |
| PinnedGenerations.SameElementsEmpty | server/src/main/java/org/opensearch/index/translog/RemoteFsTranslog.java:829-839 | Sequences with the same elements are empty together. |
| PinnedGenerations.SameLeast | server/src/main/java/org/opensearch/index/translog/RemoteFsTranslog.java:829-839 | Ordered sequences with the same elements start with the same range. |
| PinnedGenerations.SameTail | server/src/main/java/org/opensearch/index/translog/RemoteFsTranslog.java:829-839 | Their tails are again ordered with the same elements. |
| PinnedGenerations.TailElement | server/src/main/java/org/opensearch/index/translog/RemoteFsTranslog.java:829-839 | An element of one tail is in the other tail. |
| PinnedGenerations.TreeSetOf | server/src/main/java/org/opensearch/index/translog/RemoteFsTranslog.java:829-839 | The ordered set of the pinned ranges is ordered and holds exactly the given ranges. |
| PinnedGenerations.RangeGenerations | server/src/main/java/org/opensearch/index/translog/RemoteFsTranslog.java:758-764 | A range stands for exactly the generations from its minimum to its maximum. |
| PinnedGenerations.UnionOfRanges | server/src/main/java/org/opensearch/index/translog/RemoteFsTranslog.java:758-764 | The union holds exactly the generations in some range. |
| PinnedGenerations.UnionOfRangesSnoc | server/src/main/java/org/opensearch/index/translog/RemoteFsTranslog.java:758-764 | One more range adds its generations. |
| PinnedGenerations.GenerationsToBeDeleted | server/src/main/java/org/opensearch/index/translog/RemoteFsTranslog.java:766-774 | A generation deleted is at most the bound and in the range of a deleted metadata file. |
| PinnedGenerations.KeptGenerationsSurviveWhenMaxAscending | server/src/main/java/org/opensearch/index/translog/RemoteFsTranslog.java:766-774 | When kept ranges have ascending maxima, no generation in a kept range is deleted. |
| PinnedGenerations.NestedKeptRangeDoesNotProtect | server/src/main/java/org/opensearch/index/translog/RemoteFsTranslog.java:766-774 | With the kept ranges 1..10 and 2..3, generation 5 of a deleted file is deleted although 1..10 still covers it. |
| PinnedGenerations.RemoveAll | server/src/main/java/org/opensearch/index/translog/RemoteFsTranslog.java:699-700 | The files not to delete are exactly the listed files outside the delete list. |
| PinnedGenerations.RemoveFirst | server/src/main/java/org/opensearch/index/translog/RemoteFsTranslog.java:779-814 | Removing the newest file removes one occurrence and keeps the others. |
| PinnedGenerations.RemoveFirstRemovesUnique | server/src/main/java/org/opensearch/index/translog/RemoteFsTranslog.java:779-814 | In a list without repeats, the removed file is gone. |
| PinnedGenerations.MultiplicityOfUnique | server/src/main/java/org/opensearch/index/translog/RemoteFsTranslog.java:779-814 | A list without repeats holds each name at most once. |
| PinnedGenerations.MetadataFilesToBeDeleted | server/src/main/java/org/opensearch/index/translog/RemoteFsTranslog.java:779-814 | The files to delete are exactly the files old enough that are not locked. |
| PinnedGenerations.NewestFileIsKept | server/src/main/java/org/opensearch/index/translog/RemoteFsTranslog.java:684-689 | For a live index the newest metadata file is never deleted, and every file deleted is old enough and not locked. |
| PinnedGenerations.NoDuplicatesRemoveAll | server/src/main/java/org/opensearch/index/translog/RemoteFsTranslog.java:699-700 | Filtering keeps a list free of repeats. |
| TranslogDownload.Descending | server/src/main/java/org/opensearch/index/translog/RemoteFsTranslog.java:329-329 | The generations downloaded run from the newest down to the minimum translog generation. |
| TranslogDownload.DownloadPlan | server/src/main/java/org/opensearch/index/translog/RemoteFsTranslog.java:329-332 | Downloads stop at the first failure: the generations attempted are a prefix, all but the last succeed, and with no failure all of them succeed. |
| TranslogDownload.DownloadActions | server/src/main/java/org/opensearch/index/translog/RemoteFsTranslog.java:330-331 | Each generation is downloaded under its own primary term. |
| TranslogDownload.GenerationTexts | server/src/main/java/org/opensearch/index/translog/RemoteFsTranslog.java:330-330 | Generations are handed over as decimal text. |
| TranslogDownload.DownloadedGenerationsOfPlan | server/src/main/java/org/opensearch/index/translog/RemoteFsTranslog.java:329-332 | The generations in the download actions are exactly the planned ones, in order. |
| TranslogDownload.DownloadedGenerationsAppend | server/src/main/java/org/opensearch/index/translog/RemoteFsTranslog.java:329-332 | The generations of two action lists concatenate. |
| TranslogDownload.DownloadsDescendingRange | server/src/main/java/org/opensearch/index/translog/RemoteFsTranslog.java:330-333 | With remote metadata, the generations downloaded are a prefix of the descending range and, on success, the whole range. |
| TranslogDownload.TextsOfPrefix | server/src/main/java/org/opensearch/index/translog/RemoteFsTranslog.java:330-330 | The texts of a prefix are a prefix of the texts. |
| TranslogDownload.ResetOnlyNonEmptyLocal | server/src/main/java/org/opensearch/index/translog/RemoteFsTranslog.java:353-364 | Without remote metadata nothing is downloaded. An empty translog is created exactly when a local checkpoint exists, the remote store is not being seeded, and the local translog is not empty. |
| TranslogDownload.DownloadOnce | server/src/main/java/org/opensearch/index/translog/RemoteFsTranslog.java:307-367 | A failed metadata read ends the attempt with no action. With remote metadata, the generations downloaded are a prefix of the range from the newest down to the minimum, and the whole range when the attempt passes. Without metadata nothing is downloaded, and the local translog is reset exactly when its checkpoint is readable and non-empty and the shard is not seeding from remote. |
| TranslogDownload.DownloadFromMetadata | server/src/main/java/org/opensearch/index/translog/RemoteFsTranslog.java:319-347 | With metadata, the local directory is wiped first. The generations are then downloaded newest first, each under its own primary term, stopping at the first failure, so the downloads are a prefix of the descending range and all of it on success. The checkpoint is copied last, only after every download succeeded. |
| TranslogDownload.DownloadGenerations | server/src/main/java/org/opensearch/index/translog/RemoteFsTranslog.java:329-333 | The loop downloads exactly the planned generations and stops with the plan's failure. |
| TranslogDownload.ResetWithoutMetadata | server/src/main/java/org/opensearch/index/translog/RemoteFsTranslog.java:348-365 | Without metadata nothing is downloaded. An unreadable local checkpoint fails with no action. The local translog is reset exactly when its checkpoint reads as a non-empty translog and the shard is not seeding from remote. |
| TranslogDownload.PlanStopsAt | server/src/main/java/org/opensearch/index/translog/RemoteFsTranslog.java:329-333 | A failure at position n stops the plan right there. |
| TranslogDownload.PlanCompletes | server/src/main/java/org/opensearch/index/translog/RemoteFsTranslog.java:329-333 | With no failure the plan covers every generation. |
| TranslogDownload.Download | server/src/main/java/org/opensearch/index/translog/RemoteFsTranslog.java:279-305 | At most three attempts are made. Each is retried only after a retryable failure, and the result is that of the last attempt. Stopping early means it did not fail retryably. |
| TransferSnapshots.FirstHighestIndex | server/src/main/java/org/opensearch/index/translog/transfer/TranslogCheckpointTransferSnapshot.java:164-168 | The reader with the highest generation, the first of them when several share it, is a valid index. |
| TransferSnapshots.FoldHighest | server/src/main/java/org/opensearch/index/translog/transfer/TranslogCheckpointTransferSnapshot.java:144-170 | The highest generation, its primary term and its min translog generation all come from the first highest reader. |
| TransferSnapshots.FoldLowest | server/src/main/java/org/opensearch/index/translog/transfer/TranslogCheckpointTransferSnapshot.java:169-169 | The lowest generation is a reader's generation and at most every reader's. |
| TransferSnapshots.Generations | server/src/main/java/org/opensearch/index/translog/transfer/TranslogCheckpointTransferSnapshot.java:177-180 | The generations listed are those of the readers, in order. |
| TransferSnapshots.InsertSorted | server/src/main/java/org/opensearch/index/translog/transfer/TranslogCheckpointTransferSnapshot.java:177-180 | Insertion keeps the list sorted and adds exactly one element. |
| TransferSnapshots.SortedCons | server/src/main/java/org/opensearch/index/translog/transfer/TranslogCheckpointTransferSnapshot.java:177-180 | A least element in front keeps a list sorted. |
| TransferSnapshots.SortedOf | server/src/main/java/org/opensearch/index/translog/transfer/TranslogCheckpointTransferSnapshot.java:177-180 | Sorting gives a sorted permutation. |
| TransferSnapshots.SortedUnique | server/src/main/java/org/opensearch/index/translog/transfer/TranslogCheckpointTransferSnapshot.java:177-180 | A sorted permutation is unique. |
| TransferSnapshots.WrapLong | server/src/main/java/org/opensearch/index/translog/transfer/TranslogCheckpointTransferSnapshot.java:177-180 | The stream of generations wraps around as a Java long. |
| TransferSnapshots.IterateLimit | server/src/main/java/org/opensearch/index/translog/transfer/TranslogCheckpointTransferSnapshot.java:177-180 | The stream starts at the lowest generation, counts up by one, and is cut to the highest generation's length. |
| TransferSnapshots.FilterAtMost | server/src/main/java/org/opensearch/index/translog/transfer/TranslogCheckpointTransferSnapshot.java:177-180 | The filter keeps only generations at most the highest. |
| TransferSnapshots.Range | server/src/main/java/org/opensearch/index/translog/transfer/TranslogCheckpointTransferSnapshot.java:177-180 | The expected generations run by one from the lowest to the highest. |
| TransferSnapshots.GapCheck | server/src/main/java/org/opensearch/index/translog/transfer/TranslogCheckpointTransferSnapshot.java:177-180 | A negative highest generation makes the stream limit throw; otherwise the check fails only on a gap. |
| TransferSnapshots.FilterSplit | server/src/main/java/org/opensearch/index/translog/transfer/TranslogCheckpointTransferSnapshot.java:177-180 | Filtering a list whose first n elements are in bounds and the rest are not leaves those n. |
| TransferSnapshots.StreamIsRangeFromOne | server/src/main/java/org/opensearch/index/translog/transfer/TranslogCheckpointTransferSnapshot.java:177-180 | For positive lowest generations the stream is exactly the range from the lowest to the highest. |
| TransferSnapshots.GapCheckFromOne | server/src/main/java/org/opensearch/index/translog/transfer/TranslogCheckpointTransferSnapshot.java:177-180 | For positive lowest generations the gap check passes exactly when the sorted generations are the full range from lowest to highest. |
| TransferSnapshots.GapCheckFailsFromZero | server/src/main/java/org/opensearch/index/translog/transfer/TranslogCheckpointTransferSnapshot.java:177-180 | A lowest generation of zero or less always fails the gap check, because the stream stops one short of the highest. |
| TransferSnapshots.FirstCheckpointMismatch | server/src/main/java/org/opensearch/index/translog/transfer/TranslogCheckpointTransferSnapshot.java:173-176 | The first reader whose checkpoint generation differs is found, and none is found exactly when every reader matches. |
| TransferSnapshots.AssertionsPassFromOne | server/src/main/java/org/opensearch/index/translog/transfer/TranslogCheckpointTransferSnapshot.java:173-181 | For positive generations the build assertions pass exactly when three things hold: every checkpoint matches, the snapshot's primary term and generation are the first highest reader's, and the generations have no gaps. |
| TransferSnapshots.FoldBounds | server/src/main/java/org/opensearch/index/translog/transfer/TranslogCheckpointTransferSnapshot.java:164-169 | The lowest generation is at most the highest. |
| TransferSnapshots.AssertionFailureNone | server/src/main/java/org/opensearch/index/translog/transfer/TranslogCheckpointTransferSnapshot.java:173-181 | The assertions pass exactly when each of them does. |
| TransferSnapshots.HighestMatches | server/src/main/java/org/opensearch/index/translog/transfer/TranslogCheckpointTransferSnapshot.java:173-176 | The target matches the first highest reader exactly when its generation and primary term are the folded highest. |
| TransferSnapshots.FirstHighestUnique | server/src/main/java/org/opensearch/index/translog/transfer/TranslogCheckpointTransferSnapshot.java:164-168 | There is only one first highest reader. |
| TransferSnapshots.AssertionsFailFromZero | server/src/main/java/org/opensearch/index/translog/transfer/TranslogCheckpointTransferSnapshot.java:177-180 | With readers at generation zero or below the build assertions always fail. |
| TransferSnapshots.AssertionsFailWithoutReaders | server/src/main/java/org/opensearch/index/translog/transfer/TranslogCheckpointTransferSnapshot.java:173-181 | Building from no readers always fails the assertions. |
| TransferSnapshots.FileSnapshotsOf | server/src/main/java/org/opensearch/index/translog/transfer/TranslogCheckpointTransferSnapshot.java:144-163 | The file snapshots of a reader list are those of its readers. |
| TransferSnapshots.TranslogCheckpointTransferSnapshot.constructor | server/src/main/java/org/opensearch/index/translog/transfer/TranslogCheckpointTransferSnapshot.java:43-49 | A new snapshot is empty and keeps its primary term, generation, size and node id. |
| TransferSnapshots.TranslogCheckpointTransferSnapshot.Add | server/src/main/java/org/opensearch/index/translog/transfer/TranslogCheckpointTransferSnapshot.java:51-54 | Adding puts the file snapshot in the set; with assertions enabled, a file whose generation differs from its checkpoint generation fails, and only then. |
| TransferSnapshots.TranslogCheckpointTransferSnapshot.SetMinTranslogGeneration | server/src/main/java/org/opensearch/index/translog/transfer/TranslogCheckpointTransferSnapshot.java:56-58 | The min translog generation is set. |
| TransferSnapshots.TranslogCheckpointTransferSnapshot.GetTranslogTransferMetadata | server/src/main/java/org/opensearch/index/translog/transfer/TranslogCheckpointTransferSnapshot.java:60-69 | The metadata reports the snapshot's primary term, generation, min translog generation and node id, and counts the files in the set. |
| TransferSnapshots.TranslogCheckpointTransferSnapshot.GetTranslogAndCheckpointFileSnapshots | server/src/main/java/org/opensearch/index/translog/transfer/TranslogCheckpointTransferSnapshot.java:71-74 | The files returned are exactly the set. |
| TransferSnapshots.TranslogCheckpointTransferSnapshot.Close | server/src/main/java/org/opensearch/index/translog/transfer/TranslogCheckpointTransferSnapshot.java:76-93 | Every file snapshot is closed. Closing fails exactly when some file fails to close, and the failure carries exactly the failing files. |
| TransferSnapshots.BuildCheckpointTransferSnapshot | server/src/main/java/org/opensearch/index/translog/transfer/TranslogCheckpointTransferSnapshot.java:132-183 | The build fails exactly when assertions are enabled and an assertion fails; otherwise the snapshot holds one file snapshot per reader and metadata from the first highest reader. |
| TransferSnapshots.PrefixStep | server/src/main/java/org/opensearch/index/translog/transfer/TranslogCheckpointTransferSnapshot.java:144-170 | One more reader extends the generations, the fold and the checkpoint check by that reader. |
| TransferSnapshots.FileSnapshotsOfStep | server/src/main/java/org/opensearch/index/translog/transfer/TranslogCheckpointTransferSnapshot.java:144-163 | One more reader adds its file snapshot. |
| TransferSnapshots.SyncSnapshotsOfStep | server/src/main/java/org/opensearch/index/translog/transfer/TranslogSyncSnapshot.java:107-127 | One more reader adds its sync snapshot. |
| TransferSnapshots.MismatchAt | server/src/main/java/org/opensearch/index/translog/transfer/TranslogCheckpointTransferSnapshot.java:173-176 | The first mismatching reader is found at its own index. |
| TransferSnapshots.SyncSnapshotsOf | server/src/main/java/org/opensearch/index/translog/transfer/TranslogSyncSnapshot.java:107-127 | The sync snapshots of a reader list are those of its readers. |
| TransferSnapshots.TranslogSyncSnapshot.constructor | server/src/main/java/org/opensearch/index/translog/transfer/TranslogSyncSnapshot.java:37-42 | A new sync snapshot is empty and keeps its primary term, generation and node id. |
| TransferSnapshots.TranslogSyncSnapshot.Add | server/src/main/java/org/opensearch/index/translog/transfer/TranslogSyncSnapshot.java:44-47 | Adding puts the snapshot in the set; with assertions enabled, a mismatching checkpoint generation fails, and only then. |
| TransferSnapshots.TranslogSyncSnapshot.SetMinTranslogGeneration | server/src/main/java/org/opensearch/index/translog/transfer/TranslogSyncSnapshot.java:49-51 | The min translog generation is set. |
| TransferSnapshots.TranslogSyncSnapshot.GetTranslogTransferMetadata | server/src/main/java/org/opensearch/index/translog/transfer/TranslogSyncSnapshot.java:53-56 | The metadata reports the snapshot's primary term, generation, min translog generation and node id, and counts the set. |
| TransferSnapshots.TranslogSyncSnapshot.GetTranslogCheckpointSnapshots | server/src/main/java/org/opensearch/index/translog/transfer/TranslogSyncSnapshot.java:58-61 | The snapshots returned are exactly the set. |
| TransferSnapshots.BuildSyncSnapshot | server/src/main/java/org/opensearch/index/translog/transfer/TranslogSyncSnapshot.java:100-147 | The build fails exactly when assertions are enabled and an assertion fails; otherwise the snapshot holds one sync snapshot per reader and metadata from the first highest reader. |
| CkpTracker.TranslogCkpAsMetadataFileTransferTracker.constructor | server/src/main/java/org/opensearch/index/translog/transfer/TranslogCkpAsMetadataFileTransferTracker.java:29-71 | A new tracker knows no generation and no file length. |
| CkpTracker.TranslogCkpAsMetadataFileTransferTracker.OnSuccess | server/src/main/java/org/opensearch/index/translog/transfer/TranslogCkpAsMetadataFileTransferTracker.java:29-38 | A successful upload marks its generation as uploaded even when the stats update throws. |
| CkpTracker.TranslogCkpAsMetadataFileTransferTracker.OnFailure | server/src/main/java/org/opensearch/index/translog/transfer/TranslogCkpAsMetadataFileTransferTracker.java:40-45 | A failed upload marks its generation as not uploaded; a throwing stats update fails first and records nothing. |
| CkpTracker.TranslogCkpAsMetadataFileTransferTracker.IsUploaded | server/src/main/java/org/opensearch/index/translog/transfer/TranslogCkpAsMetadataFileTransferTracker.java:47-50 | A generation text that is not a long is rejected; otherwise the answer is whether that generation is recorded as uploaded. |
| CkpTracker.TranslogCkpAsMetadataFileTransferTracker.AllUploaded | server/src/main/java/org/opensearch/index/translog/transfer/TranslogCkpAsMetadataFileTransferTracker.java:52-55 | The uploaded set is exactly the generations recorded as uploaded. |
| CkpTracker.TranslogCkpAsMetadataFileTransferTracker.RecordBytesForFiles | server/src/main/java/org/opensearch/index/translog/transfer/TranslogCkpAsMetadataFileTransferTracker.java:57-64 | The length map is rebuilt with exactly both file names of every snapshot, each with its own length. |
| CkpTracker.TranslogCkpAsMetadataFileTransferTracker.DeleteGenerations | server/src/main/java/org/opensearch/index/translog/transfer/TranslogCkpAsMetadataFileTransferTracker.java:66-71 | Exactly the decimal keys of the given generations are removed. |
| CkpTracker.FileNamesAdd | server/src/main/java/org/opensearch/index/translog/transfer/TranslogCkpAsMetadataFileTransferTracker.java:57-64 | One more snapshot adds its two file names. |
| CkpTracker.DeleteGenerationsForgetsExactly | server/src/main/java/org/opensearch/index/translog/transfer/TranslogCkpAsMetadataFileTransferTracker.java:66-71 | After deleting, a generation is still recorded exactly when it was before and was not deleted. |
| CkpTracker.IsUploadedOfGenerationText | server/src/main/java/org/opensearch/index/translog/transfer/TranslogCkpAsMetadataFileTransferTracker.java:47-50 | Asking with the decimal text of a generation gives the generation's own answer. |
| Decimal.NatToString | server/src/main/java/org/opensearch/index/translog/RemoteFsTranslog.java:330-330 | Decimal text is non-empty digits without a leading zero. |
| Decimal.DigitsOfNat | server/src/main/java/org/opensearch/index/translog/RemoteFsTranslog.java:330-330 | The digits of a number read back as that number. |
| Decimal.ParseLongToString | server/src/main/java/org/opensearch/index/translog/transfer/TranslogCkpAsMetadataFileTransferTracker.java:47-50 | Parsing the decimal text of a long gives the long back. |
| Decimal.LongToStringInjective | server/src/main/java/org/opensearch/index/translog/transfer/TranslogCkpAsMetadataFileTransferTracker.java:66-71 | Different longs have different decimal texts. |
| TranslogTypes.ParseIdFromFileName | server/src/main/java/org/opensearch/index/translog/RemoteFsTranslog.java:635-636 | A generation parses only from a name with the translog suffix. |
| TranslogTypes.ParseTranslogFileName | server/src/main/java/org/opensearch/index/translog/RemoteFsTranslog.java:636-639 | The translog file name of a generation parses back to that generation. |
| PathResolver.AllNodesHaveAttribute | server/src/main/java/org/opensearch/index/remote/RemoteStoreCustomMetadataResolver.java:76-82 | True exactly when every node carries the optimised remote store attribute. |
| PathResolver.IsRemoteCustomMetadataEnabled | server/src/main/java/org/opensearch/index/remote/RemoteStoreCustomMetadataResolver.java:69-84 | Custom metadata is on exactly when the cluster has nodes and every node carries the attribute. |
| PathResolver.GetPathStrategy | server/src/main/java/org/opensearch/index/remote/RemoteStoreCustomMetadataResolver.java:59-67 | The configured path type is used only when custom metadata is on, otherwise FIXED. A hash algorithm is present exactly for non-FIXED types, and it is the configured one. |
| PathResolver.IsTranslogMetadataEnabled | server/src/main/java/org/opensearch/index/remote/RemoteStoreCustomMetadataResolver.java:86-97 | A missing repository is an error. Otherwise the answer is true exactly when all four hold: custom metadata is on, the setting is on, the repository supports blob metadata, and the cluster has nodes. |
| PathResolver.EmptyClusterIsFixed | server/src/test/java/org/opensearch/index/remote/RemoteStoreCustomMetadataResolverTests.java:214-226 | A cluster without nodes uses the FIXED path without a hash and has translog metadata off. |
| PathResolver.NodeWithoutAttributeIsFixed | server/src/test/java/org/opensearch/index/remote/RemoteStoreCustomMetadataResolverTests.java:59-72 | One node without the attribute forces FIXED and turns translog metadata off. |
| PathResolver.AllNodesWithAttributeUseConfigured | server/src/test/java/org/opensearch/index/remote/RemoteStoreCustomMetadataResolverTests.java:74-92 | When every node has the attribute, the configured path type and its hash are used, and translog metadata follows the setting and the repository. |
| MockBlobContainer.Zeros | server/src/internalClusterTest/java/org/opensearch/remotestore/translogckpasmetadata/mocks/MockFsMetadataSupportedBlobContainer.java:52-52 | The upload buffer starts as the given number of zero bytes. |
| MockBlobContainer.LastIndexOf | server/src/internalClusterTest/java/org/opensearch/remotestore/translogckpasmetadata/mocks/MockFsMetadataSupportedBlobContainer.java:131-139 | The last occurrence of a character is found, or -1 when there is none. |
| MockBlobContainer.GetCheckpointFileName | server/src/internalClusterTest/java/org/opensearch/remotestore/translogckpasmetadata/mocks/MockFsMetadataSupportedBlobContainer.java:131-139 | Only a translog name is accepted, otherwise the error names it; the name returned has the checkpoint suffix. |
| MockBlobContainer.CheckpointNameOfTranslogName | server/src/internalClusterTest/java/org/opensearch/remotestore/translogckpasmetadata/mocks/MockFsMetadataSupportedBlobContainer.java:131-139 | A translog name maps to the same base name with the checkpoint suffix. |
| MockBlobContainer.TranslogAndCheckpointAreNotSegments | server/src/internalClusterTest/java/org/opensearch/remotestore/translogckpasmetadata/mocks/MockFsMetadataSupportedBlobContainer.java:195-197 | Translog and checkpoint files are not segment files. |
| MockBlobContainer.SuffixesDiffer | server/src/internalClusterTest/java/org/opensearch/remotestore/translogckpasmetadata/mocks/MockFsMetadataSupportedBlobContainer.java:131-139 | A translog name never ends with the checkpoint suffix. |
| MockBlobContainer.StoreCheckpoint | server/src/internalClusterTest/java/org/opensearch/remotestore/translogckpasmetadata/mocks/MockFsMetadataSupportedBlobContainer.java:55-61 | Without metadata nothing is stored. Otherwise the blob must be a translog file with checkpoint data, and that data is stored as the new checkpoint file next to it. |
| MockBlobContainer.Overlay | server/src/internalClusterTest/java/org/opensearch/remotestore/translogckpasmetadata/mocks/MockFsMetadataSupportedBlobContainer.java:73-78 | Writing a part into the buffer keeps its length. |
| MockBlobContainer.Assemble | server/src/internalClusterTest/java/org/opensearch/remotestore/translogckpasmetadata/mocks/MockFsMetadataSupportedBlobContainer.java:63-87 | The assembled blob has the declared size. |
| MockBlobContainer.CopyPart | server/src/internalClusterTest/java/org/opensearch/remotestore/translogckpasmetadata/mocks/MockFsMetadataSupportedBlobContainer.java:73-78 | Copying a part into the array buffer places its bytes at the part's offset when it fits and reports the bytes read. |
| MockBlobContainer.OverlayIndex | server/src/internalClusterTest/java/org/opensearch/remotestore/translogckpasmetadata/mocks/MockFsMetadataSupportedBlobContainer.java:73-78 | Each buffer position after copying holds the part's byte or the old byte. |
| MockBlobContainer.AsyncBlobUpload | server/src/internalClusterTest/java/org/opensearch/remotestore/translogckpasmetadata/mocks/MockFsMetadataSupportedBlobContainer.java:45-128 | Several outcomes, in order. A failed checkpoint store leaves the directory and throws. An existing blob throws FileAlreadyExists. Otherwise the assembled blob is written, and the completion checks the length first, then the integrity failure, then the finalizer. |
| MockBlobContainer.IntegrityFailureOnlyForSegments | server/src/internalClusterTest/java/org/opensearch/remotestore/translogckpasmetadata/mocks/MockFsMetadataSupportedBlobContainer.java:98-126 | A corrupt-index failure only happens for segment files with the trigger set. A translog blob of the right length with no finalizer failure completes. A wrong length throws with both lengths. |
| MockBlobContainer.ReadBlob | server/src/internalClusterTest/java/org/opensearch/remotestore/translogckpasmetadata/mocks/MockFsMetadataSupportedBlobContainer.java:160-168 | A blob can be read exactly when it exists. |
| MockBlobContainer.CheckpointMetadataRoundTrip | server/src/internalClusterTest/java/org/opensearch/remotestore/translogckpasmetadata/mocks/MockFsMetadataSupportedBlobContainer.java:55-168 | A translog blob uploaded with checkpoint metadata reads back with that checkpoint data as its metadata. |
| MockBlobContainer.PartSizeZeroIffShort | server/src/internalClusterTest/java/org/opensearch/remotestore/translogckpasmetadata/mocks/MockFsMetadataSupportedBlobContainer.java:174-182 | The part size is zero exactly for blobs shorter than ten bytes. |
| MockBlobContainer.MulMonotonic | server/src/internalClusterTest/java/org/opensearch/remotestore/translogckpasmetadata/mocks/MockFsMetadataSupportedBlobContainer.java:174-182 | Proof step of the part split: multiplying by a part size keeps order. |
| MockBlobContainer.DivModUnique | server/src/internalClusterTest/java/org/opensearch/remotestore/translogckpasmetadata/mocks/MockFsMetadataSupportedBlobContainer.java:174-182 | Proof step of the part split: quotient and remainder are unique. |
| MockBlobContainer.PartsCoverBlob | server/src/internalClusterTest/java/org/opensearch/remotestore/translogckpasmetadata/mocks/MockFsMetadataSupportedBlobContainer.java:174-182 | For blobs of ten bytes or more, the parts cover the blob with the last part non-empty, and there are between ten and nineteen of them. |
| MockBlobContainer.ReadParts | server/src/internalClusterTest/java/org/opensearch/remotestore/translogckpasmetadata/mocks/MockFsMetadataSupportedBlobContainer.java:174-182 | Part i starts at i times the part size and holds the bytes there. |
| MockBlobContainer.ReadBlobAsync | server/src/internalClusterTest/java/org/opensearch/remotestore/translogckpasmetadata/mocks/MockFsMetadataSupportedBlobContainer.java:170-189 | A missing blob fails with a null pointer, and a blob under ten bytes fails with division by zero; otherwise the answer is its length and its parts. |
| MockBlobContainer.PartsFromBeyondEnd | server/src/internalClusterTest/java/org/opensearch/remotestore/translogckpasmetadata/mocks/MockFsMetadataSupportedBlobContainer.java:174-182 | Parts starting past the end are empty. |
| MockBlobContainer.PartsFromCover | server/src/internalClusterTest/java/org/opensearch/remotestore/translogckpasmetadata/mocks/MockFsMetadataSupportedBlobContainer.java:174-182 | The parts from index i on concatenate to the blob from that offset. |
| MockBlobContainer.ReadPartsReassemble | server/src/internalClusterTest/java/org/opensearch/remotestore/translogckpasmetadata/mocks/MockFsMetadataSupportedBlobContainer.java:174-182 | Concatenating the parts gives back the blob. |
| MockBlobContainer.PartsFromIndex | server/src/internalClusterTest/java/org/opensearch/remotestore/translogckpasmetadata/mocks/MockFsMetadataSupportedBlobContainer.java:174-182 | Part i+k of the tail is the part at that offset. |

## Left out

- I/O, threads, locks, the async listeners and timeouts. Every remote or local call is a parameter, and an async listener runs to completion where it is called. The lock ordering and the reentrancy of `ReleasableLock` are not modelled.
- Logging, stats updates beyond their throwing, `maxSeqNo` bookkeeping and Base64 encoding. None of them affects the states the contracts speak about.
- Java `long` overflow outside the gap-check stream, and the `(int)` casts of part sizes in the blob container. Generations and sizes are unbounded integers.
- The superclass `Translog` and the plain `FileTransferTracker` are not part of this model. `createWriter`, `closeIntoReader`, `copyCheckpointTo`, `recoverFromFiles`, `readers`, `current` and `getMinFileGeneration` are modelled from their use: a fresh empty writer, a reader given by the environment, a possibly throwing step, the recovered readers, and the minimum reader generation.
- `super.trimUnreferencedReaders()` (RemoteFsTranslog.java line 627) is assumed to drop exactly the readers below the minimum referenced generation, as `KeepReadersFrom` states. The model does not check for a closed translog there, and it does not delete local reader files.
- `syncBeforeRollGeneration()` (RemoteFsTranslog.java line 430) is a superclass hook. It is assumed to call `sync()`, which is overridden in `RemoteFsTranslog`.
- `close()` and `closeOnTragicEvent` internals. A tragic event only marks the translog closed and tragic.
- The lock on the minimum file generation taken from the deletion policy during `prepareAndUpload`.
- `buildTranslogTransferManager`, the static `cleanup` and the static `download` overloads that only build a transfer manager. So are the plain getters `allUploaded`, `getMinUnreferencedSeqNoInSegments`, `isRemoteGenerationDeletionPermitsAvailable` and the container's `remoteIntegrityCheckSupported`. The tracker's uploaded set is the field `uploadedFiles`.
- `getMinReferencedGen` asks the deletion policy and the sequence-number index, and is the parameter `minReferencedGen` of `TrimEnv`.
- `onDelete` is a caller. It only picks `trimUnreferencedReaders(true, false)`, which is `TrimUnreferencedReaders` with those arguments, or a delete of everything.
- `onUploadFailed` rethrows the transfer's exception. That is the `UploadFailed` error of `UploadOutcome`.
- The constructor's download and recovery wiring. The constructor is modelled by the state it ends in; download itself is `TranslogDownload.Download`.
- The `HashSet` of both transfer snapshots is a Dafny set, so duplicates are found by value equality. That assumes the file snapshots' `equals` compares their contents; the classes that define it are not part of this model.
- Decimal parsing accepts the ASCII digits only. Java's `Long.parseLong` also accepts other Unicode decimal digits. File names built by the translog contain ASCII digits only.
- The order in which a `HashSet` is iterated. A loop over a set picks an arbitrary element, so a failure part way through a set loop leaves a tracker state that depends on that order.
- The live-set aliasing of the sync snapshot. Its builders return a snapshot whose set is a value, not the list object the source shares.
- `getMetadataFilesToBeDeleted` is modelled through its two filters, `filterByAge` and `lockedFiles`, given as functions. The exceptions they may throw are not modelled.
- `TranslogCheckpointSnapshotTransferManagerWithMetadata`, the transfer manager interfaces, `FileTransferListener`, `DownloadBlobResponse`, `TieringUtils` and the integration tests are not part of this model. They are callers or plumbing around the modelled core.
- RemoteTranslog.RemoteFsTranslog.PruneTracker: on an unparsable tracker file it states only that the tracker lost no other files. Which stale files were already deleted depends on the set's iteration order.
- RemoteTranslog.RemoteFsTranslog.PrepareAndUpload: in the sealing case it states the recorded transfer only as none or the new snapshot's metadata. `Upload` states which of the two applies.
- RemoteTranslog.RemoteFsTranslog.RollGeneration: the local fsync of the sync before the roll is the parameter `syncedToDisk`. On a closed translog the contract states only the first reader appended, not whether a second seal follows.
- RemoteTranslog.RemoteFsTranslog.Sync: the local fsync is the parameter `syncedToDisk`. A throwing fsync, and the tragic close it causes, are not modelled.
- RemoteTranslog.RemoteFsTranslog.SweepRemote: after a failed primary-term cleanup it states the permit sum, two permits released plus two callbacks pending, instead of the balance invariant. That is the source's behaviour; see above.
- RemoteTranslog.DrainHandle.Release: a second release is a no-op that answers `None`. In the source it closes silently.
- MockBlobContainer.AsyncBlobUpload: the timeout of the part-reading latch is not modelled, and every part read completes. The parts of a `WriteContext` are always readable, so an `IOException` in a part thread, which calls `onFailure` while the main thread goes on to the write, the length check and possibly a second listener call, is not modelled. `CopyPart` reads each chunk as between one byte and the bytes left, so an `inputStream.read` that returns -1 or 0 is not modelled either.
