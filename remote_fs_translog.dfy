/**
 * The remote translog (class RemoteFsTranslog): the sync gate that seals the
 * current writer and uploads a transfer snapshot, the drain that pauses syncs
 * during primary relocation, and the retention sweep that deletes remote
 * generations and metadata files no kept metadata file refers to.
 *
 * Threads, locks, the async listeners and the blob store are not part of this
 * model. A semaphore is a counter; an async call is an entry appended to
 * `remoteOps`, and its completion callback is `DeletionCallback`; what the
 * transfer manager, the local translog and the helpers of the remote store
 * answer is given by the `SyncEnv` and `TrimEnv` parameters.
 */
module RemoteTranslog {
  import opened Common
  import opened TranslogTypes
  import opened PinnedGenerations
  import opened Retention
  import TransferSnapshots

  /** Permits of the deletion semaphore: one per async delete of a sweep. */
  const REMOTE_DELETION_PERMITS: nat := 2
  /** Permits of the sync semaphore: one upload at a time. */
  const SYNC_PERMIT: nat := 1

  /** The current writer, as far as the remote translog reads it. */
  datatype TranslogWriter = TranslogWriter(generation: int, primaryTerm: int, totalOperations: nat, syncNeeded: bool)

  /** The step of sealing the writer that throws, if any. */
  datatype SealFailure = NoSealFailure | CloseIntoReaderFails | CopyCheckpointFails | CreateWriterFails

  /** Whether sealing throws: creating the next writer is a step only on an open translog. */
  predicate SealThrows(failure: SealFailure, closed: bool) {
    failure == CloseIntoReaderFails || failure == CopyCheckpointFails || (failure == CreateWriterFails && !closed)
  }

  /** What the transfer manager does with a snapshot: upload it, or fail (the listener rethrows). */
  datatype TransferOutcome = Transferred | TransferFails

  /**
   * What a sync depends on that this model does not compute: whether the shard
   * is a started primary, the current primary term, the reader the local
   * translog seals the writer into, which sealing step throws, the transfer's
   * outcome, which file snapshots throw on close and whether Java assertions
   * are enabled.
   */
  datatype SyncEnv = SyncEnv(
    startedPrimary: bool,
    primaryTerm: int,
    closeIntoReader: TranslogWriter -> TranslogReader,
    sealFailure: SealFailure,
    transfer: TransferOutcome,
    closeFails: TransferSnapshots.TranslogAndCheckpointFileSnapshot -> bool,
    assertionsEnabled: bool)

  datatype TranslogError =
    | AlreadyClosed
    | Tragedy(failure: SealFailure)
    | SnapshotInvalid(buildError: TransferSnapshots.BuildError)
    | UploadFailed
    | SnapshotCloseFailed(closeError: TransferSnapshots.CloseError)
    | MinSeqNoBackwards(current: int, requested: int)
    | DrainTimeout
    | UnparsableTranslogFile(file: string)
    | UnreadablePrimaryTerm(file: string)

  /** Async calls to the remote store, in the order they were started. */
  datatype RemoteOp =
    | DeleteGenerations(primaryTerm: int, generations: set<int>)
    | DeleteMetadataFiles(files: seq<string>)
    | DeletePrimaryTerms(minimumReferencedPrimaryTerm: int)

  /**
   * What a retention sweep depends on that this model does not compute: the
   * minimum generation the local deletion policy still references, whether the
   * shard is a started primary, whether the pinned-timestamp state is stale
   * before and after the listing, the listing of the remote metadata files
   * (None when it fails), the pinned-timestamp filters, the helpers that read
   * a metadata file's range and primary term, and the current primary term.
   */
  datatype TrimEnv = TrimEnv(
    minReferencedGen: int,
    startedPrimary: bool,
    pinnedStateStaleBeforeListing: bool,
    pinnedStateStaleAfterListing: bool,
    listing: Option<seq<string>>,
    filterByAge: seq<string> -> seq<string>,
    lockedFiles: seq<string> -> set<string>,
    names: string -> Option<GenerationRange>,
    read: string -> Option<TransferSnapshots.TranslogTransferMetadata>,
    primaryTermOf: string -> Option<int>,
    primaryTerm: int)

  /** Where a retention sweep stopped. */
  datatype TrimExit =
    | NotPrimaryOrPaused
    | PinnedStateStale
    | DeletionInProgress
    | ListingFailed
    | NoStaleMetadataFiles
    | PinnedStateStaleAfterListing
    | NoMetadataFilesToDelete
    | MetadataUnreadable(file: string)
    | NoGenerationsToDelete
    /** Both async deletes started. */
    | DeletionStarted(generations: set<int>, metadataFiles: seq<string>)
    /** Both async deletes started, then the primary-term cleanup threw and the catch released the permits again. */
    | CleanupFailed(generations: set<int>, metadataFiles: seq<string>)
  {
    predicate StartedDeletes() {
      DeletionStarted? || CleanupFailed?
    }
  }

  /** The writer `createWriter(generation + 1)` opens: empty, under the current primary term. */
  function NextWriter(w: TranslogWriter, primaryTerm: int): (n: TranslogWriter)
    ensures n.generation == w.generation + 1 && n.totalOperations == 0
    ensures n.primaryTerm == primaryTerm && !n.syncNeeded
  {
    TranslogWriter(w.generation + 1, primaryTerm, 0, false)
  }

  class RemoteFsTranslog {
    // -- the local translog
    var readers: seq<TranslogReader>
    var current: TranslogWriter
    var closed: bool
    var tragic: bool
    // -- the sync gate
    var syncPermits: nat
    var pauseSync: bool
    /** Sync permits acquired and never released, one per exit that skips the release. */
    ghost var leakedSyncPermits: nat
    var maxRemoteTranslogGenerationUploaded: int
    var minRemoteGenReferenced: int
    var minSeqNoToKeep: int
    /** The metadata records of the snapshots handed to the transfer manager. */
    var transfers: seq<TransferSnapshots.TranslogTransferMetadata>
    // -- retention
    var deletionPermits: nat
    /** Async deletes started whose release callback has not run yet. */
    var pendingDeletionCallbacks: nat
    var oldFormatMetadataFileGenerationMap: map<string, GenerationRange>
    var olderPrimaryCleaned: bool
    /** `fileTransferTracker.allUploaded()`: the names recorded as uploaded. */
    var uploadedFiles: set<string>
    var remoteOps: seq<RemoteOp>
    /** The metadata files read from the remote store, in order. */
    var metadataReads: seq<string>
    const location: string
    const nodeId: string
    const extraKeep: int
    const maxRemoteTranslogReaders: int

    /**
     * The single sync permit is available, held by a drain (sync paused) or
     * leaked by an exit that skips the release.
     */
    ghost predicate SyncPermitsConserved()
      reads this
    {
      syncPermits + leakedSyncPermits + (if pauseSync then 1 else 0) == SYNC_PERMIT
    }

    /** Both deletion permits are available or held by an async delete in flight. */
    predicate DeletionPermitsBalanced()
      reads this
    {
      deletionPermits + pendingDeletionCallbacks == REMOTE_DELETION_PERMITS
    }

    /**
     * A translog recovered into at least one reader, with the writer of the next
     * generation; the counters start at zero, the semaphores full.
     */
    constructor (location: string, nodeId: string, extraKeep: int, maxRemoteTranslogReaders: int,
                 recovered: seq<TranslogReader>, writer: TranslogWriter)
      requires recovered != []
      ensures readers == recovered && current == writer && !closed && !tragic
      ensures syncPermits == SYNC_PERMIT && !pauseSync && leakedSyncPermits == 0
      ensures maxRemoteTranslogGenerationUploaded == 0 && minRemoteGenReferenced == 0 && minSeqNoToKeep == 0
      ensures deletionPermits == REMOTE_DELETION_PERMITS && pendingDeletionCallbacks == 0
      ensures oldFormatMetadataFileGenerationMap == map[] && !olderPrimaryCleaned
      ensures uploadedFiles == {} && remoteOps == [] && metadataReads == [] && transfers == []
      ensures this.location == location && this.nodeId == nodeId
      ensures this.extraKeep == extraKeep && this.maxRemoteTranslogReaders == maxRemoteTranslogReaders
      ensures SyncPermitsConserved() && DeletionPermitsBalanced()
    {
      readers := recovered;
      current := writer;
      closed := false;
      tragic := false;
      syncPermits := SYNC_PERMIT;
      pauseSync := false;
      leakedSyncPermits := 0;
      maxRemoteTranslogGenerationUploaded := 0;
      minRemoteGenReferenced := 0;
      minSeqNoToKeep := 0;
      transfers := [];
      deletionPermits := REMOTE_DELETION_PERMITS;
      pendingDeletionCallbacks := 0;
      oldFormatMetadataFileGenerationMap := map[];
      olderPrimaryCleaned := false;
      uploadedFiles := {};
      remoteOps := [];
      metadataReads := [];
      this.location := location;
      this.nodeId := nodeId;
      this.extraKeep := extraKeep;
      this.maxRemoteTranslogReaders := maxRemoteTranslogReaders;
    }

    /** `getMinFileGeneration`: the least reader generation, or the writer's when no reader is left. */
    function MinFileGeneration(): (g: int)
      reads this`readers, this`current
      ensures readers == [] ==> g == current.generation
      ensures readers != [] ==> (exists k :: 0 <= k < |readers| && readers[k].generation == g)
                                && forall k :: 0 <= k < |readers| ==> g <= readers[k].generation
    {
      if readers == [] then current.generation else MinReaderGeneration(readers)
    }

    // ---------------------------------------------------------------- upload

    /** The snapshot the upload builds from the readers: its file snapshots. */
    function SnapshotFiles(): set<TransferSnapshots.TranslogAndCheckpointFileSnapshot>
      reads this`readers
    {
      TransferSnapshots.FileSnapshotsOf(readers, location, CommitCheckpointFileName)
    }

    /** The metadata record of the snapshot of `generation` built from the readers. */
    function SnapshotMetadata(primaryTerm: int, generation: int): (m: TransferSnapshots.TranslogTransferMetadata)
      reads this`readers
      ensures m.primaryTerm == primaryTerm && m.generation == generation && m.nodeId == nodeId
      ensures m.count == |SnapshotFiles()|
      ensures m.minTranslogGeneration == TransferSnapshots.Fold(readers).highestGenMinTranslogGeneration
    {
      TransferSnapshots.TranslogTransferMetadata(primaryTerm, generation,
        TransferSnapshots.Fold(readers).highestGenMinTranslogGeneration, |SnapshotFiles()|, nodeId)
    }

    /** Whether building the snapshot of `generation` from the readers trips an assertion. */
    function BuildFailure(primaryTerm: int, generation: int, env: SyncEnv): Option<TransferSnapshots.BuildError>
      reads this`readers
    {
      if env.assertionsEnabled then TransferSnapshots.AssertionFailure(primaryTerm, generation, readers) else None
    }

    /**
     * The outcome of `upload` from the readers it starts with: an assertion of
     * the builder, else the transfer's failure, else the failures of closing the
     * file snapshots, else true.
     */
    function UploadOutcome(primaryTerm: int, generation: int, env: SyncEnv): (r: Result<bool, TranslogError>)
      reads this`readers
      ensures r.Ok? ==> r.value
      ensures r == Ok(true) <==> BuildFailure(primaryTerm, generation, env).None? && env.transfer == Transferred
                                 && forall f :: f in SnapshotFiles() ==> !env.closeFails(f)
    {
      if BuildFailure(primaryTerm, generation, env).Some? then Err(SnapshotInvalid(BuildFailure(primaryTerm, generation, env).value))
      else if env.transfer == TransferFails then Err(UploadFailed)
      else if exists f :: f in SnapshotFiles() && env.closeFails(f) then
        Err(SnapshotCloseFailed(TransferSnapshots.CloseError(set f | f in SnapshotFiles() && env.closeFails(f))))
      else
        assert env.transfer == Transferred;
        Ok(true)
    }

    /**
     * `upload`: builds the checkpoint transfer snapshot from the readers, hands it
     * to the transfer manager, closes it, and in every case releases the sync
     * permit. A transfer that succeeds runs the upload-complete listener.
     */
    method Upload(primaryTerm: int, generation: int, env: SyncEnv) returns (r: Result<bool, TranslogError>)
      modifies this`syncPermits, this`transfers, this`maxRemoteTranslogGenerationUploaded, this`minRemoteGenReferenced
      ensures syncPermits == old(syncPermits) + SYNC_PERMIT
      ensures r == old(UploadOutcome(primaryTerm, generation, env))
      ensures transfers == if old(BuildFailure(primaryTerm, generation, env)).Some? then old(transfers)
                           else old(transfers) + [old(SnapshotMetadata(primaryTerm, generation))]
      ensures old(BuildFailure(primaryTerm, generation, env)).None? && env.transfer == Transferred
              ==> maxRemoteTranslogGenerationUploaded == generation && minRemoteGenReferenced == MinFileGeneration()
      ensures old(BuildFailure(primaryTerm, generation, env)).Some? || env.transfer == TransferFails
              ==> maxRemoteTranslogGenerationUploaded == old(maxRemoteTranslogGenerationUploaded)
                  && minRemoteGenReferenced == old(minRemoteGenReferenced)
    {
      var built := TransferSnapshots.BuildCheckpointTransferSnapshot(
        primaryTerm, generation, location, readers, CommitCheckpointFileName, nodeId, env.assertionsEnabled);
      if built.Err? {
        syncPermits := syncPermits + SYNC_PERMIT;
        return Err(SnapshotInvalid(built.error));
      }
      var snapshot := built.value;
      transfers := transfers + [snapshot.GetTranslogTransferMetadata()];
      var transferred := false;
      if env.transfer == Transferred {
        OnUploadComplete(generation);
        transferred := true;
      }
      var attempted, closing := snapshot.Close(env.closeFails);
      syncPermits := syncPermits + SYNC_PERMIT;
      if !transferred {
        // a failure of the close is suppressed into the transfer's exception
        return Err(UploadFailed);
      }
      if closing.Fail? {
        return Err(SnapshotCloseFailed(closing.error));
      }
      r := Ok(true);
    }

    /** The upload-complete listener: the generation uploaded and the least generation it refers to. */
    method OnUploadComplete(generation: int)
      modifies this`maxRemoteTranslogGenerationUploaded, this`minRemoteGenReferenced
      ensures maxRemoteTranslogGenerationUploaded == generation
      ensures minRemoteGenReferenced == MinFileGeneration()
    {
      maxRemoteTranslogGenerationUploaded := generation;
      minRemoteGenReferenced := MinFileGeneration();
    }

    /**
     * `prepareAndUpload`: skipped (false, nothing changes) unless the shard is a
     * started primary and the sync permit is free. With the permit taken, a
     * request for the current generation (or for none) seals the writer into a
     * reader, opens the next generation unless the translog is closed, and
     * uploads the generation just sealed; a request for an older generation
     * returns false holding the permit; a failure while sealing is a tragedy:
     * the translog closes and the permit stays held. Every caller asks for the
     * current generation or none (`ensureSynced` asserts it), and a newer one
     * would reach the read-lock assertion without holding the lock.
     */
    method PrepareAndUpload(generation: Option<int>, env: SyncEnv) returns (r: Result<bool, TranslogError>)
      requires generation.None? || generation.value <= current.generation
      requires SyncPermitsConserved()
      modifies this
      ensures SyncPermitsConserved()
      ensures !env.startedPrimary || old(syncPermits) < SYNC_PERMIT ==> r == Ok(false) && unchanged(this)
      ensures env.startedPrimary && old(syncPermits) >= SYNC_PERMIT && generation.Some? && generation.value < old(current.generation)
              ==> r == Ok(false) && syncPermits == old(syncPermits) - SYNC_PERMIT && leakedSyncPermits == old(leakedSyncPermits) + 1
                  && readers == old(readers) && current == old(current) && transfers == old(transfers)
      ensures env.startedPrimary && old(syncPermits) >= SYNC_PERMIT && (generation.None? || generation.value == old(current.generation))
              ==> if SealThrows(env.sealFailure, old(closed)) then
                    && r == Err(Tragedy(env.sealFailure)) && closed && tragic
                    && syncPermits == old(syncPermits) - SYNC_PERMIT && leakedSyncPermits == old(leakedSyncPermits) + 1
                    && readers == (if env.sealFailure == CloseIntoReaderFails then old(readers)
                                   else old(readers) + [env.closeIntoReader(old(current))])
                    && current == old(current)
                  else
                    && readers == old(readers) + [env.closeIntoReader(old(current))]
                    && current == (if old(closed) then old(current) else NextWriter(old(current), env.primaryTerm))
                    && syncPermits == old(syncPermits) && closed == old(closed)
                    && r == UploadOutcome(env.primaryTerm, old(current.generation), env)
                    && (transfers == old(transfers) || transfers == old(transfers) + [SnapshotMetadata(env.primaryTerm, old(current.generation))])
                    && (r == Ok(true) ==> maxRemoteTranslogGenerationUploaded == old(current.generation))
                    && (r == Ok(true) && !old(closed) ==> !SyncNeeded())
    {
      if !env.startedPrimary || syncPermits < SYNC_PERMIT {
        return Ok(false);
      }
      syncPermits := syncPermits - SYNC_PERMIT;
      if generation.None? || generation.value == current.generation {
        r := SealAndUpload(generation, env);
      } else {
        leakedSyncPermits := leakedSyncPermits + 1;
        return Ok(false);
      }
    }

    /**
     * The part of `prepareAndUpload` under the permit for the current
     * generation: seal the writer, open the next one unless closed, upload.
     */
    method SealAndUpload(generation: Option<int>, env: SyncEnv) returns (r: Result<bool, TranslogError>)
      requires generation.None? || generation.value == current.generation
      modifies this
      ensures pauseSync == old(pauseSync)
      ensures if SealThrows(env.sealFailure, old(closed)) then
                && r == Err(Tragedy(env.sealFailure)) && closed && tragic
                && syncPermits == old(syncPermits) && leakedSyncPermits == old(leakedSyncPermits) + 1
                && readers == (if env.sealFailure == CloseIntoReaderFails then old(readers)
                               else old(readers) + [env.closeIntoReader(old(current))])
                && current == old(current)
              else
                && readers == old(readers) + [env.closeIntoReader(old(current))]
                && current == (if old(closed) then old(current) else NextWriter(old(current), env.primaryTerm))
                && syncPermits == old(syncPermits) + SYNC_PERMIT && leakedSyncPermits == old(leakedSyncPermits)
                && closed == old(closed)
                && r == UploadOutcome(env.primaryTerm, old(current.generation), env)
                && (transfers == old(transfers) || transfers == old(transfers) + [SnapshotMetadata(env.primaryTerm, old(current.generation))])
                && (r == Ok(true) ==> maxRemoteTranslogGenerationUploaded == old(current.generation))
                && (r == Ok(true) && !old(closed) ==> !SyncNeeded())
    {
      if SealThrows(env.sealFailure, closed) {
        r := SealFails(env);
      } else {
        r := SealThenUpload(generation, env);
      }
    }

    /** Sealing that throws: at closing the writer, at copying its checkpoint or at creating the next writer of an open translog. */
    method SealFails(env: SyncEnv) returns (r: Result<bool, TranslogError>)
      requires SealThrows(env.sealFailure, closed)
      modifies this`readers, this`closed, this`tragic, this`leakedSyncPermits
      ensures r == Err(Tragedy(env.sealFailure)) && closed && tragic
      ensures leakedSyncPermits == old(leakedSyncPermits) + 1
      ensures readers == (if env.sealFailure == CloseIntoReaderFails then old(readers)
                          else old(readers) + [env.closeIntoReader(current)])
    {
      if env.sealFailure == CloseIntoReaderFails {
        r := OnTragicEvent(env.sealFailure);
        return;
      }
      readers := readers + [env.closeIntoReader(current)];
      if env.sealFailure == CopyCheckpointFails {
        r := OnTragicEvent(env.sealFailure);
        return;
      }
      r := OnTragicEvent(env.sealFailure);
    }

    /** Sealing that succeeds: the writer becomes a reader, the next writer opens unless closed, then the upload. */
    method SealThenUpload(generation: Option<int>, env: SyncEnv) returns (r: Result<bool, TranslogError>)
      requires generation.None? || generation.value == current.generation
      requires !SealThrows(env.sealFailure, closed)
      modifies this`readers, this`current, this`syncPermits, this`transfers,
               this`maxRemoteTranslogGenerationUploaded, this`minRemoteGenReferenced
      ensures readers == old(readers) + [env.closeIntoReader(old(current))]
      ensures current == (if old(closed) then old(current) else NextWriter(old(current), env.primaryTerm))
      ensures syncPermits == old(syncPermits) + SYNC_PERMIT
      ensures r == UploadOutcome(env.primaryTerm, old(current.generation), env)
      ensures transfers == old(transfers) || transfers == old(transfers) + [SnapshotMetadata(env.primaryTerm, old(current.generation))]
      ensures r == Ok(true) ==> maxRemoteTranslogGenerationUploaded == old(current.generation)
      ensures r == Ok(true) && !old(closed) ==> !SyncNeeded()
    {
      var sealedGeneration := current.generation;
      readers := readers + [env.closeIntoReader(current)];
      if !closed {
        current := NextWriter(current, env.primaryTerm);
      }
      var uploadGeneration :=
        if generation.Some? then generation.value
        else if !closed then current.generation - 1
        else current.generation;
      assert uploadGeneration == sealedGeneration;
      r := Upload(env.primaryTerm, uploadGeneration, env);
    }

    /** A tragic event while sealing: the translog closes and the exception is rethrown; the permit is not released. */
    method OnTragicEvent(failure: SealFailure) returns (r: Result<bool, TranslogError>)
      modifies this`closed, this`tragic, this`leakedSyncPermits
      ensures closed && tragic && leakedSyncPermits == old(leakedSyncPermits) + 1
      ensures r == Err(Tragedy(failure))
    {
      tragic := true;
      closed := true;
      leakedSyncPermits := leakedSyncPermits + 1;
      r := Err(Tragedy(failure));
    }

    // ---------------------------------------------------------------- sync entry points

    /**
     * `ensureSynced`: a location in the current generation (on an open translog)
     * seals and uploads that generation; a location in an older generation is
     * already uploaded, false.
     */
    method EnsureSynced(locationGeneration: int, env: SyncEnv) returns (r: Result<bool, TranslogError>)
      requires locationGeneration <= current.generation
      requires SyncPermitsConserved()
      modifies this
      ensures SyncPermitsConserved()
      ensures locationGeneration < old(current.generation) ==> r == Ok(false) && unchanged(this)
      ensures locationGeneration == old(current.generation) && old(closed) ==> r == Err(AlreadyClosed) && unchanged(this)
      ensures locationGeneration == old(current.generation) && !old(closed) && env.startedPrimary
              && old(syncPermits) >= SYNC_PERMIT && !SealThrows(env.sealFailure, old(closed))
              ==> readers == old(readers) + [env.closeIntoReader(old(current))]
                  && current == NextWriter(old(current), env.primaryTerm)
                  && syncPermits == old(syncPermits)
                  && r == UploadOutcome(env.primaryTerm, old(current.generation), env)
      ensures locationGeneration == old(current.generation) && !old(closed) && (!env.startedPrimary || old(syncPermits) < SYNC_PERMIT)
              ==> r == Ok(false) && unchanged(this)
      ensures locationGeneration == old(current.generation) && !old(closed) && env.startedPrimary
              && old(syncPermits) >= SYNC_PERMIT && SealThrows(env.sealFailure, old(closed))
              ==> r == Err(Tragedy(env.sealFailure)) && closed && tragic
    {
      if locationGeneration == current.generation {
        if closed {
          return Err(AlreadyClosed);
        }
        r := PrepareAndUpload(Some(locationGeneration), env);
      } else {
        r := Ok(false);
      }
    }

    /**
     * `rollGeneration`: first the superclass hook `syncBeforeRollGeneration`,
     * which runs `sync`; then nothing more when the writer is empty and the
     * primary term has not changed; otherwise the writer is sealed and uploaded.
     * After a sync that sealed the open writer, the fresh writer is empty
     * under the current term, so the roll itself stops there.
     */
    method RollGeneration(syncedToDisk: bool, env: SyncEnv) returns (r: Outcome<TranslogError>)
      requires SyncPermitsConserved()
      modifies this
      ensures SyncPermitsConserved()
      ensures !syncedToDisk && !old(SyncNeeded()) && old(current.totalOperations) == 0 && env.primaryTerm == old(current.primaryTerm)
              ==> r == Pass && unchanged(this)
      ensures !env.startedPrimary || old(syncPermits) < SYNC_PERMIT ==> r == Pass && unchanged(this)
      ensures env.startedPrimary && old(syncPermits) >= SYNC_PERMIT && SealThrows(env.sealFailure, old(closed))
              && (syncedToDisk || old(SyncNeeded()) || old(current.totalOperations) != 0 || env.primaryTerm != old(current.primaryTerm))
              ==> r == Fail(Tragedy(env.sealFailure)) && closed && tragic
      ensures env.startedPrimary && old(syncPermits) >= SYNC_PERMIT && !SealThrows(env.sealFailure, old(closed)) && !old(closed)
              && (syncedToDisk || old(SyncNeeded()) || old(current.totalOperations) != 0 || env.primaryTerm != old(current.primaryTerm))
              ==> && current == NextWriter(old(current), env.primaryTerm)
                  && readers == old(readers) + [env.closeIntoReader(old(current))]
                  && (r == Pass <==> UploadOutcome(env.primaryTerm, old(current.generation), env).Ok?)
      ensures env.startedPrimary && old(syncPermits) >= SYNC_PERMIT && !SealThrows(env.sealFailure, old(closed)) && old(closed)
              && (syncedToDisk || old(SyncNeeded()) || old(current.totalOperations) != 0 || env.primaryTerm != old(current.primaryTerm))
              ==> && current == old(current)
                  && |readers| > |old(readers)|
                  && readers[..|old(readers)| + 1] == old(readers) + [env.closeIntoReader(old(current))]
    {
      var synced := Sync(syncedToDisk, env);
      if synced.Fail? {
        return synced;
      }
      if current.totalOperations == 0 && env.primaryTerm == current.primaryTerm {
        return Pass;
      }
      var uploaded := PrepareAndUpload(None, env);
      r := if uploaded.Err? then Fail(uploaded.error) else Pass;
    }

    /**
     * `syncNeeded`: the writer has unsynced operations, or an empty writer sits
     * more than one generation past the last generation uploaded.
     */
    predicate SyncNeeded(): (r: bool)
      reads this
      ensures current.syncNeeded ==> r
      ensures r && current.totalOperations != 0 ==> current.syncNeeded
      ensures r && !current.syncNeeded ==> maxRemoteTranslogGenerationUploaded + 1 < current.generation
    {
      current.syncNeeded || (maxRemoteTranslogGenerationUploaded + 1 < current.generation && current.totalOperations == 0)
    }

    /** `sync`: uploads when the local fsync did work or a remote sync is needed; otherwise nothing. */
    method Sync(syncedToDisk: bool, env: SyncEnv) returns (r: Outcome<TranslogError>)
      requires SyncPermitsConserved()
      modifies this
      ensures SyncPermitsConserved()
      ensures !syncedToDisk && !old(SyncNeeded()) ==> r == Pass && unchanged(this)
      ensures (syncedToDisk || old(SyncNeeded())) && (!env.startedPrimary || old(syncPermits) < SYNC_PERMIT)
              ==> r == Pass && unchanged(this)
      ensures (syncedToDisk || old(SyncNeeded())) && env.startedPrimary
              && old(syncPermits) >= SYNC_PERMIT && SealThrows(env.sealFailure, old(closed))
              ==> r == Fail(Tragedy(env.sealFailure)) && closed && tragic
      ensures (syncedToDisk || old(SyncNeeded())) && env.startedPrimary
              && old(syncPermits) >= SYNC_PERMIT && !SealThrows(env.sealFailure, old(closed))
              ==> && readers == old(readers) + [env.closeIntoReader(old(current))]
                  && current == (if old(closed) then old(current) else NextWriter(old(current), env.primaryTerm))
                  && syncPermits == old(syncPermits) && closed == old(closed)
                  && (r == Pass <==> UploadOutcome(env.primaryTerm, old(current.generation), env).Ok?)
    {
      if syncedToDisk || SyncNeeded() {
        var uploaded := PrepareAndUpload(None, env);
        r := if uploaded.Err? then Fail(uploaded.error) else Pass;
      } else {
        r := Pass;
      }
    }

    /** `shouldFlush`: never with the reader limit -1, else once the readers reach the limit. */
    predicate ShouldFlush(): (r: bool)
      reads this
      ensures maxRemoteTranslogReaders == -1 ==> !r
      ensures r <==> maxRemoteTranslogReaders != -1 && maxRemoteTranslogReaders <= |readers|
    {
      maxRemoteTranslogReaders != -1 && |readers| >= maxRemoteTranslogReaders
    }

    /** With the reader limit -1 the translog never asks for a flush, however many readers it holds. */
    lemma NoReaderLimitNeverFlushes()
      requires maxRemoteTranslogReaders == -1
      ensures !ShouldFlush()
    {
    }

    /** Once the sealed generation is uploaded, the writer opened after it needs no sync. */
    lemma NoSyncNeededAfterUpload(sealed: TranslogWriter, primaryTerm: int)
      requires current == NextWriter(sealed, primaryTerm)
      requires maxRemoteTranslogGenerationUploaded == sealed.generation
      ensures !SyncNeeded()
    {
    }

    /**
     * An empty writer more than one generation past the last upload (a sealed
     * generation whose upload failed) still needs a sync, as does a writer with
     * unsynced operations.
     */
    lemma SyncNeededWhenUploadLags()
      ensures current.syncNeeded ==> SyncNeeded()
      ensures current.totalOperations == 0 && maxRemoteTranslogGenerationUploaded + 1 < current.generation ==> SyncNeeded()
    {
    }

    /** `setMinSeqNoToKeep`: the sequence number to keep never goes backwards. */
    method SetMinSeqNoToKeep(seqNo: int) returns (r: Outcome<TranslogError>)
      modifies this`minSeqNoToKeep
      ensures minSeqNoToKeep >= old(minSeqNoToKeep)
      ensures r.Fail? <==> seqNo < old(minSeqNoToKeep)
      ensures r.Fail? ==> r.error == MinSeqNoBackwards(old(minSeqNoToKeep), seqNo) && minSeqNoToKeep == old(minSeqNoToKeep)
      ensures r.Pass? ==> minSeqNoToKeep == seqNo
    {
      if seqNo < minSeqNoToKeep {
        return Fail(MinSeqNoBackwards(minSeqNoToKeep, seqNo));
      }
      minSeqNoToKeep := seqNo;
      r := Pass;
    }

    /**
     * `drainSync`: waits for the sync permit (a timeout when it is held), then
     * pauses syncs and returns the handle that resumes them.
     */
    method DrainSync() returns (r: Result<DrainHandle, TranslogError>)
      requires SyncPermitsConserved()
      modifies this`syncPermits, this`pauseSync
      ensures SyncPermitsConserved()
      ensures old(syncPermits) < SYNC_PERMIT ==> r == Err(DrainTimeout) && syncPermits == old(syncPermits) && pauseSync == old(pauseSync)
      ensures old(syncPermits) >= SYNC_PERMIT ==>
                && r.Ok? && fresh(r.value) && r.value.translog == this && !r.value.released
                && !old(pauseSync) && pauseSync && syncPermits == 0
    {
      if syncPermits < SYNC_PERMIT {
        return Err(DrainTimeout);
      }
      syncPermits := syncPermits - SYNC_PERMIT;
      assert !pauseSync && syncPermits == 0;
      pauseSync := true;
      var handle := new DrainHandle(this);
      r := Ok(handle);
    }

    // ---------------------------------------------------------------- retention

    /**
     * The metadata files read since the read count `n0`: each read once, each
     * an old-format file that was not in the cache `c0`.
     */
    ghost predicate ReadsOnceSince(c0: map<string, GenerationRange>, n0: nat, names: string -> Option<GenerationRange>)
      reads this
    {
      && n0 <= |metadataReads|
      && NoDuplicates(metadataReads[n0..])
      && forall i :: n0 <= i < |metadataReads| ==> metadataReads[i] !in c0 && names(metadataReads[i]).None?
    }

    /** Every metadata file read since the read count `n0` is in the cache. */
    ghost predicate ReadsCachedSince(n0: nat)
      reads this
    {
      forall i :: n0 <= i < |metadataReads| ==> metadataReads[i] in oldFormatMetadataFileGenerationMap
    }

    /**
     * Prunes the upload tracker: every uploaded translog file below the minimum
     * live generation goes, with the checkpoint file of its generation; a
     * translog name that does not parse throws.
     */
    method PruneTracker(minLiveGeneration: int) returns (r: Outcome<TranslogError>)
      modifies this`uploadedFiles
      ensures r.Fail? <==> exists f :: f in old(uploadedFiles) && Unparsable(f)
      ensures r.Fail? ==> r.error.UnparsableTranslogFile? && r.error.file in old(uploadedFiles) && Unparsable(r.error.file)
                          && uploadedFiles <= old(uploadedFiles)
      ensures r.Pass? ==> uploadedFiles == old(uploadedFiles) - StaleTrackerFiles(old(uploadedFiles), minLiveGeneration)
    {
      var all := uploadedFiles;
      var remaining := all;
      var stale: set<string> := {};
      while remaining != {}
        invariant PrunedSoFar(all, remaining, stale, minLiveGeneration)
        decreases remaining
      {
        var file := Pick(remaining);
        var step := PruneFile(all, remaining, stale, file, minLiveGeneration);
        if step.Err? {
          return Fail(step.error);
        }
        stale := step.value;
        remaining := remaining - {file};
      }
      assert all - remaining == all;
      r := Pass;
    }

    /**
     * The pruning loop with `remaining` still to visit: the stale names of the
     * files visited, all parseable, are gone from the tracker.
     */
    ghost predicate PrunedSoFar(all: set<string>, remaining: set<string>, stale: set<string>, minLiveGeneration: int)
      reads this`uploadedFiles
    {
      && remaining <= all
      && stale == StaleTrackerFiles(all - remaining, minLiveGeneration)
      && uploadedFiles == all - stale
      && forall f :: f in all - remaining ==> !Unparsable(f)
    }

    /** One turn of the pruning loop: the stale names of `file` added, then the tracker pruned. */
    method PruneFile(all: set<string>, remaining: set<string>, stale: set<string>, file: string, minLiveGeneration: int)
      returns (r: Result<set<string>, TranslogError>)
      requires file in remaining && PrunedSoFar(all, remaining, stale, minLiveGeneration)
      modifies this`uploadedFiles
      ensures r.Err? ==> r.error == UnparsableTranslogFile(file) && Unparsable(file) && uploadedFiles == old(uploadedFiles)
      ensures r.Ok? ==> PrunedSoFar(all, remaining - {file}, r.value, minLiveGeneration)
    {
      var staleFiles := stale;
      if EndsWith(file, TRANSLOG_FILE_SUFFIX) {
        var generation := ParseIdFromFileName(file);
        if generation.None? {
          return Err(UnparsableTranslogFile(file));
        }
        if generation.value < minLiveGeneration {
          staleFiles := staleFiles + {file, CommitCheckpointFileName(generation.value)};
        }
      }
      assert !Unparsable(file);
      assert staleFiles == stale + StaleNamesOf(file, minLiveGeneration);
      StaleTrackerFilesVisit(all, remaining, file, minLiveGeneration);
      uploadedFiles := uploadedFiles - staleFiles;
      r := Ok(staleFiles);
    }

    /**
     * `getMinMaxTranslogGenerationFromMetadataFile`: the range in the name, else
     * the cached range, else the range read from the file, which is cached.
     */
    method GetMinMaxTranslogGenerationFromMetadataFile(
      file: string,
      names: string -> Option<GenerationRange>,
      read: string -> Option<TransferSnapshots.TranslogTransferMetadata>) returns (r: Result<GenerationRange, string>)
      modifies this`oldFormatMetadataFileGenerationMap, this`metadataReads
      ensures r == RangeOf(file, old(oldFormatMetadataFileGenerationMap), names, read)
      ensures Extends(old(oldFormatMetadataFileGenerationMap), oldFormatMetadataFileGenerationMap, names, read)
      ensures names(file).Some? || file in old(oldFormatMetadataFileGenerationMap)
              ==> oldFormatMetadataFileGenerationMap == old(oldFormatMetadataFileGenerationMap) && metadataReads == old(metadataReads)
      ensures names(file).None? && file !in old(oldFormatMetadataFileGenerationMap)
              ==> metadataReads == old(metadataReads) + [file]
                  && oldFormatMetadataFileGenerationMap
                     == if r.Ok? then old(oldFormatMetadataFileGenerationMap)[file := r.value] else old(oldFormatMetadataFileGenerationMap)
    {
      if names(file).Some? {
        return Ok(names(file).value);
      }
      if file in oldFormatMetadataFileGenerationMap {
        return Ok(oldFormatMetadataFileGenerationMap[file]);
      }
      metadataReads := metadataReads + [file];
      var metadata := read(file);
      if metadata.None? {
        return Err(file);
      }
      var range := RangeOfMetadata(metadata.value);
      oldFormatMetadataFileGenerationMap := oldFormatMetadataFileGenerationMap[file := range];
      r := Ok(range);
    }

    /** One range lookup inside a loop that started from the cache `c0` and the read count `n0`. */
    method LookUpRange(
      file: string,
      ghost c0: map<string, GenerationRange>,
      ghost n0: nat,
      names: string -> Option<GenerationRange>,
      read: string -> Option<TransferSnapshots.TranslogTransferMetadata>) returns (r: Result<GenerationRange, string>)
      requires Extends(c0, oldFormatMetadataFileGenerationMap, names, read)
      requires ReadsOnceSince(c0, n0, names) && ReadsCachedSince(n0)
      modifies this`oldFormatMetadataFileGenerationMap, this`metadataReads
      ensures r == RangeOf(file, c0, names, read)
      ensures Extends(c0, oldFormatMetadataFileGenerationMap, names, read)
      ensures ReadsOnceSince(c0, n0, names)
      ensures r.Ok? ==> ReadsCachedSince(n0)
      ensures r.Ok? ==> file in oldFormatMetadataFileGenerationMap || names(file).Some?
    {
      ghost var cb := oldFormatMetadataFileGenerationMap;
      ghost var nb := |metadataReads|;
      r := GetMinMaxTranslogGenerationFromMetadataFile(file, names, read);
      RangeOfStable(file, c0, cb, names, read);
      ExtendsTransitive(c0, cb, oldFormatMetadataFileGenerationMap, names, read);
      if names(file).None? && file !in cb {
        assert file !in c0;
        assert forall i :: n0 <= i < nb ==> metadataReads[i] != file;
        assert metadataReads[n0..] == metadataReads[n0..nb] + [file];
      }
    }

    /**
     * `getGenerationForMetadataFiles`: the range of every file, or the first
     * file whose range cannot be read; `c0` is the cache the enclosing sweep
     * started from and `n0` its read count.
     */
    method GetGenerationForMetadataFiles(
      files: seq<string>,
      ghost c0: map<string, GenerationRange>,
      ghost n0: nat,
      names: string -> Option<GenerationRange>,
      read: string -> Option<TransferSnapshots.TranslogTransferMetadata>) returns (r: Result<map<string, GenerationRange>, string>)
      requires Extends(c0, oldFormatMetadataFileGenerationMap, names, read)
      requires ReadsOnceSince(c0, n0, names) && ReadsCachedSince(n0)
      modifies this`oldFormatMetadataFileGenerationMap, this`metadataReads
      ensures Extends(c0, oldFormatMetadataFileGenerationMap, names, read)
      ensures ReadsOnceSince(c0, n0, names)
      ensures r.Err? <==> RangesOf(files, c0, names, read).Err?
      ensures r.Err? ==> Err(r.error) == RangesOf(files, c0, names, read)
      ensures r.Ok? ==> RangeMapOf(r.value, files, c0, names, read)
    {
      var m: map<string, GenerationRange> := map[];
      var i := 0;
      while i < |files|
        invariant RangeMapSoFar(files, i, m, c0, n0, names, read)
      {
        var next := PutRange(m, files, i, c0, n0, names, read);
        if next.Err? {
          return Err(next.error);
        }
        m := next.value;
        i := i + 1;
      }
      assert files[..i] == files;
      r := Ok(m);
    }

    /**
     * The loop of `getGenerationForMetadataFiles` after `i` files: the cache
     * and the reads as the lookups leave them, and the map of those files to
     * their ranges.
     */
    ghost predicate RangeMapSoFar(
      files: seq<string>,
      i: nat,
      m: map<string, GenerationRange>,
      c0: map<string, GenerationRange>,
      n0: nat,
      names: string -> Option<GenerationRange>,
      read: string -> Option<TransferSnapshots.TranslogTransferMetadata>)
      reads this
    {
      && i <= |files|
      && Extends(c0, oldFormatMetadataFileGenerationMap, names, read)
      && ReadsOnceSince(c0, n0, names) && ReadsCachedSince(n0)
      && RangesOf(files[..i], c0, names, read).Ok?
      && RangeMapOf(m, files[..i], c0, names, read)
    }

    /** One step of `getGenerationForMetadataFiles`: the range of `files[i]` put in the map. */
    method PutRange(
      m: map<string, GenerationRange>,
      files: seq<string>,
      i: nat,
      ghost c0: map<string, GenerationRange>,
      ghost n0: nat,
      names: string -> Option<GenerationRange>,
      read: string -> Option<TransferSnapshots.TranslogTransferMetadata>) returns (r: Result<map<string, GenerationRange>, string>)
      requires i < |files|
      requires RangeMapSoFar(files, i, m, c0, n0, names, read)
      modifies this`oldFormatMetadataFileGenerationMap, this`metadataReads
      ensures Extends(c0, oldFormatMetadataFileGenerationMap, names, read)
      ensures ReadsOnceSince(c0, n0, names)
      ensures r.Err? ==> Err(r.error) == RangesOf(files, c0, names, read)
      ensures r.Ok? ==> RangeMapSoFar(files, i + 1, r.value, c0, n0, names, read)
    {
      var range := LookUpRange(files[i], c0, n0, names, read);
      RangesOfStep(files, i, c0, names, read);
      if range.Err? {
        return Err(range.error);
      }
      RangeMapSnoc(m, files, i, range.value, c0, names, read);
      r := Ok(m[files[i] := range.value]);
    }

    /**
     * `getGenerationsToBeDeleted`: the generations of the files to delete, at
     * most `maxGenerationToBeDeleted` and not pinned by the ranges of the files
     * kept; a metadata file that cannot be read is the error.
     */
    method GetGenerationsToBeDeleted(
      metadataFilesNotToBeDeleted: seq<string>,
      metadataFilesToBeDeleted: seq<string>,
      indexDeleted: bool,
      names: string -> Option<GenerationRange>,
      read: string -> Option<TransferSnapshots.TranslogTransferMetadata>) returns (r: Result<set<int>, string>)
      modifies this`oldFormatMetadataFileGenerationMap, this`metadataReads
      ensures r == GenerationsToBeDeletedSpec(metadataFilesNotToBeDeleted, metadataFilesToBeDeleted,
                                              MaxGenerationToBeDeleted(indexDeleted, minRemoteGenReferenced, extraKeep),
                                              old(oldFormatMetadataFileGenerationMap), names, read)
      ensures Extends(old(oldFormatMetadataFileGenerationMap), oldFormatMetadataFileGenerationMap, names, read)
      ensures ReadsOnceSince(old(oldFormatMetadataFileGenerationMap), old(|metadataReads|), names)
    {
      var maxGenerationToBeDeleted := LONG_MAX;
      if !indexDeleted {
        maxGenerationToBeDeleted := minRemoteGenReferenced - 1 - extraKeep;
      }
      ghost var c0 := oldFormatMetadataFileGenerationMap;
      ghost var n0 := |metadataReads|;
      assert metadataReads[n0..] == [];
      var fromDeleted := GenerationsOfMetadataFiles(metadataFilesToBeDeleted, c0, n0, names, read);
      if fromDeleted.Err? {
        return Err(fromDeleted.error);
      }
      var keptMap := GetGenerationForMetadataFiles(metadataFilesNotToBeDeleted, c0, n0, names, read);
      if keptMap.Err? {
        return Err(keptMap.error);
      }
      ValuesOfRangeMap(keptMap.value, metadataFilesNotToBeDeleted, c0, names, read);
      var pinned := GetOrderedPinnedMetadataGenerations(keptMap.value);
      var result := UnpinnedGenerations(fromDeleted.value, maxGenerationToBeDeleted, pinned);
      r := Ok(result);
    }

    /** The first loop of `getGenerationsToBeDeleted`: all generations of the ranges of `files`. */
    method GenerationsOfMetadataFiles(
      files: seq<string>,
      ghost c0: map<string, GenerationRange>,
      ghost n0: nat,
      names: string -> Option<GenerationRange>,
      read: string -> Option<TransferSnapshots.TranslogTransferMetadata>) returns (r: Result<set<int>, string>)
      requires Extends(c0, oldFormatMetadataFileGenerationMap, names, read)
      requires ReadsOnceSince(c0, n0, names) && ReadsCachedSince(n0)
      modifies this`oldFormatMetadataFileGenerationMap, this`metadataReads
      ensures Extends(c0, oldFormatMetadataFileGenerationMap, names, read)
      ensures ReadsOnceSince(c0, n0, names)
      ensures r.Err? ==> Err(r.error) == RangesOf(files, c0, names, read)
      ensures r.Ok? ==> ReadsCachedSince(n0) && RangesOf(files, c0, names, read).Ok?
                        && r.value == UnionOfRanges(RangesOf(files, c0, names, read).value)
    {
      var generations: set<int> := {};
      ghost var ranges: seq<GenerationRange> := [];
      var i := 0;
      while i < |files|
        invariant GenerationsSoFar(files, i, ranges, generations, c0, n0, names, read)
      {
        var step;
        step, ranges := AddRangeGenerations(generations, ranges, files, i, c0, n0, names, read);
        if step.Err? {
          return step;
        }
        generations := step.value;
        i := i + 1;
      }
      assert files[..i] == files;
      r := Ok(generations);
    }

    /**
     * The first loop of `getGenerationsToBeDeleted` after `i` files: the cache
     * and the reads as the lookups leave them, and the generations of the
     * ranges of those files.
     */
    ghost predicate GenerationsSoFar(
      files: seq<string>,
      i: nat,
      ranges: seq<GenerationRange>,
      generations: set<int>,
      c0: map<string, GenerationRange>,
      n0: nat,
      names: string -> Option<GenerationRange>,
      read: string -> Option<TransferSnapshots.TranslogTransferMetadata>)
      reads this
    {
      && i <= |files|
      && Extends(c0, oldFormatMetadataFileGenerationMap, names, read)
      && ReadsOnceSince(c0, n0, names) && ReadsCachedSince(n0)
      && RangesOf(files[..i], c0, names, read) == Ok(ranges)
      && generations == UnionOfRanges(ranges)
    }

    /** One step of the first loop of `getGenerationsToBeDeleted`: the generations of `files[i]` added. */
    method AddRangeGenerations(
      generations: set<int>,
      ghost ranges: seq<GenerationRange>,
      files: seq<string>,
      i: nat,
      ghost c0: map<string, GenerationRange>,
      ghost n0: nat,
      names: string -> Option<GenerationRange>,
      read: string -> Option<TransferSnapshots.TranslogTransferMetadata>)
      returns (r: Result<set<int>, string>, ghost ranges': seq<GenerationRange>)
      requires i < |files|
      requires GenerationsSoFar(files, i, ranges, generations, c0, n0, names, read)
      modifies this`oldFormatMetadataFileGenerationMap, this`metadataReads
      ensures Extends(c0, oldFormatMetadataFileGenerationMap, names, read)
      ensures ReadsOnceSince(c0, n0, names)
      ensures r.Err? ==> Err(r.error) == RangesOf(files, c0, names, read)
      ensures r.Ok? ==> GenerationsSoFar(files, i + 1, ranges', r.value, c0, n0, names, read)
    {
      var range := LookUpRange(files[i], c0, n0, names, read);
      RangesOfStep(files, i, c0, names, read);
      if range.Err? {
        return Err(range.error), ranges;
      }
      UnionOfRangesSnoc(ranges, range.value);
      ranges' := ranges + [range.value];
      r := Ok(generations + RangeGenerations(range.value));
    }

    /**
     * `deleteStaleRemotePrimaryTerms`: once per translog (the first call sets
     * the flag), deletes the primary terms below the least primary term named
     * by the metadata files; a name whose term cannot be read throws.
     */
    method DeleteStaleRemotePrimaryTerms(metadataFiles: seq<string>, primaryTermOf: string -> Option<int>)
      returns (r: Outcome<TranslogError>)
      modifies this`olderPrimaryCleaned, this`remoteOps
      ensures olderPrimaryCleaned
      ensures remoteOps == old(remoteOps) + PrimaryTermCleanup(old(olderPrimaryCleaned), metadataFiles, primaryTermOf)
      ensures r.Fail? <==> !old(olderPrimaryCleaned) && metadataFiles != [] && MinPrimaryTerm(metadataFiles, primaryTermOf).None?
    {
      if olderPrimaryCleaned {
        return Pass;
      }
      olderPrimaryCleaned := true;
      if metadataFiles == [] {
        return Pass;
      }
      var first := primaryTermOf(metadataFiles[0]);
      if first.None? {
        MinPrimaryTermUnreadable(metadataFiles, 0, primaryTermOf);
        return Fail(UnreadablePrimaryTerm(metadataFiles[0]));
      }
      var minPrimaryTerm := first.value;
      assert metadataFiles[..1] == [metadataFiles[0]];
      var i := 1;
      while i < |metadataFiles|
        invariant 1 <= i <= |metadataFiles|
        invariant MinPrimaryTerm(metadataFiles[..i], primaryTermOf) == Some(minPrimaryTerm)
        invariant olderPrimaryCleaned && remoteOps == old(remoteOps)
      {
        var term := primaryTermOf(metadataFiles[i]);
        if term.None? {
          MinPrimaryTermUnreadable(metadataFiles, i, primaryTermOf);
          return Fail(UnreadablePrimaryTerm(metadataFiles[i]));
        }
        MinPrimaryTermSnoc(metadataFiles, i, primaryTermOf);
        minPrimaryTerm := Min(minPrimaryTerm, term.value);
        i := i + 1;
      }
      assert metadataFiles[..i] == metadataFiles;
      remoteOps := remoteOps + [DeletePrimaryTerms(minPrimaryTerm - 1)];
      r := Pass;
    }

    /** The release callback of one async delete: one permit back. */
    method DeletionCallback()
      requires pendingDeletionCallbacks > 0
      modifies this`deletionPermits, this`pendingDeletionCallbacks
      ensures deletionPermits == old(deletionPermits) + 1
      ensures pendingDeletionCallbacks == old(pendingDeletionCallbacks) - 1
      ensures old(DeletionPermitsBalanced()) ==> DeletionPermitsBalanced()
    {
      deletionPermits := deletionPermits + 1;
      pendingDeletionCallbacks := pendingDeletionCallbacks - 1;
    }

    /**
     * `trimUnreferencedReaders(indexDeleted, trimLocal)`: trims the local
     * readers and prunes the upload tracker (`TrimLocal`), then runs the
     * remote sweep (`SweepRemote`).
     */
    method TrimUnreferencedReaders(indexDeleted: bool, trimLocal: bool, env: TrimEnv) returns (r: Result<TrimExit, TranslogError>)
      modifies this`readers, this`uploadedFiles, this`deletionPermits, this`pendingDeletionCallbacks, this`remoteOps,
               this`oldFormatMetadataFileGenerationMap, this`metadataReads, this`olderPrimaryCleaned
      ensures readers == if trimLocal then KeepReadersFrom(old(readers), env.minReferencedGen) else old(readers)
      ensures r.Err? <==> readers != [] && exists f :: f in old(uploadedFiles) && Unparsable(f)
      ensures r.Ok? ==> uploadedFiles == if readers == [] then old(uploadedFiles)
                                         else old(uploadedFiles) - StaleTrackerFiles(old(uploadedFiles), MinReaderGeneration(readers))
      ensures r.Err? ==> deletionPermits == old(deletionPermits) && pendingDeletionCallbacks == old(pendingDeletionCallbacks)
                         && remoteOps == old(remoteOps) && oldFormatMetadataFileGenerationMap == old(oldFormatMetadataFileGenerationMap)
      ensures r.Ok? && SweepGate(indexDeleted, env, pauseSync, old(deletionPermits)).Some?
              ==> r.value == SweepGate(indexDeleted, env, pauseSync, old(deletionPermits)).value
                  && deletionPermits == old(deletionPermits) && remoteOps == old(remoteOps)
      ensures r.Ok? && old(DeletionPermitsBalanced()) && !r.value.CleanupFailed? ==> DeletionPermitsBalanced()
      ensures r.Ok? && r.value.StartedDeletes() ==>
                && SweepGate(indexDeleted, env, pauseSync, old(deletionPermits)).None?
                && (indexDeleted || !env.pinnedStateStaleAfterListing)
                && DeletesAsPlanned(r.value, indexDeleted, env, MaxGenerationToBeDeleted(indexDeleted, minRemoteGenReferenced, extraKeep),
                                    old(oldFormatMetadataFileGenerationMap), old(remoteOps), old(olderPrimaryCleaned), remoteOps, oldFormatMetadataFileGenerationMap)
                && pendingDeletionCallbacks == old(pendingDeletionCallbacks) + 2
      ensures !(r.Ok? && r.value.StartedDeletes()) ==> remoteOps == old(remoteOps) && pendingDeletionCallbacks == old(pendingDeletionCallbacks)
    {
      var local := TrimLocal(trimLocal, env.minReferencedGen);
      if local.Fail? {
        return Err(local.error);
      }
      var exit := SweepRemote(indexDeleted, env);
      r := Ok(exit);
    }

    /**
     * The local part of the sweep: `super.trimUnreferencedReaders()` keeps the
     * readers the deletion policy still references; then the upload tracker is
     * pruned below the least live reader generation, if there is a reader.
     */
    method TrimLocal(trimLocal: bool, minReferencedGen: int) returns (r: Outcome<TranslogError>)
      modifies this`readers, this`uploadedFiles
      ensures readers == if trimLocal then KeepReadersFrom(old(readers), minReferencedGen) else old(readers)
      ensures r.Fail? <==> readers != [] && exists f :: f in old(uploadedFiles) && Unparsable(f)
      ensures r.Pass? ==> uploadedFiles == if readers == [] then old(uploadedFiles)
                                           else old(uploadedFiles) - StaleTrackerFiles(old(uploadedFiles), MinReaderGeneration(readers))
      ensures !old(ShouldFlush()) ==> !ShouldFlush()
    {
      if trimLocal {
        readers := KeepReadersFrom(readers, minReferencedGen);
      }
      if readers != [] {
        r := PruneTracker(MinReaderGeneration(readers));
      } else {
        r := Pass;
      }
    }

    /**
     * The remote part of the sweep: stopped by `SweepGate`, or both deletion
     * permits taken and the metadata files listed (`OnMetadataFilesListed`).
     */
    method SweepRemote(indexDeleted: bool, env: TrimEnv) returns (exit: TrimExit)
      modifies this`deletionPermits, this`pendingDeletionCallbacks, this`remoteOps,
               this`oldFormatMetadataFileGenerationMap, this`metadataReads, this`olderPrimaryCleaned
      ensures var gate := SweepGate(indexDeleted, env, pauseSync, old(deletionPermits));
              gate.Some? ==> exit == gate.value && deletionPermits == old(deletionPermits)
                             && pendingDeletionCallbacks == old(pendingDeletionCallbacks) && remoteOps == old(remoteOps)
                             && oldFormatMetadataFileGenerationMap == old(oldFormatMetadataFileGenerationMap)
      ensures old(DeletionPermitsBalanced()) && !exit.CleanupFailed? ==> DeletionPermitsBalanced()
      ensures old(DeletionPermitsBalanced()) && exit.CleanupFailed?
              ==> deletionPermits + pendingDeletionCallbacks == 2 * REMOTE_DELETION_PERMITS
      ensures exit.StartedDeletes() ==>
                && SweepGate(indexDeleted, env, pauseSync, old(deletionPermits)).None?
                && (indexDeleted || !env.pinnedStateStaleAfterListing)
                && DeletesAsPlanned(exit, indexDeleted, env, MaxGenerationToBeDeleted(indexDeleted, minRemoteGenReferenced, extraKeep),
                                       old(oldFormatMetadataFileGenerationMap), old(remoteOps), old(olderPrimaryCleaned), remoteOps, oldFormatMetadataFileGenerationMap)
                && pendingDeletionCallbacks == old(pendingDeletionCallbacks) + 2
      ensures !exit.StartedDeletes() ==> remoteOps == old(remoteOps) && pendingDeletionCallbacks == old(pendingDeletionCallbacks)
    {
      var gate := SweepGate(indexDeleted, env, pauseSync, deletionPermits);
      if gate.Some? {
        return gate.value;
      }
      deletionPermits := deletionPermits - REMOTE_DELETION_PERMITS;
      exit := OnMetadataFilesListed(indexDeleted, env);
    }

    /**
     * The listener of the metadata listing, holding both deletion permits: each
     * exit before the deletes releases them; when generations qualify, both
     * deletes start with a release callback each, the cache keeps only the
     * files not deleted and the stale primary terms are cleaned up. An
     * exception anywhere in the listener releases both permits as well, also
     * after the deletes have started.
     */
    method OnMetadataFilesListed(indexDeleted: bool, env: TrimEnv) returns (exit: TrimExit)
      modifies this`deletionPermits, this`pendingDeletionCallbacks, this`remoteOps,
               this`oldFormatMetadataFileGenerationMap, this`metadataReads, this`olderPrimaryCleaned
      ensures !exit.NotPrimaryOrPaused? && !exit.PinnedStateStale? && !exit.DeletionInProgress?
      ensures exit == ListingFailed <==> env.listing.None?
      ensures env.listing.Some? ==> (exit == NoStaleMetadataFiles <==> |env.listing.value| <= 1)
      ensures env.listing.Some? && |env.listing.value| > 1 ==>
                (exit == PinnedStateStaleAfterListing <==> !indexDeleted && env.pinnedStateStaleAfterListing)
      ensures env.listing.Some? && |env.listing.value| > 1 && (indexDeleted || !env.pinnedStateStaleAfterListing) ==>
                (exit == NoMetadataFilesToDelete
                 <==> FilesToDelete(env.listing.value, env.filterByAge, env.lockedFiles, indexDeleted) == [])
      ensures exit.StartedDeletes() ==> indexDeleted || !env.pinnedStateStaleAfterListing
      ensures exit.StartedDeletes() ==>
                && DeletesAsPlanned(exit, indexDeleted, env, MaxGenerationToBeDeleted(indexDeleted, minRemoteGenReferenced, extraKeep),
                                       old(oldFormatMetadataFileGenerationMap), old(remoteOps), old(olderPrimaryCleaned), remoteOps, oldFormatMetadataFileGenerationMap)
      ensures deletionPermits == old(deletionPermits) + (if exit.DeletionStarted? then 0 else REMOTE_DELETION_PERMITS)
      ensures pendingDeletionCallbacks == old(pendingDeletionCallbacks) + (if exit.StartedDeletes() then 2 else 0)
      ensures !exit.StartedDeletes() ==> remoteOps == old(remoteOps)
      ensures exit.DeletionStarted? ==> olderPrimaryCleaned
    {
      if env.listing.None? {
        deletionPermits := deletionPermits + REMOTE_DELETION_PERMITS;
        return ListingFailed;
      }
      var metadataFiles := env.listing.value;
      if |metadataFiles| <= 1 {
        deletionPermits := deletionPermits + REMOTE_DELETION_PERMITS;
        return NoStaleMetadataFiles;
      }
      if !indexDeleted && env.pinnedStateStaleAfterListing {
        deletionPermits := deletionPermits + REMOTE_DELETION_PERMITS;
        return PinnedStateStaleAfterListing;
      }
      exit := SweepListedFiles(metadataFiles, indexDeleted, env);
    }

    /** The listener once the listing has more than one file and the pinned state is usable. */
    method SweepListedFiles(metadataFiles: seq<string>, indexDeleted: bool, env: TrimEnv) returns (exit: TrimExit)
      requires env.listing == Some(metadataFiles) && |metadataFiles| > 1
      requires indexDeleted || !env.pinnedStateStaleAfterListing
      modifies this`deletionPermits, this`pendingDeletionCallbacks, this`remoteOps,
               this`oldFormatMetadataFileGenerationMap, this`metadataReads, this`olderPrimaryCleaned
      ensures exit.StartedDeletes() || exit.NoMetadataFilesToDelete? || exit.MetadataUnreadable? || exit.NoGenerationsToDelete?
      ensures exit == NoMetadataFilesToDelete
              <==> FilesToDelete(metadataFiles, env.filterByAge, env.lockedFiles, indexDeleted) == []
      ensures exit.StartedDeletes() ==>
                && DeletesAsPlanned(exit, indexDeleted, env, MaxGenerationToBeDeleted(indexDeleted, minRemoteGenReferenced, extraKeep),
                                       old(oldFormatMetadataFileGenerationMap), old(remoteOps), old(olderPrimaryCleaned), remoteOps, oldFormatMetadataFileGenerationMap)
      ensures deletionPermits == old(deletionPermits) + (if exit.DeletionStarted? then 0 else REMOTE_DELETION_PERMITS)
      ensures pendingDeletionCallbacks == old(pendingDeletionCallbacks) + (if exit.StartedDeletes() then 2 else 0)
      ensures !exit.StartedDeletes() ==> remoteOps == old(remoteOps)
      ensures exit.DeletionStarted? ==> olderPrimaryCleaned
    {
      // getMetadataFilesToBeDeleted, less the newest file unless the index is deleted
      var metadataFilesToBeDeleted := FilesToDelete(metadataFiles, env.filterByAge, env.lockedFiles, indexDeleted);
      if metadataFilesToBeDeleted == [] {
        deletionPermits := deletionPermits + REMOTE_DELETION_PERMITS;
        return NoMetadataFilesToDelete;
      }
      exit := DeleteUnpinnedGenerations(metadataFiles, metadataFilesToBeDeleted, indexDeleted, env);
    }

    /**
     * The listener once it has files to delete: the generations of those files
     * that no kept file pins; none leaves everything in place, otherwise both
     * deletes start, the cache keeps only files not deleted and the stale
     * primary terms are cleaned up.
     */
    method DeleteUnpinnedGenerations(metadataFiles: seq<string>, metadataFilesToBeDeleted: seq<string>, indexDeleted: bool, env: TrimEnv)
      returns (exit: TrimExit)
      modifies this`deletionPermits, this`pendingDeletionCallbacks, this`remoteOps,
               this`oldFormatMetadataFileGenerationMap, this`metadataReads, this`olderPrimaryCleaned
      ensures exit.StartedDeletes() || exit.MetadataUnreadable? || exit.NoGenerationsToDelete?
      ensures var spec := GenerationsToBeDeletedSpec(
                RemoveAll(metadataFiles, Elements(metadataFilesToBeDeleted)), metadataFilesToBeDeleted,
                MaxGenerationToBeDeleted(indexDeleted, minRemoteGenReferenced, extraKeep),
                old(oldFormatMetadataFileGenerationMap), env.names, env.read);
              && (exit.MetadataUnreadable? <==> spec.Err?)
              && (exit.MetadataUnreadable? ==> spec == Err(exit.file))
              && (exit.NoGenerationsToDelete? <==> spec == Ok({}))
      ensures exit.StartedDeletes() ==>
                && exit.metadataFiles == metadataFilesToBeDeleted
                && DeletesIssued(exit, metadataFiles, env, MaxGenerationToBeDeleted(indexDeleted, minRemoteGenReferenced, extraKeep),
                                 old(oldFormatMetadataFileGenerationMap), old(remoteOps), old(olderPrimaryCleaned), remoteOps, oldFormatMetadataFileGenerationMap)
      ensures deletionPermits == old(deletionPermits) + (if exit.DeletionStarted? then 0 else REMOTE_DELETION_PERMITS)
      ensures pendingDeletionCallbacks == old(pendingDeletionCallbacks) + (if exit.StartedDeletes() then 2 else 0)
      ensures !exit.StartedDeletes() ==> remoteOps == old(remoteOps)
      ensures exit.DeletionStarted? ==> olderPrimaryCleaned
    {
      var metadataFilesNotToBeDeleted := RemoveAll(metadataFiles, Elements(metadataFilesToBeDeleted));
      var generations := GetGenerationsToBeDeleted(metadataFilesNotToBeDeleted, metadataFilesToBeDeleted, indexDeleted,
                                                   env.names, env.read);
      if generations.Err? {
        deletionPermits := deletionPermits + REMOTE_DELETION_PERMITS;
        return MetadataUnreadable(generations.error);
      }
      if generations.value == {} {
        deletionPermits := deletionPermits + REMOTE_DELETION_PERMITS;
        return NoGenerationsToDelete;
      }
      exit := IssueDeletes(metadataFiles, metadataFilesToBeDeleted, metadataFilesNotToBeDeleted, generations.value,
                           env, MaxGenerationToBeDeleted(indexDeleted, minRemoteGenReferenced, extraKeep),
                           old(oldFormatMetadataFileGenerationMap), old(remoteOps), old(olderPrimaryCleaned));
    }

    /** The deletes of a sweep that found generations to delete, as the plan for the listing has them. */
    method IssueDeletes(
      metadataFiles: seq<string>,
      metadataFilesToBeDeleted: seq<string>,
      metadataFilesNotToBeDeleted: seq<string>,
      generations: set<int>,
      env: TrimEnv,
      ghost maxGenerationToBeDeleted: int,
      ghost cache0: map<string, GenerationRange>,
      ghost remoteOps0: seq<RemoteOp>,
      ghost cleaned0: bool) returns (exit: TrimExit)
      requires generations != {}
      requires metadataFilesNotToBeDeleted == RemoveAll(metadataFiles, Elements(metadataFilesToBeDeleted))
      requires Ok(generations)
               == GenerationsToBeDeletedSpec(metadataFilesNotToBeDeleted, metadataFilesToBeDeleted,
                                             maxGenerationToBeDeleted, cache0, env.names, env.read)
      requires remoteOps0 == remoteOps && cleaned0 == olderPrimaryCleaned
      modifies this`deletionPermits, this`pendingDeletionCallbacks, this`remoteOps,
               this`oldFormatMetadataFileGenerationMap, this`olderPrimaryCleaned
      ensures exit.StartedDeletes() && exit.metadataFiles == metadataFilesToBeDeleted
      ensures DeletesIssued(exit, metadataFiles, env, maxGenerationToBeDeleted,
                            cache0, remoteOps0, cleaned0, remoteOps, oldFormatMetadataFileGenerationMap)
      ensures pendingDeletionCallbacks == old(pendingDeletionCallbacks) + 2
      ensures exit.DeletionStarted? ==> deletionPermits == old(deletionPermits) && olderPrimaryCleaned
      ensures exit.CleanupFailed? ==> deletionPermits == old(deletionPermits) + REMOTE_DELETION_PERMITS
    {
      exit := StartDeletes(metadataFiles, metadataFilesToBeDeleted, metadataFilesNotToBeDeleted, generations,
                           env.primaryTerm, env.primaryTermOf);
    }

    /**
     * Both async deletes, each with a release callback; the cache keeps only
     * the files not deleted; then the stale primary terms are cleaned up, and
     * if that throws the catch releases both permits.
     */
    method StartDeletes(
      metadataFiles: seq<string>,
      metadataFilesToBeDeleted: seq<string>,
      metadataFilesNotToBeDeleted: seq<string>,
      generations: set<int>,
      primaryTerm: int,
      primaryTermOf: string -> Option<int>) returns (exit: TrimExit)
      requires forall f :: f in metadataFilesNotToBeDeleted ==> f in metadataFiles && f !in metadataFilesToBeDeleted
      modifies this`deletionPermits, this`pendingDeletionCallbacks, this`remoteOps,
               this`oldFormatMetadataFileGenerationMap, this`olderPrimaryCleaned
      ensures exit.StartedDeletes() && exit.generations == generations && exit.metadataFiles == metadataFilesToBeDeleted
      ensures remoteOps == old(remoteOps) + [DeleteGenerations(primaryTerm, generations), DeleteMetadataFiles(metadataFilesToBeDeleted)]
                           + PrimaryTermCleanup(old(olderPrimaryCleaned), metadataFiles, primaryTermOf)
      ensures pendingDeletionCallbacks == old(pendingDeletionCallbacks) + 2
      ensures forall f :: f in oldFormatMetadataFileGenerationMap ==>
                && f in old(oldFormatMetadataFileGenerationMap) && oldFormatMetadataFileGenerationMap[f] == old(oldFormatMetadataFileGenerationMap)[f]
                && f in metadataFiles && f !in metadataFilesToBeDeleted
      ensures exit.DeletionStarted? ==> deletionPermits == old(deletionPermits) && olderPrimaryCleaned
      ensures exit.CleanupFailed? <==> !old(olderPrimaryCleaned) && metadataFiles != [] && MinPrimaryTerm(metadataFiles, primaryTermOf).None?
      ensures exit.CleanupFailed? ==> deletionPermits == old(deletionPermits) + REMOTE_DELETION_PERMITS
    {
      // deleteGenerationAsync, then deleteMetadataFilesAsync, each releasing one permit when done
      remoteOps := remoteOps + [DeleteGenerations(primaryTerm, generations), DeleteMetadataFiles(metadataFilesToBeDeleted)];
      pendingDeletionCallbacks := pendingDeletionCallbacks + 2;
      oldFormatMetadataFileGenerationMap :=
        map f | f in oldFormatMetadataFileGenerationMap && f in metadataFilesNotToBeDeleted :: oldFormatMetadataFileGenerationMap[f];
      var cleaned := DeleteStaleRemotePrimaryTerms(metadataFiles, primaryTermOf);
      if cleaned.Fail? {
        deletionPermits := deletionPermits + REMOTE_DELETION_PERMITS;
        return CleanupFailed(generations, metadataFilesToBeDeleted);
      }
      exit := DeletionStarted(generations, metadataFilesToBeDeleted);
    }
  }

  /**
   * The checks before the listing, in order: not a started primary or syncs
   * paused, a stale pinned-timestamp state (unless the index is deleted), the
   * deletion permits held by another sweep; None lets the sweep go on.
   */
  function SweepGate(indexDeleted: bool, env: TrimEnv, pauseSync: bool, deletionPermits: nat): (gate: Option<TrimExit>)
    ensures gate == Some(NotPrimaryOrPaused) <==> !env.startedPrimary || pauseSync
    ensures gate == Some(PinnedStateStale) <==> env.startedPrimary && !pauseSync && !indexDeleted && env.pinnedStateStaleBeforeListing
    ensures gate == Some(DeletionInProgress)
            <==> env.startedPrimary && !pauseSync && (indexDeleted || !env.pinnedStateStaleBeforeListing)
                 && deletionPermits < REMOTE_DELETION_PERMITS
    ensures gate.None? || gate == Some(NotPrimaryOrPaused) || gate == Some(PinnedStateStale) || gate == Some(DeletionInProgress)
  {
    if !env.startedPrimary || pauseSync then Some(NotPrimaryOrPaused)
    else if !indexDeleted && env.pinnedStateStaleBeforeListing then Some(PinnedStateStale)
    else if deletionPermits < REMOTE_DELETION_PERMITS then Some(DeletionInProgress)
    else None
  }

  /**
   * The remote call `deleteStaleRemotePrimaryTerms` makes: none once done
   * before or for no files or when a primary term cannot be read; otherwise the
   * deletion of the terms below the least primary term of the files.
   */
  function PrimaryTermCleanup(cleanedBefore: bool, metadataFiles: seq<string>, primaryTermOf: string -> Option<int>): (ops: seq<RemoteOp>)
    ensures ops == [] || |ops| == 1
    ensures ops != [] ==> !cleanedBefore && metadataFiles != [] && MinPrimaryTerm(metadataFiles, primaryTermOf).Some?
                          && ops[0] == DeletePrimaryTerms(MinPrimaryTerm(metadataFiles, primaryTermOf).value - 1)
    ensures ops == [] ==> cleanedBefore || metadataFiles == [] || MinPrimaryTerm(metadataFiles, primaryTermOf).None?
  {
    if cleanedBefore || metadataFiles == [] then []
    else match MinPrimaryTerm(metadataFiles, primaryTermOf)
      case None => []
      case Some(m) => [DeletePrimaryTerms(m - 1)]
  }

  /**
   * The deletes a sweep started: the listing had more than one file, the files
   * are those `getMetadataFilesToBeDeleted` plans (less the newest unless the
   * index is deleted), and the deletes for them were issued as planned.
   */
  ghost predicate DeletesAsPlanned(
    exit: TrimExit,
    indexDeleted: bool,
    env: TrimEnv,
    maxGenerationToBeDeleted: int,
    cache0: map<string, GenerationRange>,
    remoteOps0: seq<RemoteOp>,
    cleanedBefore: bool,
    remoteOps: seq<RemoteOp>,
    cache: map<string, GenerationRange>)
    requires exit.StartedDeletes()
  {
    && env.listing.Some? && |env.listing.value| > 1
    && exit.metadataFiles == FilesToDelete(env.listing.value, env.filterByAge, env.lockedFiles, indexDeleted)
    && exit.metadataFiles != []
    && DeletesIssued(exit, env.listing.value, env, maxGenerationToBeDeleted, cache0, remoteOps0, cleanedBefore, remoteOps, cache)
  }

  /**
   * The deletes issued for the files `exit` names out of the listing
   * `metadataFiles`: the generations are those `getGenerationsToBeDeleted` finds
   * for them from the cache `cache0`, both deletes are appended to the remote
   * calls `remoteOps0` followed by the primary-term cleanup, and the cache keeps
   * only files that are listed and not deleted.
   */
  ghost predicate DeletesIssued(
    exit: TrimExit,
    metadataFiles: seq<string>,
    env: TrimEnv,
    maxGenerationToBeDeleted: int,
    cache0: map<string, GenerationRange>,
    remoteOps0: seq<RemoteOp>,
    cleanedBefore: bool,
    remoteOps: seq<RemoteOp>,
    cache: map<string, GenerationRange>)
    requires exit.StartedDeletes()
  {
    && exit.generations != {}
    && Ok(exit.generations)
       == GenerationsToBeDeletedSpec(RemoveAll(metadataFiles, Elements(exit.metadataFiles)), exit.metadataFiles,
                                     maxGenerationToBeDeleted, cache0, env.names, env.read)
    && remoteOps == remoteOps0 + [DeleteGenerations(env.primaryTerm, exit.generations), DeleteMetadataFiles(exit.metadataFiles)]
                    + PrimaryTermCleanup(cleanedBefore, metadataFiles, env.primaryTermOf)
    && forall f :: f in cache ==> f in metadataFiles && f !in exit.metadataFiles
  }

  /** `m` maps each of `files`, and nothing else, to its range. */
  ghost predicate RangeMapOf(
    m: map<string, GenerationRange>,
    files: seq<string>,
    cache: map<string, GenerationRange>,
    names: string -> Option<GenerationRange>,
    read: string -> Option<TransferSnapshots.TranslogTransferMetadata>)
  {
    && (forall f :: f in m <==> f in files)
    && forall f :: f in m ==> RangeOf(f, cache, names, read) == Ok(m[f])
  }

  /** Putting the range of the next file in a range map of a prefix gives the range map of the longer prefix. */
  lemma RangeMapSnoc(
    m: map<string, GenerationRange>,
    files: seq<string>,
    i: nat,
    range: GenerationRange,
    cache: map<string, GenerationRange>,
    names: string -> Option<GenerationRange>,
    read: string -> Option<TransferSnapshots.TranslogTransferMetadata>)
    requires i < |files| && RangeMapOf(m, files[..i], cache, names, read)
    requires RangeOf(files[i], cache, names, read) == Ok(range)
    ensures RangeMapOf(m[files[i] := range], files[..i + 1], cache, names, read)
  {
    assert files[..i + 1] == files[..i] + [files[i]];
  }

  /** `getOrderedPinnedMetadataGenerations`: the ranges of the map, in a tree set ordered by `(min, max)`. */
  method GetOrderedPinnedMetadataGenerations(m: map<string, GenerationRange>) returns (pinned: seq<GenerationRange>)
    ensures pinned == TreeSetOf(m.Values)
  {
    pinned := [];
    var remaining := m.Values;
    while remaining != {}
      invariant remaining <= m.Values
      invariant StrictlySorted(pinned)
      invariant forall x :: x in pinned <==> x in m.Values - remaining
      decreases remaining
    {
      var x := Pick(remaining);
      pinned := Insert(pinned, x);
      remaining := remaining - {x};
    }
    StrictlySortedUnique(pinned, TreeSetOf(m.Values));
  }

  /** The last loop of `getGenerationsToBeDeleted`: the generations at most `maxGeneration` that are not pinned. */
  method UnpinnedGenerations(generations: set<int>, maxGeneration: int, pinned: seq<GenerationRange>) returns (r: set<int>)
    requires StrictlySorted(pinned)
    ensures r == set g | g in generations && g <= maxGeneration && !IsGenerationPinned(g, pinned)
  {
    r := {};
    var remaining := generations;
    while remaining != {}
      invariant remaining <= generations
      invariant r == set g | g in generations - remaining && g <= maxGeneration && !IsGenerationPinned(g, pinned)
      decreases remaining
    {
      var g := Pick(remaining);
      if g <= maxGeneration && !IsGenerationPinned(g, pinned) {
        r := r + {g};
      }
      remaining := remaining - {g};
    }
  }

  /** The handle `drainSync` returns (`Releasables.releaseOnce`): releases the permit and resumes syncs, once. */
  class DrainHandle {
    const translog: RemoteFsTranslog
    var released: bool

    constructor (translog: RemoteFsTranslog)
      ensures this.translog == translog && !released
    {
      this.translog := translog;
      released := false;
    }

    /**
     * The first release gives the permit back and clears the pause; it answers
     * whether syncs were paused. Later releases do nothing.
     */
    method Release() returns (wasSyncPaused: Option<bool>)
      modifies this`released, translog`syncPermits, translog`pauseSync
      ensures released
      ensures old(released) ==> wasSyncPaused.None? && unchanged(translog)
      ensures !old(released) ==>
                && wasSyncPaused == Some(old(translog.pauseSync))
                && translog.syncPermits == old(translog.syncPermits) + SYNC_PERMIT && !translog.pauseSync
      ensures !old(released) && old(translog.pauseSync) && old(translog.SyncPermitsConserved())
              ==> translog.SyncPermitsConserved() && translog.syncPermits == SYNC_PERMIT
    {
      if released {
        return None;
      }
      released := true;
      translog.syncPermits := translog.syncPermits + SYNC_PERMIT;
      wasSyncPaused := Some(translog.pauseSync);
      translog.pauseSync := false;
    }
  }
}
