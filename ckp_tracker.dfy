/**
 * Upload bookkeeping when the checkpoint travels as metadata of the translog
 * blob (TranslogCkpAsMetadataFileTransferTracker).
 *
 * The superclass FileTransferTracker is not part of this model: its
 * generation map is the field `generationTransferTracker`, keyed by the
 * decimal text of a generation, `addGeneration` is a plain insert and
 * `isGenerationUploaded` a plain lookup of the value true; its file-length
 * map is `bytesForTlogCkpFileToUpload`, and `recordFileContentLength` a
 * plain insert.
 */
module CkpTracker {
  import opened Common
  import Decimal

  /** A generation to upload: the translog file and its checkpoint, with their sizes. */
  datatype TranslogCheckpointSnapshot = TranslogCheckpointSnapshot(
    generation: int,
    translogFileName: string,
    translogFileContentLength: int,
    checkpointFileName: string,
    checkpointFileContentLength: int)

  /** Failure of the stats updates that run before a failed generation is recorded. */
  datatype StatsError = StatsUpdateFailed

  class TranslogCkpAsMetadataFileTransferTracker {
    /** Generation (as decimal text) to uploaded (true) or failed (false). */
    var generationTransferTracker: map<string, bool>
    /** File name to content length of the files of the current upload. */
    var bytesForTlogCkpFileToUpload: map<string, int>

    constructor ()
      ensures generationTransferTracker == map[] && bytesForTlogCkpFileToUpload == map[]
    {
      generationTransferTracker := map[];
      bytesForTlogCkpFileToUpload := map[];
    }

    /** The superclass's lookup: a generation counts as uploaded when it is recorded as true. */
    predicate IsGenerationUploaded(generation: int)
      reads this
    {
      var key := Decimal.LongToString(generation);
      key in generationTransferTracker && generationTransferTracker[key]
    }

    /**
     * A generation whose upload succeeded is recorded as uploaded, even when the
     * stats updates before it throw (the source catches and logs that failure).
     */
    method OnSuccess(fileSnapshot: TranslogCheckpointSnapshot, statsThrow: bool)
      modifies this`generationTransferTracker
      ensures generationTransferTracker
           == old(generationTransferTracker)[Decimal.LongToString(fileSnapshot.generation) := true]
      ensures IsGenerationUploaded(fileSnapshot.generation)
    {
      if statsThrow {
        // The exception of the stats update is caught and logged.
      }
      generationTransferTracker := generationTransferTracker[Decimal.LongToString(fileSnapshot.generation) := true];
    }

    /**
     * A generation whose upload failed is recorded as not uploaded; the stats
     * updates before it are not guarded, so when they throw nothing is recorded.
     */
    method OnFailure(fileSnapshot: TranslogCheckpointSnapshot, statsThrow: bool) returns (r: Outcome<StatsError>)
      modifies this`generationTransferTracker
      ensures r.Fail? <==> statsThrow
      ensures r.Fail? ==> generationTransferTracker == old(generationTransferTracker)
      ensures r.Pass? ==>
                generationTransferTracker == old(generationTransferTracker)[Decimal.LongToString(fileSnapshot.generation) := false]
      ensures r.Pass? ==> !IsGenerationUploaded(fileSnapshot.generation)
    {
      if statsThrow {
        return Fail(StatsUpdateFailed);
      }
      generationTransferTracker := generationTransferTracker[Decimal.LongToString(fileSnapshot.generation) := false];
      r := Pass;
    }

    /**
     * `isUploaded` takes a generation as text: it parses it as a long
     * (NumberFormatException is the None result) and looks the generation up.
     */
    function IsUploaded(generation: string): (r: Option<bool>)
      reads this
      ensures r.None? <==> Decimal.ParseLong(generation).None?
      ensures r.Some? ==> r.value == IsGenerationUploaded(Decimal.ParseLong(generation).value)
    {
      match Decimal.ParseLong(generation)
      case None => None
      case Some(g) => Some(IsGenerationUploaded(g))
    }

    /** `allUploaded` answers with the generations recorded as uploaded. */
    function AllUploaded(): (r: set<string>)
      reads this
      ensures forall k :: k in r <==> k in generationTransferTracker && generationTransferTracker[k]
    {
      set k | k in generationTransferTracker && generationTransferTracker[k]
    }

    /**
     * Starts a fresh length map and records the translog and checkpoint file of
     * every snapshot to upload.
     */
    method RecordBytesForFiles(toUpload: set<TranslogCheckpointSnapshot>)
      modifies this`bytesForTlogCkpFileToUpload
      ensures bytesForTlogCkpFileToUpload.Keys == FileNames(toUpload)
      ensures forall name :: name in bytesForTlogCkpFileToUpload ==>
                exists f :: f in toUpload && RecordsLength(f, name, bytesForTlogCkpFileToUpload[name])
    {
      bytesForTlogCkpFileToUpload := map[];
      var remaining := toUpload;
      while remaining != {}
        invariant remaining <= toUpload
        invariant bytesForTlogCkpFileToUpload.Keys == FileNames(toUpload - remaining)
        invariant forall name :: name in bytesForTlogCkpFileToUpload ==>
                    exists f :: f in toUpload && RecordsLength(f, name, bytesForTlogCkpFileToUpload[name])
        decreases remaining
      {
        var file := Pick(remaining);
        bytesForTlogCkpFileToUpload := bytesForTlogCkpFileToUpload[file.translogFileName := file.translogFileContentLength];
        bytesForTlogCkpFileToUpload := bytesForTlogCkpFileToUpload[file.checkpointFileName := file.checkpointFileContentLength];
        FileNamesAdd(toUpload - remaining, file);
        assert toUpload - (remaining - {file}) == (toUpload - remaining) + {file};
        remaining := remaining - {file};
      }
    }

    /** Removes exactly the keys `Long.toString(g)` of the given generations. */
    method DeleteGenerations(generations: set<int>)
      modifies this`generationTransferTracker
      ensures generationTransferTracker == old(generationTransferTracker) - GenerationKeys(generations)
    {
      var remaining := generations;
      while remaining != {}
        invariant remaining <= generations
        invariant generationTransferTracker == old(generationTransferTracker) - GenerationKeys(generations - remaining)
        decreases remaining
      {
        var g := Pick(remaining);
        generationTransferTracker := generationTransferTracker - {Decimal.LongToString(g)};
        assert generations - (remaining - {g}) == (generations - remaining) + {g};
        remaining := remaining - {g};
      }
    }
  }

  function GenerationKeys(generations: set<int>): set<string> {
    set g | g in generations :: Decimal.LongToString(g)
  }

  /** Both file names of every snapshot. */
  function FileNames(files: set<TranslogCheckpointSnapshot>): set<string> {
    (set f | f in files :: f.translogFileName) + (set f | f in files :: f.checkpointFileName)
  }

  predicate RecordsLength(f: TranslogCheckpointSnapshot, name: string, length: int) {
    (name == f.translogFileName && length == f.translogFileContentLength)
    || (name == f.checkpointFileName && length == f.checkpointFileContentLength)
  }

  lemma FileNamesAdd(files: set<TranslogCheckpointSnapshot>, f: TranslogCheckpointSnapshot)
    ensures FileNames(files + {f}) == FileNames(files) + {f.translogFileName, f.checkpointFileName}
  {
  }

  /**
   * Deleting generations forgets exactly those generations: every other
   * generation keeps its recorded outcome.
   */
  lemma DeleteGenerationsForgetsExactly(tracker: map<string, bool>, generations: set<int>, g: int)
    requires IsLong(g) && forall x :: x in generations ==> IsLong(x)
    ensures Decimal.LongToString(g) in tracker - GenerationKeys(generations)
        <==> Decimal.LongToString(g) in tracker && g !in generations
  {
    if g !in generations && Decimal.LongToString(g) in GenerationKeys(generations) {
      var x :| x in generations && Decimal.LongToString(x) == Decimal.LongToString(g);
      Decimal.LongToStringInjective(x, g);
    }
  }

  /** The text key of a generation answers `isUploaded` like the generation itself. */
  lemma IsUploadedOfGenerationText(tracker: TranslogCkpAsMetadataFileTransferTracker, g: int)
    requires IsLong(g)
    ensures tracker.IsUploaded(Decimal.LongToString(g)) == Some(tracker.IsGenerationUploaded(g))
  {
    Decimal.ParseLongToString(g);
  }
}
