/**
 * Value-level definitions behind the remote translog's retention sweep: the
 * generation range each metadata file refers to (from its name, from the cache
 * of old-format files, or read from the file), the generations a sweep deletes,
 * the stale entries of the upload tracker and the primary terms the one-off
 * cleanup deletes below.
 *
 * `TranslogTransferMetadata.getMinMaxTranslogGenerationFromFilename`, the
 * metadata read of the transfer manager and `RemoteStoreUtils.invertLong` are
 * not part of this model: they are the function parameters `names`, `read` and
 * `primaryTermOf`.
 */
module Retention {
  import opened Common
  import opened TranslogTypes
  import opened PinnedGenerations
  import TransferSnapshots

  /** The range `(minTranslogGeneration, generation)` a metadata record refers to. */
  function RangeOfMetadata(md: TransferSnapshots.TranslogTransferMetadata): GenerationRange {
    GenerationRange(md.minTranslogGeneration, md.generation)
  }

  /**
   * `getMinMaxTranslogGenerationFromMetadataFile` against a cache: the range in
   * the file name, else the cached range, else the range of the record read
   * from the file (its name is the error when the read fails).
   */
  function RangeOf(
    file: string,
    cache: map<string, GenerationRange>,
    names: string -> Option<GenerationRange>,
    read: string -> Option<TransferSnapshots.TranslogTransferMetadata>): (r: Result<GenerationRange, string>)
    ensures r.Err? <==> names(file).None? && file !in cache && read(file).None?
    ensures r.Err? ==> r.error == file
  {
    if names(file).Some? then Ok(names(file).value)
    else if file in cache then Ok(cache[file])
    else if read(file).Some? then Ok(RangeOfMetadata(read(file).value))
    else Err(file)
  }

  /**
   * `c1` is `c0` with entries added only for old-format files, each holding the
   * range read from that file.
   */
  predicate Extends(
    c0: map<string, GenerationRange>,
    c1: map<string, GenerationRange>,
    names: string -> Option<GenerationRange>,
    read: string -> Option<TransferSnapshots.TranslogTransferMetadata>)
  {
    && (forall f :: f in c0 ==> f in c1 && c1[f] == c0[f])
    && (forall f :: f in c1 && f !in c0 ==>
          names(f).None? && read(f).Some? && c1[f] == RangeOfMetadata(read(f).value))
  }

  /** Filling the cache never changes the range a file is found to have. */
  lemma RangeOfStable(
    file: string,
    c0: map<string, GenerationRange>,
    c1: map<string, GenerationRange>,
    names: string -> Option<GenerationRange>,
    read: string -> Option<TransferSnapshots.TranslogTransferMetadata>)
    requires Extends(c0, c1, names, read)
    ensures RangeOf(file, c1, names, read) == RangeOf(file, c0, names, read)
  {
    if names(file).None? && file in c1 && file !in c0 {
      assert c1[file] == RangeOfMetadata(read(file).value);
    }
  }

  lemma ExtendsTransitive(
    c0: map<string, GenerationRange>,
    c1: map<string, GenerationRange>,
    c2: map<string, GenerationRange>,
    names: string -> Option<GenerationRange>,
    read: string -> Option<TransferSnapshots.TranslogTransferMetadata>)
    requires Extends(c0, c1, names, read) && Extends(c1, c2, names, read)
    ensures Extends(c0, c2, names, read)
  {
    forall f | f in c2 && f !in c0
      ensures names(f).None? && read(f).Some? && c2[f] == RangeOfMetadata(read(f).value)
    {
      if f in c1 {
        assert c2[f] == c1[f];
      }
    }
  }

  /** The ranges of `files` in order, or the first file whose range cannot be read. */
  function RangesOf(
    files: seq<string>,
    cache: map<string, GenerationRange>,
    names: string -> Option<GenerationRange>,
    read: string -> Option<TransferSnapshots.TranslogTransferMetadata>): (r: Result<seq<GenerationRange>, string>)
    ensures r.Ok? <==> forall k :: 0 <= k < |files| ==> RangeOf(files[k], cache, names, read).Ok?
    ensures r.Ok? ==> |r.value| == |files|
                      && forall k :: 0 <= k < |files| ==> r.value[k] == RangeOf(files[k], cache, names, read).value
    ensures r.Err? ==> exists k :: 0 <= k < |files| && RangeOf(files[k], cache, names, read) == Err(r.error)
  {
    if files == [] then Ok([])
    else
      var init := files[..|files| - 1];
      assert forall k :: 0 <= k < |init| ==> init[k] == files[k];
      match RangesOf(init, cache, names, read)
      case Err(e) => Err(e)
      case Ok(rs) =>
        match RangeOf(files[|files| - 1], cache, names, read)
        case Err(e) => Err(e)
        case Ok(range) => Ok(rs + [range])
  }

  /** Filling the cache never changes the ranges of a list of files. */
  lemma {:induction false} RangesOfStable(
    files: seq<string>,
    c0: map<string, GenerationRange>,
    c1: map<string, GenerationRange>,
    names: string -> Option<GenerationRange>,
    read: string -> Option<TransferSnapshots.TranslogTransferMetadata>)
    requires Extends(c0, c1, names, read)
    ensures RangesOf(files, c1, names, read) == RangesOf(files, c0, names, read)
  {
    if files != [] {
      RangesOfStable(files[..|files| - 1], c0, c1, names, read);
      RangeOfStable(files[|files| - 1], c0, c1, names, read);
    }
  }

  /** The ranges of one more file: those before it, then its own. */
  lemma RangesOfSnoc(
    files: seq<string>,
    i: nat,
    cache: map<string, GenerationRange>,
    names: string -> Option<GenerationRange>,
    read: string -> Option<TransferSnapshots.TranslogTransferMetadata>)
    requires i < |files|
    ensures RangesOf(files[..i + 1], cache, names, read)
         == match RangesOf(files[..i], cache, names, read)
            case Err(e) => Err(e)
            case Ok(rs) =>
              match RangeOf(files[i], cache, names, read)
              case Err(e) => Err(e)
              case Ok(range) => Ok(rs + [range])
  {
    assert files[..i + 1][..i] == files[..i];
  }

  /** A failure in a prefix is the failure of the whole list. */
  lemma {:induction false} RangesOfPrefixError(
    files: seq<string>,
    i: nat,
    cache: map<string, GenerationRange>,
    names: string -> Option<GenerationRange>,
    read: string -> Option<TransferSnapshots.TranslogTransferMetadata>)
    requires i <= |files|
    requires RangesOf(files[..i], cache, names, read).Err?
    ensures RangesOf(files, cache, names, read) == RangesOf(files[..i], cache, names, read)
    decreases |files| - i
  {
    if i < |files| {
      RangesOfSnoc(files, i, cache, names, read);
      RangesOfPrefixError(files, i + 1, cache, names, read);
    } else {
      assert files[..i] == files;
    }
  }

  /** One step of a loop over `files`: a failure at `i` is the failure of the list, a success extends the prefix. */
  lemma RangesOfStep(
    files: seq<string>,
    i: nat,
    cache: map<string, GenerationRange>,
    names: string -> Option<GenerationRange>,
    read: string -> Option<TransferSnapshots.TranslogTransferMetadata>)
    requires i < |files| && RangesOf(files[..i], cache, names, read).Ok?
    ensures RangeOf(files[i], cache, names, read).Err?
            ==> RangesOf(files, cache, names, read) == Err(RangeOf(files[i], cache, names, read).error)
    ensures RangeOf(files[i], cache, names, read).Ok?
            ==> RangesOf(files[..i + 1], cache, names, read)
                == Ok(RangesOf(files[..i], cache, names, read).value + [RangeOf(files[i], cache, names, read).value])
  {
    RangesOfSnoc(files, i, cache, names, read);
    if RangeOf(files[i], cache, names, read).Err? {
      RangesOfPrefixError(files, i + 1, cache, names, read);
    }
  }

  /**
   * A map from each of `files` to its range holds exactly the ranges of the
   * list as values.
   */
  lemma ValuesOfRangeMap(
    m: map<string, GenerationRange>,
    files: seq<string>,
    cache: map<string, GenerationRange>,
    names: string -> Option<GenerationRange>,
    read: string -> Option<TransferSnapshots.TranslogTransferMetadata>)
    requires RangesOf(files, cache, names, read).Ok?
    requires forall f :: f in m <==> f in files
    requires forall f :: f in m ==> RangeOf(f, cache, names, read) == Ok(m[f])
    ensures m.Values == set x | x in RangesOf(files, cache, names, read).value
  {
    var rs := RangesOf(files, cache, names, read).value;
    forall x | x in m.Values ensures x in rs {
      var f :| f in m && m[f] == x;
      var k :| 0 <= k < |files| && files[k] == f;
      assert rs[k] == x;
    }
    forall x | x in rs ensures x in m.Values {
      var k :| 0 <= k < |rs| && rs[k] == x;
      assert files[k] in m && m[files[k]] == x;
    }
  }

  /** `maxGenerationToBeDeleted`: unbounded (Long.MAX_VALUE) for a deleted index. */
  function MaxGenerationToBeDeleted(indexDeleted: bool, minRemoteGenReferenced: int, extraKeep: int): int {
    if indexDeleted then LONG_MAX else minRemoteGenReferenced - 1 - extraKeep
  }

  /**
   * The result of `getGenerationsToBeDeleted` from the cache it starts with:
   * the first unreadable file of the files to delete, then of the files kept,
   * or the generations to delete.
   */
  ghost function GenerationsToBeDeletedSpec(
    metadataFilesNotToBeDeleted: seq<string>,
    metadataFilesToBeDeleted: seq<string>,
    maxGenerationToBeDeleted: int,
    cache: map<string, GenerationRange>,
    names: string -> Option<GenerationRange>,
    read: string -> Option<TransferSnapshots.TranslogTransferMetadata>): (r: Result<set<int>, string>)
    ensures r.Ok? ==> forall g :: g in r.value ==>
              g <= maxGenerationToBeDeleted
              && exists k :: 0 <= k < |metadataFilesToBeDeleted|
                             && RangeOf(metadataFilesToBeDeleted[k], cache, names, read).Ok?
                             && Contains(RangeOf(metadataFilesToBeDeleted[k], cache, names, read).value, g)
  {
    match RangesOf(metadataFilesToBeDeleted, cache, names, read)
    case Err(e) => Err(e)
    case Ok(deleted) =>
      match RangesOf(metadataFilesNotToBeDeleted, cache, names, read)
      case Err(e) => Err(e)
      case Ok(kept) =>
        var r := GenerationsToBeDeleted(deleted, (set x | x in kept), maxGenerationToBeDeleted);
        assert forall g :: g in r ==> exists d :: d in deleted && Contains(d, g);
        Ok(r)
  }

  /**
   * Unless the index is deleted, a sweep deletes no generation above
   * `minRemoteGenReferenced - 1 - extraKeep`, and only generations of the
   * metadata files it deletes.
   */
  lemma DeletedGenerationsAreBounded(
    metadataFilesNotToBeDeleted: seq<string>,
    metadataFilesToBeDeleted: seq<string>,
    indexDeleted: bool,
    minRemoteGenReferenced: int,
    extraKeep: int,
    cache: map<string, GenerationRange>,
    names: string -> Option<GenerationRange>,
    read: string -> Option<TransferSnapshots.TranslogTransferMetadata>,
    g: int)
    requires var r := GenerationsToBeDeletedSpec(metadataFilesNotToBeDeleted, metadataFilesToBeDeleted,
                                                 MaxGenerationToBeDeleted(indexDeleted, minRemoteGenReferenced, extraKeep),
                                                 cache, names, read);
             r.Ok? && g in r.value
    ensures !indexDeleted ==> g <= minRemoteGenReferenced - 1 - extraKeep
    ensures exists f :: f in metadataFilesToBeDeleted && RangeOf(f, cache, names, read).Ok?
                        && Contains(RangeOf(f, cache, names, read).value, g)
  {
    var k :| 0 <= k < |metadataFilesToBeDeleted|
             && RangeOf(metadataFilesToBeDeleted[k], cache, names, read).Ok?
             && Contains(RangeOf(metadataFilesToBeDeleted[k], cache, names, read).value, g);
    assert metadataFilesToBeDeleted[k] in metadataFilesToBeDeleted;
  }

  // ---------------------------------------------------------------- upload tracker pruning

  /** The generation of an uploaded translog file name below the minimum live generation. */
  predicate IsStaleTranslogFile(file: string, minLiveGeneration: int) {
    EndsWith(file, TRANSLOG_FILE_SUFFIX) && ParseIdFromFileName(file).Some?
    && ParseIdFromFileName(file).value < minLiveGeneration
  }

  /**
   * The names the pruning loop removes from the tracker: every translog file
   * below the minimum live generation and the checkpoint file of its generation.
   */
  function StaleTrackerFiles(uploaded: set<string>, minLiveGeneration: int): (r: set<string>)
    ensures forall f :: f in uploaded && IsStaleTranslogFile(f, minLiveGeneration) ==> f in r
  {
    (set f | f in uploaded && IsStaleTranslogFile(f, minLiveGeneration))
    + (set f | f in uploaded && IsStaleTranslogFile(f, minLiveGeneration) :: CommitCheckpointFileName(ParseIdFromFileName(f).value))
  }

  /** The stale names of one more uploaded file: its own translog and checkpoint names, if it is stale. */
  lemma StaleTrackerFilesAdd(uploaded: set<string>, f: string, minLiveGeneration: int)
    ensures StaleTrackerFiles(uploaded + {f}, minLiveGeneration)
         == StaleTrackerFiles(uploaded, minLiveGeneration)
            + (if IsStaleTranslogFile(f, minLiveGeneration) then {f, CommitCheckpointFileName(ParseIdFromFileName(f).value)} else {})
  {
  }

  /** The names the pruning loop adds for one uploaded file. */
  function StaleNamesOf(file: string, minLiveGeneration: int): set<string> {
    if IsStaleTranslogFile(file, minLiveGeneration)
    then {file, CommitCheckpointFileName(ParseIdFromFileName(file).value)}
    else {}
  }

  /** Visiting one more file of the tracker adds its stale names, and keeps the visited files parseable. */
  lemma StaleTrackerFilesVisit(all: set<string>, remaining: set<string>, file: string, minLiveGeneration: int)
    requires file in remaining && remaining <= all && !Unparsable(file)
    requires forall f :: f in all - remaining ==> !Unparsable(f)
    ensures StaleTrackerFiles(all - (remaining - {file}), minLiveGeneration)
         == StaleTrackerFiles(all - remaining, minLiveGeneration) + StaleNamesOf(file, minLiveGeneration)
    ensures forall f :: f in all - (remaining - {file}) ==> !Unparsable(f)
  {
    StaleTrackerFilesAdd(all - remaining, file, minLiveGeneration);
    assert all - (remaining - {file}) == (all - remaining) + {file};
  }

  /** A translog file that cannot be parsed makes the pruning loop throw. */
  predicate Unparsable(file: string) {
    EndsWith(file, TRANSLOG_FILE_SUFFIX) && ParseIdFromFileName(file).None?
  }

  lemma CheckpointNameIsNotTranslogName(g: int)
    ensures !EndsWith(CommitCheckpointFileName(g), TRANSLOG_FILE_SUFFIX)
  {
    var n := CommitCheckpointFileName(g);
    assert n[|n| - 4..] == CHECKPOINT_SUFFIX;
    assert n[|n| - 5..][1] == '.';
  }

  /**
   * Pruning keeps every translog file of a live generation, and the tracker
   * keys of the checkpoint-as-metadata tracker (decimal generations, not file
   * names) are never pruned.
   */
  lemma PruningKeepsLiveFiles(uploaded: set<string>, minLiveGeneration: int, f: string)
    requires f in uploaded && EndsWith(f, TRANSLOG_FILE_SUFFIX) && !IsStaleTranslogFile(f, minLiveGeneration)
    ensures f !in StaleTrackerFiles(uploaded, minLiveGeneration)
  {
    if f in StaleTrackerFiles(uploaded, minLiveGeneration) {
      var x :| x in uploaded && IsStaleTranslogFile(x, minLiveGeneration)
               && f == CommitCheckpointFileName(ParseIdFromFileName(x).value);
      CheckpointNameIsNotTranslogName(ParseIdFromFileName(x).value);
    }
  }

  /** A tracker none of whose keys is a translog file name loses nothing to pruning. */
  lemma PruningSparesGenerationKeys(uploaded: set<string>, minLiveGeneration: int)
    requires forall f :: f in uploaded ==> !EndsWith(f, TRANSLOG_FILE_SUFFIX)
    ensures StaleTrackerFiles(uploaded, minLiveGeneration) == {}
  {
    assert forall f :: f in uploaded ==> !IsStaleTranslogFile(f, minLiveGeneration);
  }

  // ---------------------------------------------------------------- readers

  /** The least generation of the readers (`readers.stream().map(getGeneration).min()`). */
  function MinReaderGeneration(readers: seq<TranslogReader>): (m: int)
    requires readers != []
    ensures exists k :: 0 <= k < |readers| && readers[k].generation == m
    ensures forall k :: 0 <= k < |readers| ==> m <= readers[k].generation
  {
    if |readers| == 1 then readers[0].generation
    else
      var rest := MinReaderGeneration(readers[1..]);
      assert forall k :: 1 <= k < |readers| ==> readers[k] == readers[1..][k - 1];
      Min(readers[0].generation, rest)
  }

  /** The readers local trimming keeps: those at or above the minimum referenced generation. */
  function KeepReadersFrom(readers: seq<TranslogReader>, minReferencedGen: int): (r: seq<TranslogReader>)
    ensures forall x :: x in r <==> x in readers && x.generation >= minReferencedGen
    ensures |r| <= |readers|
  {
    if readers == [] then []
    else (if readers[0].generation >= minReferencedGen then [readers[0]] else []) + KeepReadersFrom(readers[1..], minReferencedGen)
  }

  // ---------------------------------------------------------------- stale primary terms

  /**
   * The least primary term named by the metadata files, or None when a name
   * cannot be read (the stream throws).
   */
  function MinPrimaryTerm(files: seq<string>, primaryTermOf: string -> Option<int>): (m: Option<int>)
    requires files != []
    ensures m.None? <==> exists k :: 0 <= k < |files| && primaryTermOf(files[k]).None?
    ensures m.Some? ==> (exists k :: 0 <= k < |files| && primaryTermOf(files[k]) == m)
                        && forall k :: 0 <= k < |files| ==> m.value <= primaryTermOf(files[k]).value
  {
    var last := files[|files| - 1];
    if |files| == 1 then primaryTermOf(last)
    else
      var init := files[..|files| - 1];
      assert forall k :: 0 <= k < |init| ==> init[k] == files[k];
      var m := MinPrimaryTerm(init, primaryTermOf);
      if m.None? || primaryTermOf(last).None? then None
      else Some(Min(m.value, primaryTermOf(last).value))
  }
  /** One unreadable primary term makes the least primary term unreadable. */
  lemma MinPrimaryTermUnreadable(files: seq<string>, i: nat, primaryTermOf: string -> Option<int>)
    requires i < |files| && primaryTermOf(files[i]).None?
    ensures MinPrimaryTerm(files, primaryTermOf).None?
  {
    assert 0 <= i < |files| && primaryTermOf(files[i]).None?;
  }

  /** The least primary term of one more file. */
  lemma MinPrimaryTermSnoc(files: seq<string>, i: nat, primaryTermOf: string -> Option<int>)
    requires 1 <= i < |files| && MinPrimaryTerm(files[..i], primaryTermOf).Some? && primaryTermOf(files[i]).Some?
    ensures MinPrimaryTerm(files[..i + 1], primaryTermOf)
         == Some(Min(MinPrimaryTerm(files[..i], primaryTermOf).value, primaryTermOf(files[i]).value))
  {
    assert files[..i + 1][..i] == files[..i];
  }

}
