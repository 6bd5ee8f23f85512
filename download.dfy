/**
 * Recovery of a remote translog onto local disk: a download attempt that
 * fetches the generations named by the latest remote metadata, or that cleans
 * up local files when the remote store has none, and the retry loop around it.
 *
 * The remote store and the local file system are not part of this model: what
 * each call returns on each attempt is given by a `Store` of functions indexed
 * by the attempt number.
 */
module TranslogDownload {
  import opened Common
  import opened TranslogTypes
  import Decimal

  /** Attempts after the first one; `download` makes at most `DOWNLOAD_RETRIES + 1`. */
  const DOWNLOAD_RETRIES: nat := 2

  /** Name of the checkpoint file a translog directory is opened with. */
  const CHECKPOINT_FILE_NAME: string := "translog.ckp"

  datatype IoError =
    | FileNotFound(name: string)
    | NoSuchFile(name: string)
    | OtherIo(reason: string)

  /** Errors `download` retries on: a file deleted under a concurrent download. */
  predicate Retryable(e: IoError) {
    e.FileNotFound? || e.NoSuchFile?
  }

  /** The parts of a remote translog metadata record a download reads. */
  datatype RemoteMetadata = RemoteMetadata(
    generation: int,
    minTranslogGeneration: int,
    generationToPrimaryTermMapper: map<string, string>)

  /** Effects of a download attempt, in the order it starts them. */
  datatype Action =
    | WipeLocal
    | DownloadTranslog(primaryTerm: Option<string>, generation: string)
    | CopyCheckpoint(from: string, to: string)
    | CreateEmptyTranslog(checkpoint: Checkpoint)

  /**
   * What the remote store and the local disk answer on attempt `n`: the latest
   * metadata (None when nothing was uploaded), the failure, if any, of wiping
   * the local directory, of downloading a generation, of copying the latest
   * checkpoint and of creating an empty translog, and the local checkpoint
   * (None when there is no checkpoint file).
   */
  datatype Store = Store(
    readMetadata: nat -> Result<Option<RemoteMetadata>, IoError>,
    wipeLocal: nat -> Option<IoError>,
    downloadTranslog: (nat, int) -> Option<IoError>,
    copyCheckpoint: nat -> Option<IoError>,
    localCheckpoint: nat -> Option<Result<Checkpoint, IoError>>,
    createEmptyTranslog: nat -> Option<IoError>)

  /** The generations `generation, generation - 1, ..., minTranslogGeneration`. */
  function Descending(generation: int, minTranslogGeneration: int): (s: seq<int>)
    ensures |s| == if generation >= minTranslogGeneration then generation - minTranslogGeneration + 1 else 0
    ensures forall k :: 0 <= k < |s| ==> s[k] == generation - k
  {
    if generation < minTranslogGeneration then []
    else seq(generation - minTranslogGeneration + 1, (k: nat) => generation - k)
  }

  function DownloadAction(md: RemoteMetadata, generation: int): Action {
    var g := Decimal.LongToString(generation);
    DownloadTranslog(if g in md.generationToPrimaryTermMapper then Some(md.generationToPrimaryTermMapper[g]) else None, g)
  }

  /**
   * Downloads `gens` one after another, stopping at the first failure: the
   * generations attempted (the failed one last) and the failure.
   */
  function DownloadPlan(gens: seq<int>, store: Store, attempt: nat): (r: (seq<int>, Option<IoError>))
    ensures |r.0| <= |gens| && r.0 == gens[..|r.0|]
    ensures r.1.None? ==> r.0 == gens && forall k :: 0 <= k < |gens| ==> store.downloadTranslog(attempt, gens[k]).None?
    ensures r.1.Some? ==> |r.0| >= 1 && store.downloadTranslog(attempt, r.0[|r.0| - 1]) == r.1
                          && forall k :: 0 <= k < |r.0| - 1 ==> store.downloadTranslog(attempt, r.0[k]).None?
  {
    if gens == [] then ([], None)
    else match store.downloadTranslog(attempt, gens[0])
      case Some(e) => ([gens[0]], Some(e))
      case None =>
        var rest := DownloadPlan(gens[1..], store, attempt);
        ([gens[0]] + rest.0, rest.1)
  }

  function DownloadActions(md: RemoteMetadata, gens: seq<int>): (acts: seq<Action>)
    ensures |acts| == |gens| && forall k :: 0 <= k < |gens| ==> acts[k] == DownloadAction(md, gens[k])
  {
    seq(|gens|, k requires 0 <= k < |gens| => DownloadAction(md, gens[k]))
  }

  /** The effects and the outcome of download attempt `attempt`. */
  function OnceSpec(store: Store, attempt: nat, seedRemote: bool): (seq<Action>, Outcome<IoError>) {
    match store.readMetadata(attempt)
    case Err(e) => ([], Fail(e))
    case Ok(Some(md)) => FromMetadata(store, attempt, md)
    case Ok(None) => WithoutMetadata(store, attempt, seedRemote)
  }

  /** An attempt that found remote metadata: wipe, download newest first, copy the checkpoint. */
  function FromMetadata(store: Store, attempt: nat, md: RemoteMetadata): (seq<Action>, Outcome<IoError>) {
    if store.wipeLocal(attempt).Some? then ([WipeLocal], Fail(store.wipeLocal(attempt).value))
    else
      var plan := DownloadPlan(Descending(md.generation, md.minTranslogGeneration), store, attempt);
      var acts := [WipeLocal] + DownloadActions(md, plan.0);
      if plan.1.Some? then (acts, Fail(plan.1.value))
      else
        var copy := CopyCheckpoint(CommitCheckpointFileName(md.generation), CHECKPOINT_FILE_NAME);
        if store.copyCheckpoint(attempt).Some? then (acts + [copy], Fail(store.copyCheckpoint(attempt).value))
        else (acts + [copy], Pass)
  }

  /** An attempt that found no remote metadata: reset a non-empty local translog, unless seeding. */
  function WithoutMetadata(store: Store, attempt: nat, seedRemote: bool): (seq<Action>, Outcome<IoError>) {
    match store.localCheckpoint(attempt)
    case None => ([], Pass)
    case Some(Err(e)) => ([], Fail(e))
    case Some(Ok(c)) =>
      if seedRemote || IsEmptyTranslog(c) then ([], Pass)
      else if store.createEmptyTranslog(attempt).Some? then ([CreateEmptyTranslog(c)], Fail(store.createEmptyTranslog(attempt).value))
      else ([CreateEmptyTranslog(c)], Pass)
  }

  /** The generations whose download an attempt starts, in order. */
  function DownloadedGenerations(acts: seq<Action>): seq<string> {
    if acts == [] then []
    else (if acts[0].DownloadTranslog? then [acts[0].generation] else []) + DownloadedGenerations(acts[1..])
  }

  function GenerationTexts(gens: seq<int>): (s: seq<string>)
    ensures |s| == |gens| && forall k :: 0 <= k < |gens| ==> s[k] == Decimal.LongToString(gens[k])
  {
    seq(|gens|, k requires 0 <= k < |gens| => Decimal.LongToString(gens[k]))
  }

  lemma {:induction false} DownloadedGenerationsOfPlan(md: RemoteMetadata, gens: seq<int>)
    ensures DownloadedGenerations(DownloadActions(md, gens)) == GenerationTexts(gens)
  {
    if gens != [] {
      var acts := DownloadActions(md, gens);
      assert acts[1..] == DownloadActions(md, gens[1..]);
      DownloadedGenerationsOfPlan(md, gens[1..]);
      assert GenerationTexts(gens) == [Decimal.LongToString(gens[0])] + GenerationTexts(gens[1..]);
    }
  }

  lemma {:induction false} DownloadedGenerationsAppend(a: seq<Action>, b: seq<Action>)
    ensures DownloadedGenerations(a + b) == DownloadedGenerations(a) + DownloadedGenerations(b)
  {
    if a == [] {
      assert a + b == b;
    } else {
      assert (a + b)[0] == a[0];
      assert (a + b)[1..] == a[1..] + b;
      DownloadedGenerationsAppend(a[1..], b);
    }
  }

  /**
   * With remote metadata, an attempt downloads the generations from the
   * metadata's generation down to its minimum translog generation, newest
   * first, stopping only at a failure; a successful attempt downloads exactly
   * all of them.
   */
  lemma DownloadsDescendingRange(store: Store, attempt: nat, seedRemote: bool)
    requires store.readMetadata(attempt).Ok? && store.readMetadata(attempt).value.Some?
    ensures var md := store.readMetadata(attempt).value.value;
            var all := GenerationTexts(Descending(md.generation, md.minTranslogGeneration));
            var downloaded := DownloadedGenerations(OnceSpec(store, attempt, seedRemote).0);
            && |downloaded| <= |all| && downloaded == all[..|downloaded|]
            && (OnceSpec(store, attempt, seedRemote).1.Pass? ==> downloaded == all)
  {
    var md := store.readMetadata(attempt).value.value;
    var gens := Descending(md.generation, md.minTranslogGeneration);
    assert OnceSpec(store, attempt, seedRemote) == FromMetadata(store, attempt, md);
    var acts := OnceSpec(store, attempt, seedRemote).0;
    if store.wipeLocal(attempt).None? {
      var plan := DownloadPlan(gens, store, attempt);
      var copy := CopyCheckpoint(CommitCheckpointFileName(md.generation), CHECKPOINT_FILE_NAME);
      var prefix := [WipeLocal] + DownloadActions(md, plan.0);
      DownloadedGenerationsOfPlan(md, plan.0);
      DownloadedGenerationsAppend([WipeLocal], DownloadActions(md, plan.0));
      assert DownloadedGenerations([WipeLocal]) == [];
      assert DownloadedGenerations(prefix) == GenerationTexts(plan.0);
      if plan.1.None? {
        assert acts == prefix + [copy];
        DownloadedGenerationsAppend(prefix, [copy]);
        assert DownloadedGenerations([copy]) == [];
      } else {
        assert acts == prefix;
      }
      TextsOfPrefix(gens, |plan.0|);
    } else {
      assert acts == [WipeLocal];
      assert DownloadedGenerations([WipeLocal]) == [];
    }
  }

  lemma TextsOfPrefix(gens: seq<int>, n: nat)
    requires n <= |gens|
    ensures GenerationTexts(gens[..n]) == GenerationTexts(gens)[..n]
  {
  }

  /**
   * Without remote metadata, local files are reset to an empty translog exactly
   * when a checkpoint exists, the shard is not seeding the remote store and the
   * local translog is not empty; nothing is downloaded.
   */
  lemma ResetOnlyNonEmptyLocal(store: Store, attempt: nat, seedRemote: bool, c: Checkpoint)
    requires store.readMetadata(attempt) == Ok(None)
    ensures CreateEmptyTranslog(c) in OnceSpec(store, attempt, seedRemote).0
        <==> store.localCheckpoint(attempt) == Some(Ok(c)) && !seedRemote && !IsEmptyTranslog(c)
    ensures DownloadedGenerations(OnceSpec(store, attempt, seedRemote).0) == []
  {
  }

  /** `downloadOnce`: one attempt, with remote metadata or without. */
  method DownloadOnce(store: Store, attempt: nat, seedRemote: bool) returns (actions: seq<Action>, r: Outcome<IoError>)
    ensures (actions, r) == OnceSpec(store, attempt, seedRemote)
  {
    var translogMetadata := store.readMetadata(attempt);
    if translogMetadata.Err? {
      return [], Fail(translogMetadata.error);
    }
    if translogMetadata.value.Some? {
      actions, r := DownloadFromMetadata(store, attempt, translogMetadata.value.value);
    } else {
      actions, r := ResetWithoutMetadata(store, attempt, seedRemote);
    }
  }

  /** The metadata branch: wipe, then the downloads newest first, then the checkpoint copy. */
  method DownloadFromMetadata(store: Store, attempt: nat, md: RemoteMetadata) returns (actions: seq<Action>, r: Outcome<IoError>)
    ensures (actions, r) == FromMetadata(store, attempt, md)
  {
    var wipe := store.wipeLocal(attempt);
    if wipe.Some? {
      return [WipeLocal], Fail(wipe.value);
    }
    var downloads, failure := DownloadGenerations(store, attempt, md);
    actions := [WipeLocal] + downloads;
    if failure.Some? {
      return actions, Fail(failure.value);
    }
    actions := actions + [CopyCheckpoint(CommitCheckpointFileName(md.generation), CHECKPOINT_FILE_NAME)];
    var copied := store.copyCheckpoint(attempt);
    if copied.Some? {
      return actions, Fail(copied.value);
    }
    return actions, Pass;
  }

  /**
   * The loop counting down from the metadata's generation to its minimum
   * translog generation, downloading each one and stopping at the first failure.
   */
  method DownloadGenerations(store: Store, attempt: nat, md: RemoteMetadata) returns (downloads: seq<Action>, failure: Option<IoError>)
    ensures var plan := DownloadPlan(Descending(md.generation, md.minTranslogGeneration), store, attempt);
            downloads == DownloadActions(md, plan.0) && failure == plan.1
  {
    ghost var gens := Descending(md.generation, md.minTranslogGeneration);
    downloads := [];
    var i := md.generation;
    while i >= md.minTranslogGeneration
      invariant 0 <= md.generation - i <= |gens|
      invariant downloads == DownloadActions(md, gens[..md.generation - i])
      invariant forall k :: 0 <= k < md.generation - i ==> store.downloadTranslog(attempt, gens[k]).None?
      decreases i - md.minTranslogGeneration
    {
      ghost var done := gens[..md.generation - i];
      var downloadFailure := store.downloadTranslog(attempt, i);
      downloads := downloads + [DownloadAction(md, i)];
      assert gens[..md.generation - i + 1] == done + [i];
      assert DownloadActions(md, done + [i]) == DownloadActions(md, done) + [DownloadAction(md, i)];
      assert gens[md.generation - i] == i;
      if downloadFailure.Some? {
        PlanStopsAt(gens, store, attempt, md.generation - i);
        return downloads, downloadFailure;
      }
      i := i - 1;
    }
    assert gens[..md.generation - i] == gens;
    PlanCompletes(gens, store, attempt);
    return downloads, None;
  }

  /** The branch without remote metadata: a non-empty local translog is reset, unless seeding. */
  method ResetWithoutMetadata(store: Store, attempt: nat, seedRemote: bool) returns (actions: seq<Action>, r: Outcome<IoError>)
    ensures (actions, r) == WithoutMetadata(store, attempt, seedRemote)
  {
    var local := store.localCheckpoint(attempt);
    if local.None? {
      return [], Pass;
    }
    if local.value.Err? {
      return [], Fail(local.value.error);
    }
    var checkpoint := local.value.value;
    if seedRemote {
      return [], Pass;
    } else if !IsEmptyTranslog(checkpoint) {
      actions := [CreateEmptyTranslog(checkpoint)];
      var created := store.createEmptyTranslog(attempt);
      if created.Some? {
        return actions, Fail(created.value);
      }
      return actions, Pass;
    }
    return [], Pass;
  }

  /** A plan whose first `n` downloads succeed and whose next one fails stops there. */
  lemma {:induction false} PlanStopsAt(gens: seq<int>, store: Store, attempt: nat, n: nat)
    requires n < |gens|
    requires forall k :: 0 <= k < n ==> store.downloadTranslog(attempt, gens[k]).None?
    requires store.downloadTranslog(attempt, gens[n]).Some?
    ensures DownloadPlan(gens, store, attempt) == (gens[..n + 1], store.downloadTranslog(attempt, gens[n]))
  {
    if n > 0 {
      PlanStopsAt(gens[1..], store, attempt, n - 1);
      assert gens[..n + 1] == [gens[0]] + gens[1..][..n];
    }
  }

  /** A plan whose downloads all succeed attempts every generation. */
  lemma {:induction false} PlanCompletes(gens: seq<int>, store: Store, attempt: nat)
    requires forall k :: 0 <= k < |gens| ==> store.downloadTranslog(attempt, gens[k]).None?
    ensures DownloadPlan(gens, store, attempt) == (gens, None)
  {
    if gens != [] {
      PlanCompletes(gens[1..], store, attempt);
      assert gens == [gens[0]] + gens[1..];
    }
  }

  /**
   * `download`: up to `DOWNLOAD_RETRIES + 1` attempts. A success returns at once,
   * a retryable error leads to the next attempt, any other error is thrown at
   * once, and after the last attempt the last retryable error is thrown.
   */
  method Download(store: Store, seedRemote: bool) returns (attempts: nat, r: Outcome<IoError>)
    ensures 1 <= attempts <= DOWNLOAD_RETRIES + 1
    ensures forall k :: 0 <= k < attempts - 1 ==>
              OnceSpec(store, k, seedRemote).1.Fail? && Retryable(OnceSpec(store, k, seedRemote).1.error)
    ensures r == OnceSpec(store, attempts - 1, seedRemote).1
    ensures attempts < DOWNLOAD_RETRIES + 1 ==> !(r.Fail? && Retryable(r.error))
  {
    var ex: Option<IoError> := None;
    var i := 0;
    while i <= DOWNLOAD_RETRIES
      invariant 0 <= i <= DOWNLOAD_RETRIES + 1
      invariant forall k :: 0 <= k < i ==>
                  OnceSpec(store, k, seedRemote).1.Fail? && Retryable(OnceSpec(store, k, seedRemote).1.error)
      invariant i > 0 ==> ex == Some(OnceSpec(store, i - 1, seedRemote).1.error)
    {
      var actions, once := DownloadOnce(store, i, seedRemote);
      if once.Pass? {
        return i + 1, Pass;
      }
      if !Retryable(once.error) {
        return i + 1, once;
      }
      ex := Some(once.error);
      i := i + 1;
    }
    return i, Fail(ex.value);
  }
}
