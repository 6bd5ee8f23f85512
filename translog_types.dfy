/**
 * Values the remote translog reads from the local translog: checkpoints,
 * closed readers and translog file names.
 *
 * The local translog (class Translog, its readers, writers and file naming) is
 * not part of this model; only the fields the remote translog reads are kept.
 */
module TranslogTypes {
  import opened Common
  import Decimal

  /** Sequence number of an operation slot that never held an operation. */
  const NO_OPS_PERFORMED: int := -1

  /** Per-generation summary record written next to each translog file. */
  datatype Checkpoint = Checkpoint(
    generation: int,
    minTranslogGeneration: int,
    minSeqNo: int,
    maxSeqNo: int,
    numOps: int,
    globalCheckpoint: int)

  /** A sealed, read-only local translog generation. */
  datatype TranslogReader = TranslogReader(
    generation: int,
    primaryTerm: int,
    checkpoint: Checkpoint,
    path: string,
    translogChecksum: int,
    checkpointChecksum: int)

  /**
   * A checkpoint describes an empty translog: its generation is its own minimum
   * generation, it records no sequence numbers and no operations.
   */
  predicate IsEmptyTranslog(c: Checkpoint) {
    && c.generation == c.minTranslogGeneration
    && c.minSeqNo == NO_OPS_PERFORMED
    && c.maxSeqNo == NO_OPS_PERFORMED
    && c.numOps == 0
  }

  const TRANSLOG_FILE_PREFIX: string := "translog-"
  const TRANSLOG_FILE_SUFFIX: string := ".tlog"
  const CHECKPOINT_SUFFIX: string := ".ckp"

  /** Name of the translog file of a generation, `translog-<g>.tlog`. */
  function TranslogFileName(generation: int): string {
    TRANSLOG_FILE_PREFIX + Decimal.LongToString(generation) + TRANSLOG_FILE_SUFFIX
  }

  /** Name of the commit checkpoint file of a generation, `translog-<g>.ckp`. */
  function CommitCheckpointFileName(generation: int): string {
    TRANSLOG_FILE_PREFIX + Decimal.LongToString(generation) + CHECKPOINT_SUFFIX
  }

  /**
   * Generation of a translog file name `translog-<digits>.tlog`; None where the
   * local translog would throw because the name does not have that shape or the
   * digits overflow a long.
   */
  function ParseIdFromFileName(name: string): (r: Option<int>)
    ensures r.Some? ==> EndsWith(name, TRANSLOG_FILE_SUFFIX)
  {
    if |name| >= |TRANSLOG_FILE_PREFIX| + |TRANSLOG_FILE_SUFFIX|
       && name[..|TRANSLOG_FILE_PREFIX|] == TRANSLOG_FILE_PREFIX
       && EndsWith(name, TRANSLOG_FILE_SUFFIX)
    then
      var digits := name[|TRANSLOG_FILE_PREFIX|..|name| - |TRANSLOG_FILE_SUFFIX|];
      if digits != [] && Decimal.AllDigits(digits) then Decimal.ParseLong(digits) else None
    else None
  }

  /** The generation is read back from the translog file name it was written into. */
  lemma ParseTranslogFileName(generation: int)
    requires 0 <= generation <= LONG_MAX
    ensures ParseIdFromFileName(TranslogFileName(generation)) == Some(generation)
  {
    var name := TranslogFileName(generation);
    var text := Decimal.LongToString(generation);
    assert name[|TRANSLOG_FILE_PREFIX|..|name| - |TRANSLOG_FILE_SUFFIX|] == text;
    assert name[..|TRANSLOG_FILE_PREFIX|] == TRANSLOG_FILE_PREFIX;
    assert name[|name| - |TRANSLOG_FILE_SUFFIX|..] == TRANSLOG_FILE_SUFFIX;
    Decimal.ParseLongToString(generation);
  }
}
