/**
 * The pure and array-filling parts of the test blob container that stores a
 * translog file's checkpoint from the upload's metadata and reads it back
 * (MockFsMetadataSupportedBlobContainer).
 *
 * The container's directory is a map from blob name to bytes. Base64 coding of
 * the checkpoint is left out: the metadata value is the checkpoint's bytes.
 * Per-part threads run one after another, in part order.
 */
module MockBlobContainer {
  import opened Common

  newtype byte = x: int | 0 <= x < 256

  type Directory = map<string, seq<byte>>

  /** Number of parts an upload is split into. */
  const N_PARTS: nat := 10
  /** Number of parts the read path aims at; the part size is the length divided by it. */
  const READ_PARTS: nat := 10

  const TLOG_SUFFIX: string := ".tlog"
  const CKP_SUFFIX: string := ".ckp"
  const CKP_DATA_KEY: string := "ckp-data"

  datatype BlobError =
    | IllegalArgument(name: string)
    | FileAlreadyExists(name: string)
    | NoSuchFile(name: string)
    | NullPointer
    | IncorrectContentLength(fileSize: nat, bytesRead: nat)
    | CorruptIndex(name: string)
    | FinalizerFailed
    | ArithmeticDivideByZero

  /**
   * What an upload does: throw out of `asyncBlobUpload`, report a failure to
   * the completion listener, or report success after finalizing.
   */
  datatype UploadResult = Thrown(error: BlobError) | ListenerFailure(failure: BlobError) | Completed

  /** Everything the upload reads from its write context. */
  datatype WriteContext = WriteContext(
    fileName: string,
    fileSize: nat,
    metadata: Option<map<string, seq<byte>>>,
    parts: seq<seq<byte>>)

  function Zeros(n: nat): (z: seq<byte>)
    ensures |z| == n && forall i :: 0 <= i < n ==> z[i] == 0
  {
    seq(n, _ => 0)
  }

  /** Index of the last occurrence of `c` in `s`, -1 when there is none. */
  function LastIndexOf(s: string, c: char): (i: int)
    ensures -1 <= i < |s|
    ensures i >= 0 ==> s[i] == c && forall j :: i < j < |s| ==> s[j] != c
    ensures i == -1 ==> forall j :: 0 <= j < |s| ==> s[j] != c
  {
    if s == [] then -1
    else if s[|s| - 1] == c then |s| - 1
    else LastIndexOf(s[..|s| - 1], c)
  }

  /**
   * The checkpoint's blob name for a translog blob name: the name up to its last
   * dot, then `.ckp`; a name that does not end in `.tlog` is an IllegalArgumentException.
   */
  function GetCheckpointFileName(translogFileName: string): (r: Result<string, BlobError>)
    ensures r.Err? <==> !EndsWith(translogFileName, TLOG_SUFFIX)
    ensures r.Err? ==> r.error == IllegalArgument(translogFileName)
    ensures r.Ok? ==> EndsWith(r.value, CKP_SUFFIX)
  {
    if !EndsWith(translogFileName, TLOG_SUFFIX) then Err(IllegalArgument(translogFileName))
    else
      var dotIndex := LastIndexOf(translogFileName, '.');
      assert translogFileName[|translogFileName| - 5] == '.';
      var r := translogFileName[..dotIndex] + CKP_SUFFIX;
      assert r[|r| - |CKP_SUFFIX|..] == CKP_SUFFIX;
      Ok(r)
  }

  /** `b.tlog` maps to `b.ckp`, whatever dots `b` itself contains. */
  lemma CheckpointNameOfTranslogName(base: string)
    ensures GetCheckpointFileName(base + TLOG_SUFFIX) == Ok(base + CKP_SUFFIX)
  {
    var name := base + TLOG_SUFFIX;
    assert name[|name| - |TLOG_SUFFIX|..] == TLOG_SUFFIX;
    assert name[|base|] == '.';
    assert forall j :: |base| < j < |name| ==> name[j] != '.';
    assert LastIndexOf(name, '.') == |base|;
    assert name[..|base|] == base;
  }

  /** Anything that is neither a translog file nor a checkpoint file is a segment file. */
  predicate IsSegmentFile(name: string) {
    !EndsWith(name, TLOG_SUFFIX) && !EndsWith(name, CKP_SUFFIX)
  }

  lemma TranslogAndCheckpointAreNotSegments(base: string)
    ensures !IsSegmentFile(base + TLOG_SUFFIX) && !IsSegmentFile(base + CKP_SUFFIX)
  {
    var t := base + TLOG_SUFFIX;
    var c := base + CKP_SUFFIX;
    assert t[|t| - |TLOG_SUFFIX|..] == TLOG_SUFFIX;
    assert c[|c| - |CKP_SUFFIX|..] == CKP_SUFFIX;
  }

  /** A name ending in `.tlog` does not end in `.ckp`. */
  lemma SuffixesDiffer(name: string)
    requires EndsWith(name, TLOG_SUFFIX)
    ensures !EndsWith(name, CKP_SUFFIX)
  {
    assert name[|name| - 1] == 'g';
  }

  // ---------------------------------------------------------------- upload

  /**
   * The checkpoint carried as metadata is written first, under the checkpoint
   * name of the blob, and never over an existing blob. No metadata: nothing is
   * written. Metadata without the checkpoint key: the null value makes the
   * decoder throw.
   */
  function StoreCheckpoint(dir: Directory, ctx: WriteContext): (r: Result<Directory, BlobError>)
    ensures ctx.metadata.None? ==> r == Ok(dir)
    ensures r.Ok? && ctx.metadata.Some? ==>
              && EndsWith(ctx.fileName, TLOG_SUFFIX)
              && CKP_DATA_KEY in ctx.metadata.value
              && var ckpName := GetCheckpointFileName(ctx.fileName).value;
                 ckpName !in dir && r.value == dir[ckpName := ctx.metadata.value[CKP_DATA_KEY]]
  {
    match ctx.metadata
    case None => Ok(dir)
    case Some(m) =>
      if CKP_DATA_KEY !in m then Err(NullPointer)
      else
        match GetCheckpointFileName(ctx.fileName)
        case Err(e) => Err(e)
        case Ok(ckpName) =>
          if ckpName in dir then Err(FileAlreadyExists(ckpName)) else Ok(dir[ckpName := m[CKP_DATA_KEY]])
  }

  /** Bytes `data` laid into `buf` at `offset`; a part that does not fit leaves `buf` as it is. */
  function Overlay(buf: seq<byte>, offset: nat, data: seq<byte>): (r: seq<byte>)
    ensures |r| == |buf|
  {
    if offset + |data| <= |buf| then buf[..offset] + data + buf[offset + |data|..] else buf
  }

  /** The buffer after the parts `0..|parts|` are copied, part `i` at offset `i * partSize`. */
  function Assemble(fileSize: nat, partSize: nat, parts: seq<seq<byte>>): (r: seq<byte>)
    ensures |r| == fileSize
  {
    if parts == [] then Zeros(fileSize)
    else
      var k := |parts| - 1;
      Overlay(Assemble(fileSize, partSize, parts[..k]), partSize * k, parts[k])
  }

  /** Bytes counted by the parts `0..|parts|`; a part that does not fit counts nothing. */
  function BytesRead(fileSize: nat, partSize: nat, parts: seq<seq<byte>>): nat {
    if parts == [] then 0
    else
      var k := |parts| - 1;
      BytesRead(fileSize, partSize, parts[..k]) + (if partSize * k + |parts[k]| <= fileSize then |parts[k]| else 0)
  }

  /**
   * What follows the copy: a byte count different from the declared size is an
   * IOException; otherwise a segment file fails the injected integrity check
   * when asked to, and everything else is finalized and reported complete.
   */
  function Completion(fileName: string, fileSize: nat, bytesRead: nat, triggerDataIntegrityFailure: bool, finalizerFails: bool): UploadResult {
    if fileSize != bytesRead then Thrown(IncorrectContentLength(fileSize, bytesRead))
    else if IsSegmentFile(fileName) && triggerDataIntegrityFailure then ListenerFailure(CorruptIndex(fileName))
    else if finalizerFails then ListenerFailure(FinalizerFailed)
    else Completed
  }

  /**
   * One part thread: reads the part into `buffer` from `offset` on, in chunks
   * of the sizes `chunk` proposes (at least one byte, at most what remains).
   * A part that does not fit makes the first read throw before it copies
   * anything, and the thread ends having counted nothing.
   */
  method CopyPart(buffer: array<byte>, offset: nat, data: seq<byte>, chunk: nat -> nat) returns (read: nat)
    modifies buffer
    ensures buffer[..] == Overlay(old(buffer[..]), offset, data)
    ensures read == if offset + |data| <= buffer.Length then |data| else 0
  {
    if offset + |data| > buffer.Length {
      return 0;
    }
    ghost var original := buffer[..];
    var remainingContentLength: nat := |data|;
    var position := offset;
    read := 0;
    var round := 0;
    while remainingContentLength > 0
      invariant read + remainingContentLength == |data|
      invariant position == offset + read
      invariant forall k :: 0 <= k < buffer.Length ==> buffer[k] == PartByte(original, offset, data, read, k)
      decreases remainingContentLength
    {
      var n := chunk(round);
      if n == 0 || n > remainingContentLength {
        n := remainingContentLength;
      }
      var j := 0;
      while j < n
        invariant 0 <= j <= n
        invariant forall k :: 0 <= k < buffer.Length ==> buffer[k] == PartByte(original, offset, data, read + j, k)
      {
        buffer[position + j] := data[read + j];
        j := j + 1;
      }
      read := read + n;
      remainingContentLength := remainingContentLength - n;
      position := position + n;
      round := round + 1;
    }
    OverlayIndex(original, offset, data);
  }

  /** Byte `k` of `buf` once the first `copied` bytes of `data` are laid in at `offset`. */
  function PartByte(buf: seq<byte>, offset: nat, data: seq<byte>, copied: nat, k: nat): byte
    requires copied <= |data| && k < |buf|
  {
    if offset <= k < offset + copied then data[k - offset] else buf[k]
  }

  lemma OverlayIndex(buf: seq<byte>, offset: nat, data: seq<byte>)
    requires offset + |data| <= |buf|
    ensures forall k :: 0 <= k < |buf| ==> Overlay(buf, offset, data)[k] == PartByte(buf, offset, data, |data|, k)
  {
    var r := Overlay(buf, offset, data);
    assert r == buf[..offset] + data + buf[offset + |data|..];
    forall k | 0 <= k < |buf|
      ensures r[k] == PartByte(buf, offset, data, |data|, k)
    {
      if k < offset {
        assert r[k] == buf[..offset][k];
      } else if k < offset + |data| {
        assert r[k] == data[k - offset];
      } else {
        assert r[k] == buf[offset + |data|..][k - offset - |data|];
      }
    }
  }

  /**
   * `asyncBlobUpload`: store the checkpoint from the metadata, copy every part
   * into a buffer of the declared size, write the buffer as a new blob, then
   * compare the bytes read with the declared size and complete.
   */
  method AsyncBlobUpload(
    dir: Directory,
    ctx: WriteContext,
    triggerDataIntegrityFailure: bool,
    finalizerFails: bool,
    chunk: nat -> nat) returns (dir': Directory, result: UploadResult)
    ensures var stored := StoreCheckpoint(dir, ctx);
            && (stored.Err? ==> dir' == dir && result == Thrown(stored.error))
            && (stored.Ok? && ctx.fileName in stored.value ==>
                  dir' == stored.value && result == Thrown(FileAlreadyExists(ctx.fileName)))
            && (stored.Ok? && ctx.fileName !in stored.value ==>
                  && dir' == stored.value[ctx.fileName := Assemble(ctx.fileSize, ctx.fileSize / N_PARTS, ctx.parts)]
                  && result == Completion(ctx.fileName, ctx.fileSize,
                                          BytesRead(ctx.fileSize, ctx.fileSize / N_PARTS, ctx.parts),
                                          triggerDataIntegrityFailure, finalizerFails))
  {
    var partSize := ctx.fileSize / N_PARTS;
    var buffer := new byte[ctx.fileSize];
    forall i | 0 <= i < buffer.Length {
      buffer[i] := 0;
    }
    assert buffer[..] == Zeros(ctx.fileSize);
    var stored := StoreCheckpoint(dir, ctx);
    if stored.Err? {
      return dir, Thrown(stored.error);
    }
    dir' := stored.value;
    var totalContentRead := 0;
    var partIdx := 0;
    while partIdx < |ctx.parts|
      invariant 0 <= partIdx <= |ctx.parts|
      invariant buffer[..] == Assemble(ctx.fileSize, partSize, ctx.parts[..partIdx])
      invariant totalContentRead == BytesRead(ctx.fileSize, partSize, ctx.parts[..partIdx])
    {
      var n := CopyPart(buffer, partSize * partIdx, ctx.parts[partIdx], chunk);
      assert ctx.parts[..partIdx + 1][..partIdx] == ctx.parts[..partIdx];
      totalContentRead := totalContentRead + n;
      partIdx := partIdx + 1;
    }
    assert ctx.parts[..partIdx] == ctx.parts;
    if ctx.fileName in dir' {
      return dir', Thrown(FileAlreadyExists(ctx.fileName));
    }
    dir' := dir'[ctx.fileName := buffer[..]];
    result := Completion(ctx.fileName, ctx.fileSize, totalContentRead, triggerDataIntegrityFailure, finalizerFails);
  }

  /** The injected integrity failure only ever hits segment files. */
  lemma IntegrityFailureOnlyForSegments(fileName: string, fileSize: nat, bytesRead: nat, trigger: bool, finalizerFails: bool)
    ensures Completion(fileName, fileSize, bytesRead, trigger, finalizerFails).ListenerFailure?
         && Completion(fileName, fileSize, bytesRead, trigger, finalizerFails).failure.CorruptIndex?
        ==> IsSegmentFile(fileName) && trigger
    ensures !IsSegmentFile(fileName) && fileSize == bytesRead && !finalizerFails
        ==> Completion(fileName, fileSize, bytesRead, trigger, finalizerFails) == Completed
    ensures fileSize != bytesRead
        ==> Completion(fileName, fileSize, bytesRead, trigger, finalizerFails) == Thrown(IncorrectContentLength(fileSize, bytesRead))
  {
  }

  // ---------------------------------------------------------------- read back

  /** `readBlob`: the bytes of a blob, NoSuchFileException when it is absent. */
  function ReadBlob(dir: Directory, name: string): (r: Result<seq<byte>, BlobError>)
    ensures r.Ok? <==> name in dir
  {
    if name in dir then Ok(dir[name]) else Err(NoSuchFile(name))
  }

  /** `readBlobWithMetadata`: the blob, and as its metadata the checkpoint stored under its checkpoint name. */
  function ReadBlobWithMetadata(dir: Directory, blobName: string): Result<(seq<byte>, seq<byte>), BlobError> {
    match ReadBlob(dir, blobName)
    case Err(e) => Err(e)
    case Ok(data) =>
      match GetCheckpointFileName(blobName)
      case Err(e) => Err(e)
      case Ok(ckpName) =>
        match ReadBlob(dir, ckpName)
        case Err(e) => Err(e)
        case Ok(ckp) => Ok((data, ckp))
  }

  /**
   * An upload that stored a checkpoint from its metadata and then wrote the blob
   * lets `readBlobWithMetadata` return that blob with exactly that checkpoint.
   */
  lemma CheckpointMetadataRoundTrip(dir: Directory, ctx: WriteContext, data: seq<byte>)
    requires ctx.metadata.Some?
    requires StoreCheckpoint(dir, ctx).Ok?
    requires ctx.fileName !in StoreCheckpoint(dir, ctx).value
    ensures ReadBlobWithMetadata(StoreCheckpoint(dir, ctx).value[ctx.fileName := data], ctx.fileName)
         == Ok((data, ctx.metadata.value[CKP_DATA_KEY]))
  {
    var ckpName := GetCheckpointFileName(ctx.fileName).value;
    SuffixesDiffer(ctx.fileName);
    assert ckpName != ctx.fileName;
  }

  // ---------------------------------------------------------------- ranged reads

  /** A ranged read of a blob: its declared offset and length, and the bytes it yields. */
  datatype BlobPart = BlobPart(offset: nat, declaredLength: nat, bytes: seq<byte>)

  /** `readBlobAsync`'s part size: a tenth of the length, rounded down. */
  function PartSize(contentLength: nat): nat {
    contentLength / READ_PARTS
  }

  /** The number of parts: the length divided by the part size, rounded up. */
  function NumberOfParts(contentLength: nat): nat
    requires PartSize(contentLength) > 0
  {
    var partSize := PartSize(contentLength);
    if contentLength % partSize == 0 then contentLength / partSize else contentLength / partSize + 1
  }

  /** The part size is zero exactly when the blob is shorter than ten bytes. */
  lemma PartSizeZeroIffShort(contentLength: nat)
    ensures PartSize(contentLength) == 0 <==> contentLength < 10
  {
  }

  /**
   * For a blob of at least ten bytes the parts cover the blob: all parts but
   * the last end inside it, the last one reaches its end, and there are
   * between ten and nineteen of them.
   */
  lemma MulMonotonic(a: int, b: int, p: nat)
    requires a <= b
    ensures a * p <= b * p
  {
  }

  /** Quotient and remainder are the only pair with `n == q * p + r` and `0 <= r < p`. */
  lemma DivModUnique(n: int, p: int, q: int, r: int)
    requires p > 0 && 0 <= r < p && n == q * p + r
    ensures n / p == q && n % p == r
  {
    var q0, r0 := n / p, n % p;
    assert n == q0 * p + r0 && 0 <= r0 < p;
    if q0 > q {
      MulMonotonic(q + 1, q0, p);
    } else if q0 < q {
      MulMonotonic(q0 + 1, q, p);
    }
  }

  /**
   * For a blob of at least ten bytes the parts cover the blob: all parts but
   * the last end inside it, the last one reaches its end, and there are
   * between ten and nineteen of them.
   */
  lemma PartsCoverBlob(contentLength: nat)
    requires contentLength >= 10
    ensures PartSize(contentLength) > 0
    ensures var n, p := NumberOfParts(contentLength), PartSize(contentLength);
            (n - 1) * p < contentLength <= n * p
    ensures 10 <= NumberOfParts(contentLength) <= 19
  {
    var p := PartSize(contentLength);
    DivModUnique(contentLength, READ_PARTS, p, contentLength % READ_PARTS);
    var rem := contentLength % READ_PARTS;
    assert contentLength == 10 * p + rem && 0 <= rem < 10 && p >= 1;
    var q, r := 10 + rem / p, rem % p;
    assert rem == (rem / p) * p + r;
    assert contentLength == q * p + r by {
      assert q * p == 10 * p + (rem / p) * p;
    }
    DivModUnique(contentLength, p, q, r);
    assert rem / p <= rem by {
      MulMonotonic(1, p, rem / p);
    }
    var n := NumberOfParts(contentLength);
    if r == 0 {
      assert n == q;
      assert (n - 1) * p == q * p - p;
    } else {
      assert n == q + 1;
      assert n * p == q * p + p;
      assert p >= 2;
      MulMonotonic(2, p, rem / p);
    }
  }

  /** The bytes a ranged read returns: from the offset on, at most the declared length. */
  function RangeBytes(content: seq<byte>, offset: nat, length: nat): seq<byte> {
    if offset >= |content| then [] else content[offset..Min(offset + length, |content|)]
  }

  /** The parts `readBlobAsync` hands out for a blob of at least ten bytes. */
  function ReadParts(content: seq<byte>): (parts: seq<BlobPart>)
    requires |content| >= 10
    ensures |parts| == NumberOfParts(|content|)
    ensures forall i :: 0 <= i < |parts| ==>
              var p := PartSize(|content|);
              parts[i] == BlobPart(i * p, p, RangeBytes(content, i * p, p))
  {
    var p := PartSize(|content|);
    seq(NumberOfParts(|content|), (i: nat) => BlobPart(i * p, p, RangeBytes(content, i * p, p)))
  }

  /** The bytes of the parts, one after another. */
  function ConcatBytes(parts: seq<BlobPart>): seq<byte> {
    if parts == [] then [] else parts[0].bytes + ConcatBytes(parts[1..])
  }

  /**
   * `readBlobAsync`: the parts of a blob, part `i` declared at offset
   * `i * partSize` with length `partSize` (the last one too, even when fewer bytes
   * remain). An absent blob (a null lookup) and a blob shorter than ten bytes (a
   * remainder by zero) are failures reported to the listener.
   */
  method ReadBlobAsync(dir: Directory, blobName: string) returns (r: Result<(nat, seq<BlobPart>), BlobError>)
    ensures blobName !in dir ==> r == Err(NullPointer)
    ensures blobName in dir && |dir[blobName]| < 10 ==> r == Err(ArithmeticDivideByZero)
    ensures blobName in dir && |dir[blobName]| >= 10 ==> r == Ok((|dir[blobName]|, ReadParts(dir[blobName])))
  {
    if blobName !in dir {
      return Err(NullPointer);
    }
    var content := dir[blobName];
    var contentLength := |content|;
    var partSize := contentLength / READ_PARTS;
    if partSize == 0 {
      return Err(ArithmeticDivideByZero);
    }
    var numberOfParts := if contentLength % partSize == 0 then contentLength / partSize else contentLength / partSize + 1;
    var blobPartStreams: seq<BlobPart> := [];
    var partNumber := 0;
    while partNumber < numberOfParts
      invariant 0 <= partNumber <= numberOfParts
      invariant |blobPartStreams| == partNumber
      invariant forall i :: 0 <= i < partNumber ==>
                  blobPartStreams[i] == BlobPart(i * partSize, partSize, RangeBytes(content, i * partSize, partSize))
    {
      var offset := partNumber * partSize;
      blobPartStreams := blobPartStreams + [BlobPart(offset, partSize, RangeBytes(content, offset, partSize))];
      partNumber := partNumber + 1;
    }
    assert blobPartStreams == ReadParts(content);
    r := Ok((contentLength, blobPartStreams));
  }

  /** Parts `i..n` of a ranged split of `content` at part size `p`. */
  function PartsFrom(content: seq<byte>, p: nat, i: nat, n: nat): seq<BlobPart>
    decreases n - i
  {
    if i >= n then [] else [BlobPart(i * p, p, RangeBytes(content, i * p, p))] + PartsFrom(content, p, i + 1, n)
  }

  lemma {:induction false} PartsFromBeyondEnd(content: seq<byte>, p: nat, i: nat, n: nat)
    requires i * p >= |content|
    ensures ConcatBytes(PartsFrom(content, p, i, n)) == []
    decreases n - i
  {
    if i < n {
      MulMonotonic(i, i + 1, p);
      PartsFromBeyondEnd(content, p, i + 1, n);
    }
  }

  lemma {:induction false} PartsFromCover(content: seq<byte>, p: nat, i: nat, n: nat)
    requires p > 0 && i <= n && i * p <= |content| <= n * p
    ensures ConcatBytes(PartsFrom(content, p, i, n)) == content[i * p..]
    decreases n - i
  {
    var lo := i * p;
    if i == n {
      assert lo == |content|;
    } else {
      var hi := lo + p;
      assert (i + 1) * p == hi;
      var first := BlobPart(lo, p, RangeBytes(content, lo, p));
      var rest := PartsFrom(content, p, i + 1, n);
      assert PartsFrom(content, p, i, n) == [first] + rest;
      assert ConcatBytes(PartsFrom(content, p, i, n)) == first.bytes + ConcatBytes(rest);
      if hi <= |content| {
        PartsFromCover(content, p, i + 1, n);
        assert first.bytes == content[lo..hi];
        assert content[lo..] == content[lo..hi] + content[hi..];
      } else {
        PartsFromBeyondEnd(content, p, i + 1, n);
        assert first.bytes == content[lo..];
      }
    }
  }

  /** Reading the parts one after another gives back exactly the blob. */
  lemma ReadPartsReassemble(content: seq<byte>)
    requires |content| >= 10
    ensures ConcatBytes(ReadParts(content)) == content
  {
    var p, n := PartSize(|content|), NumberOfParts(|content|);
    PartsCoverBlob(|content|);
    assert ReadParts(content) == PartsFrom(content, p, 0, n) by {
      PartsFromIndex(content, p, 0, n);
    }
    PartsFromCover(content, p, 0, n);
  }

  lemma {:induction false} PartsFromIndex(content: seq<byte>, p: nat, i: nat, n: nat)
    requires i <= n
    ensures |PartsFrom(content, p, i, n)| == n - i
    ensures forall k :: 0 <= k < n - i ==>
              PartsFrom(content, p, i, n)[k] == BlobPart((i + k) * p, p, RangeBytes(content, (i + k) * p, p))
    decreases n - i
  {
    if i < n {
      PartsFromIndex(content, p, i + 1, n);
      var all := PartsFrom(content, p, i, n);
      var rest := PartsFrom(content, p, i + 1, n);
      assert all == [BlobPart(i * p, p, RangeBytes(content, i * p, p))] + rest;
      forall k | 0 <= k < n - i
        ensures all[k] == BlobPart((i + k) * p, p, RangeBytes(content, (i + k) * p, p))
      {
        if k > 0 {
          assert all[k] == rest[k - 1];
          assert i + 1 + (k - 1) == i + k;
        }
      }
    }
  }
}
