/**
 * The two transfer snapshots of a remote translog upload: the one that sends
 * translog and checkpoint files (TranslogCheckpointTransferSnapshot) and the one
 * that sends translog files carrying their checkpoint (TranslogSyncSnapshot).
 *
 * Both builders run the same loop over the readers: collect a file snapshot per
 * reader, track the highest generation (with its primary term and minimum
 * translog generation) and the lowest generation, then check consistency with
 * Java assertions. Such an assertion is evaluated only when the JVM runs with
 * assertions enabled, which is the `assertionsEnabled` parameter here.
 */
module TransferSnapshots {
  import opened Common
  import opened TranslogTypes

  /** A translog file and its checkpoint file, as the checkpoint transfer snapshot sends them. */
  datatype TranslogAndCheckpointFileSnapshot = TranslogAndCheckpointFileSnapshot(
    primaryTerm: int,
    generation: int,
    minTranslogGeneration: int,
    translogPath: string,
    translogChecksum: int,
    checkpointPath: string,
    checkpointChecksum: int,
    checkpointGeneration: int)

  /** A translog file with its checkpoint, as the sync snapshot sends them. */
  datatype TranslogCheckpointSnapshot = TranslogCheckpointSnapshot(
    primaryTerm: int,
    generation: int,
    minTranslogGeneration: int,
    translogPath: string,
    checkpointPath: string,
    translogChecksum: int,
    checkpointChecksum: int,
    checkpoint: Checkpoint,
    checkpointGeneration: int)

  /** The metadata record a snapshot describes itself with. */
  datatype TranslogTransferMetadata = TranslogTransferMetadata(
    primaryTerm: int,
    generation: int,
    minTranslogGeneration: int,
    count: nat,
    nodeId: string)

  /** The assertion a build trips over, in the order the builder evaluates them. */
  datatype BuildError =
    | CheckpointGenerationMismatch(generation: int)
    | InconsistentPrimaryTerm
    | InconsistentGeneration
    | NegativeLimit(limit: int)
    | GenerationGaps

  /** Failure of `close`: one IOException carrying every close failure as suppressed. */
  datatype CloseError = CloseError(suppressed: set<TranslogAndCheckpointFileSnapshot>)

  /** `location.resolve(name)`. */
  function Resolve(location: string, name: string): string {
    location + "/" + name
  }

  // ---------------------------------------------------------------- the fold

  /** The four locals of the builders' loop. */
  datatype FoldState = FoldState(
    highestGeneration: int,
    highestGenPrimaryTerm: int,
    highestGenMinTranslogGeneration: int,
    lowestGeneration: int)

  const INITIAL_FOLD: FoldState := FoldState(LONG_MIN, LONG_MIN, LONG_MIN, LONG_MAX)

  /** One iteration: a strictly higher generation replaces the highest, the lowest is a minimum. */
  function Step(s: FoldState, reader: TranslogReader): FoldState {
    var high := if reader.generation > s.highestGeneration
                then FoldState(reader.generation, reader.primaryTerm, reader.checkpoint.minTranslogGeneration, s.lowestGeneration)
                else s;
    high.(lowestGeneration := Min(s.lowestGeneration, reader.generation))
  }

  /** The loop over the readers, first to last. */
  function Fold(readers: seq<TranslogReader>): FoldState {
    if readers == [] then INITIAL_FOLD else Step(Fold(readers[..|readers| - 1]), readers[|readers| - 1])
  }

  /** Reader `i` holds the highest generation and no earlier reader does. */
  predicate IsFirstHighest(readers: seq<TranslogReader>, i: int) {
    && 0 <= i < |readers|
    && (forall j :: 0 <= j < |readers| ==> readers[j].generation <= readers[i].generation)
    && (forall j :: 0 <= j < i ==> readers[j].generation < readers[i].generation)
  }

  /** The index of the first reader with the highest generation. */
  function FirstHighestIndex(readers: seq<TranslogReader>): (i: nat)
    requires readers != []
    ensures i < |readers|
  {
    if |readers| == 1 then 0
    else
      var i := FirstHighestIndex(readers[..|readers| - 1]);
      if readers[|readers| - 1].generation > readers[i].generation then |readers| - 1 else i
  }

  /**
   * The fold's highest-generation fields all come from the first reader with the
   * highest generation: its generation, its primary term and the minimum translog
   * generation of its checkpoint (not the minimum over all readers).
   */
  lemma {:induction false} FoldHighest(readers: seq<TranslogReader>)
    requires readers != []
    requires forall j :: 0 <= j < |readers| ==> readers[j].generation > LONG_MIN
    ensures IsFirstHighest(readers, FirstHighestIndex(readers))
    ensures Fold(readers).highestGeneration == readers[FirstHighestIndex(readers)].generation
    ensures Fold(readers).highestGenPrimaryTerm == readers[FirstHighestIndex(readers)].primaryTerm
    ensures Fold(readers).highestGenMinTranslogGeneration == readers[FirstHighestIndex(readers)].checkpoint.minTranslogGeneration
  {
    var n := |readers| - 1;
    var prefix := readers[..n];
    assert Fold(readers) == Step(Fold(prefix), readers[n]);
    if n == 0 {
      assert Fold(readers) == Step(INITIAL_FOLD, readers[0]);
      assert IsFirstHighest(readers, 0);
    } else {
      FoldHighest(prefix);
      var i := FirstHighestIndex(prefix);
      assert forall j :: 0 <= j < n ==> readers[j] == prefix[j];
      if readers[n].generation > prefix[i].generation {
        assert IsFirstHighest(readers, n);
      } else {
        assert IsFirstHighest(readers, i);
      }
    }
  }

  /** The fold's lowest generation is the smallest generation of a reader. */
  lemma {:induction false} FoldLowest(readers: seq<TranslogReader>)
    requires readers != []
    requires forall j :: 0 <= j < |readers| ==> readers[j].generation <= LONG_MAX
    ensures forall j :: 0 <= j < |readers| ==> Fold(readers).lowestGeneration <= readers[j].generation
    ensures exists i :: 0 <= i < |readers| && Fold(readers).lowestGeneration == readers[i].generation
  {
    var n := |readers| - 1;
    var prefix := readers[..n];
    if prefix == [] {
      assert Fold(readers).lowestGeneration == readers[0].generation;
    } else {
      FoldLowest(prefix);
      var i :| 0 <= i < |prefix| && Fold(prefix).lowestGeneration == prefix[i].generation;
      if readers[n].generation < prefix[i].generation {
        assert Fold(readers).lowestGeneration == readers[n].generation;
      } else {
        assert Fold(readers).lowestGeneration == readers[i].generation;
      }
    }
  }

  // ---------------------------------------------------------------- the gap check

  /** The reader generations in list order (the builders' `generations` list). */
  function Generations(readers: seq<TranslogReader>): (gens: seq<int>)
    ensures |gens| == |readers| && forall j :: 0 <= j < |readers| ==> gens[j] == readers[j].generation
  {
    seq(|readers|, j requires 0 <= j < |readers| => readers[j].generation)
  }

  predicate Sorted(s: seq<int>) {
    forall i, j :: 0 <= i < j < |s| ==> s[i] <= s[j]
  }

  function InsertSorted(x: int, s: seq<int>): (r: seq<int>)
    requires Sorted(s)
    ensures Sorted(r) && multiset(r) == multiset(s) + multiset{x}
  {
    if s == [] then [x]
    else if x <= s[0] then [x] + s
    else
      assert s == [s[0]] + s[1..];
      var rest := InsertSorted(x, s[1..]);
      assert forall k :: 0 <= k < |rest| ==> s[0] <= rest[k] by {
        forall k | 0 <= k < |rest|
          ensures s[0] <= rest[k]
        {
          assert rest[k] in multiset(rest);
          if rest[k] != x {
            assert rest[k] in multiset(s[1..]);
          }
        }
      }
      SortedCons(s[0], rest);
      [s[0]] + rest
  }

  lemma SortedCons(x: int, s: seq<int>)
    requires Sorted(s) && forall k :: 0 <= k < |s| ==> x <= s[k]
    ensures Sorted([x] + s)
  {
    forall i, j | 0 <= i < j < |[x] + s|
      ensures ([x] + s)[i] <= ([x] + s)[j]
    {
      if i > 0 {
        assert ([x] + s)[i] == s[i - 1];
      }
      assert ([x] + s)[j] == s[j - 1];
    }
  }

  /** `generations.stream().sorted()`: the sorted permutation. */
  function SortedOf(s: seq<int>): (r: seq<int>)
    ensures Sorted(r) && multiset(r) == multiset(s)
  {
    if s == [] then []
    else
      assert s == s[..|s| - 1] + [s[|s| - 1]];
      InsertSorted(s[|s| - 1], SortedOf(s[..|s| - 1]))
  }

  /** A multiset has only one sorted arrangement. */
  lemma {:induction false} SortedUnique(a: seq<int>, b: seq<int>)
    requires Sorted(a) && Sorted(b) && multiset(a) == multiset(b)
    ensures a == b
  {
    if a != [] {
      assert a[0] in multiset(b) && b[0] in multiset(a);
      assert a[0] == b[0];
      assert a == [a[0]] + a[1..] && b == [b[0]] + b[1..];
      assert multiset(a) == multiset{a[0]} + multiset(a[1..]);
      assert multiset(b) == multiset{b[0]} + multiset(b[1..]);
      assert multiset(a[1..]) == multiset(a) - multiset{a[0]};
      assert multiset(b[1..]) == multiset(b) - multiset{b[0]};
      SortedUnique(a[1..], b[1..]);
    } else {
      assert |b| == |multiset(b)| == 0;
    }
  }

  /** Java's `long` arithmetic: the value wrapped into the signed 64-bit range. */
  function WrapLong(x: int): (r: int)
    ensures IsLong(r)
    ensures IsLong(x) ==> r == x
  {
    (x - LONG_MIN) % 0x1_0000_0000_0000_0000 + LONG_MIN
  }

  /** `LongStream.iterate(start, i -> i + 1).limit(count)`. */
  function IterateLimit(start: int, count: nat): (s: seq<int>)
    ensures |s| == count && forall k :: 0 <= k < count ==> s[k] == WrapLong(start + k)
  {
    seq(count, (k: nat) => WrapLong(start + k))
  }

  /** `filter(l -> l <= bound)`. */
  function FilterAtMost(s: seq<int>, bound: int): (r: seq<int>)
    ensures forall x :: x in r ==> x in s && x <= bound
  {
    if s == [] then []
    else (if s[0] <= bound then [s[0]] else []) + FilterAtMost(s[1..], bound)
  }

  /** The contiguous generations `lo .. hi - 1`. */
  function Range(lo: int, hi: int): (s: seq<int>)
    ensures |s| == if lo <= hi then hi - lo else 0
    ensures forall k :: 0 <= k < |s| ==> s[k] == lo + k
  {
    if lo <= hi then seq(hi - lo, (k: nat) => lo + k) else []
  }

  /**
   * The gap assertion as written: the stream from the lowest generation, limited
   * to `highest` elements (a negative limit is an IllegalArgumentException),
   * filtered to at most `highest`, must equal the sorted generations.
   */
  function GapCheck(lowest: int, highest: int, generations: seq<int>): (r: Outcome<BuildError>)
    ensures highest < 0 ==> r == Fail(NegativeLimit(highest))
    ensures r.Fail? ==> r.error == NegativeLimit(highest) || r.error == GenerationGaps
  {
    if highest < 0 then Fail(NegativeLimit(highest))
    else if FilterAtMost(IterateLimit(lowest, highest), highest) == SortedOf(generations) then Pass
    else Fail(GenerationGaps)
  }

  lemma {:induction false} FilterSplit(s: seq<int>, n: nat, bound: int)
    requires n <= |s|
    requires forall k :: 0 <= k < n ==> s[k] <= bound
    requires forall k :: n <= k < |s| ==> s[k] > bound
    ensures FilterAtMost(s, bound) == s[..n]
  {
    if s != [] {
      if n == 0 {
        FilterSplit(s[1..], 0, bound);
      } else {
        FilterSplit(s[1..], n - 1, bound);
        assert s[..n] == [s[0]] + s[1..][..n - 1];
      }
    }
  }

  /**
   * From a lowest generation of at least one (and no `long` overflow at the top
   * of the stream) the streamed list is exactly the range `lowest ..= highest`.
   */
  lemma StreamIsRangeFromOne(lowest: int, highest: int)
    requires 1 <= lowest && 0 <= highest && lowest + highest - 1 <= LONG_MAX
    ensures FilterAtMost(IterateLimit(lowest, highest), highest) == Range(lowest, highest + 1)
  {
    var s := IterateLimit(lowest, highest);
    var n := if lowest <= highest then highest - lowest + 1 else 0;
    FilterSplit(s, n, highest);
    assert s[..n] == Range(lowest, highest + 1);
  }

  /**
   * With a positive lowest generation the gap check passes exactly when the
   * sorted generations are the contiguous range from lowest to highest.
   */
  lemma GapCheckFromOne(lowest: int, highest: int, generations: seq<int>)
    requires 1 <= lowest && 0 <= highest && lowest + highest - 1 <= LONG_MAX
    ensures GapCheck(lowest, highest, generations) == Pass
        <==> SortedOf(generations) == Range(lowest, highest + 1)
  {
    StreamIsRangeFromOne(lowest, highest);
  }

  /**
   * With a lowest generation of zero (or below) the stream stops one short of
   * the highest generation, so the check fails whenever the highest generation
   * is among the generations, which it always is in a build.
   */
  lemma GapCheckFailsFromZero(lowest: int, highest: int, generations: seq<int>)
    requires LONG_MIN <= lowest <= 0 <= highest <= LONG_MAX
    requires highest in generations
    ensures GapCheck(lowest, highest, generations) == Fail(GenerationGaps)
  {
    var s := IterateLimit(lowest, highest);
    assert forall k :: 0 <= k < |s| ==> s[k] == lowest + k;
    assert highest !in s;
    assert highest !in FilterAtMost(s, highest);
    assert highest in multiset(SortedOf(generations));
  }

  // ---------------------------------------------------------------- what the assertions reject

  /** Every reader's checkpoint names the reader's own generation. */
  predicate CheckpointsMatch(readers: seq<TranslogReader>) {
    forall j :: 0 <= j < |readers| ==> readers[j].generation == readers[j].checkpoint.generation
  }

  /** The target generation and primary term are those of the first reader with the highest generation. */
  ghost predicate TargetIsFirstHighest(primaryTerm: int, generation: int, readers: seq<TranslogReader>) {
    exists i :: IsFirstHighest(readers, i) && generation == readers[i].generation && primaryTerm == readers[i].primaryTerm
  }

  /** Index of the first reader whose checkpoint names another generation, if any. */
  function FirstCheckpointMismatch(readers: seq<TranslogReader>): (r: Option<nat>)
    ensures r.None? <==> CheckpointsMatch(readers)
    ensures r.Some? ==> r.value < |readers| && readers[r.value].generation != readers[r.value].checkpoint.generation
                        && forall j :: 0 <= j < r.value ==> readers[j].generation == readers[j].checkpoint.generation
  {
    if readers == [] then None
    else if readers[0].generation != readers[0].checkpoint.generation then Some(0)
    else match FirstCheckpointMismatch(readers[1..])
      case None => None
      case Some(k) => Some(k + 1)
  }

  /**
   * The first assertion a build with assertions enabled fails: the per-add
   * checkpoint check, then primary term, generation and gaps; None when it passes.
   */
  function AssertionFailure(primaryTerm: int, generation: int, readers: seq<TranslogReader>): Option<BuildError> {
    match FirstCheckpointMismatch(readers)
    case Some(k) => Some(CheckpointGenerationMismatch(readers[k].generation))
    case None =>
      var f := Fold(readers);
      if primaryTerm != f.highestGenPrimaryTerm then Some(InconsistentPrimaryTerm)
      else if generation != f.highestGeneration then Some(InconsistentGeneration)
      else match GapCheck(f.lowestGeneration, f.highestGeneration, Generations(readers))
        case Fail(e) => Some(e)
        case Pass => None
  }

  /** Generations a build can see: longs above `Long.MIN_VALUE`. */
  predicate ReaderGenerationsInRange(readers: seq<TranslogReader>) {
    forall j :: 0 <= j < |readers| ==> LONG_MIN < readers[j].generation <= LONG_MAX
  }

  /**
   * On readers whose lowest generation is at least one, a build passes its
   * assertions exactly when every checkpoint names its reader's generation, the
   * target generation is the highest one, the target primary term is that of the
   * first reader with the highest generation, and the sorted generations are the
   * contiguous range from lowest to highest.
   */
  lemma AssertionsPassFromOne(primaryTerm: int, generation: int, readers: seq<TranslogReader>)
    requires readers != [] && ReaderGenerationsInRange(readers)
    requires Fold(readers).lowestGeneration >= 1
    requires Fold(readers).lowestGeneration + Fold(readers).highestGeneration - 1 <= LONG_MAX
    ensures AssertionFailure(primaryTerm, generation, readers).None? <==>
              && CheckpointsMatch(readers)
              && TargetIsFirstHighest(primaryTerm, generation, readers)
              && SortedOf(Generations(readers)) == Range(Fold(readers).lowestGeneration, Fold(readers).highestGeneration + 1)
  {
    var f := Fold(readers);
    FoldBounds(readers);
    GapCheckFromOne(f.lowestGeneration, f.highestGeneration, Generations(readers));
    HighestMatches(primaryTerm, generation, readers);
    AssertionFailureNone(primaryTerm, generation, readers);
  }

  /** The lowest generation of the fold is at most its highest. */
  lemma FoldBounds(readers: seq<TranslogReader>)
    requires readers != [] && ReaderGenerationsInRange(readers)
    ensures Fold(readers).lowestGeneration <= Fold(readers).highestGeneration
  {
    FoldLowest(readers);
    FoldHighest(readers);
    assert Fold(readers).lowestGeneration <= readers[0].generation;
  }

  /** A build passes its assertions exactly when each of them holds. */
  lemma AssertionFailureNone(primaryTerm: int, generation: int, readers: seq<TranslogReader>)
    ensures AssertionFailure(primaryTerm, generation, readers).None? <==>
              && FirstCheckpointMismatch(readers).None?
              && primaryTerm == Fold(readers).highestGenPrimaryTerm
              && generation == Fold(readers).highestGeneration
              && GapCheck(Fold(readers).lowestGeneration, Fold(readers).highestGeneration, Generations(readers)) == Pass
  {
  }

  /** The target matches the fold's highest fields exactly when it matches the first highest reader. */
  lemma HighestMatches(primaryTerm: int, generation: int, readers: seq<TranslogReader>)
    requires readers != [] && ReaderGenerationsInRange(readers)
    ensures TargetIsFirstHighest(primaryTerm, generation, readers)
        <==> generation == Fold(readers).highestGeneration && primaryTerm == Fold(readers).highestGenPrimaryTerm
  {
    FoldHighest(readers);
    var i := FirstHighestIndex(readers);
    FirstHighestUnique(readers, i);
  }

  lemma FirstHighestUnique(readers: seq<TranslogReader>, i: int)
    requires IsFirstHighest(readers, i)
    ensures forall k :: IsFirstHighest(readers, k) ==> k == i
  {
    forall k | IsFirstHighest(readers, k)
      ensures k == i
    {
      assert readers[k].generation == readers[i].generation;
    }
  }

  /**
   * A build whose lowest generation is zero (or below) fails its assertions:
   * if nothing earlier, then the gap check.
   */
  lemma AssertionsFailFromZero(primaryTerm: int, generation: int, readers: seq<TranslogReader>)
    requires readers != [] && ReaderGenerationsInRange(readers)
    requires Fold(readers).lowestGeneration <= 0
    ensures AssertionFailure(primaryTerm, generation, readers).Some?
  {
    FoldHighest(readers);
    FoldLowest(readers);
    var f := Fold(readers);
    var i := FirstHighestIndex(readers);
    if FirstCheckpointMismatch(readers).None? && primaryTerm == f.highestGenPrimaryTerm
       && generation == f.highestGeneration && f.highestGeneration >= 0 {
      assert Generations(readers)[i] == f.highestGeneration;
      GapCheckFailsFromZero(f.lowestGeneration, f.highestGeneration, Generations(readers));
    }
  }

  /** Without readers a build fails its assertions, whatever the target. */
  lemma AssertionsFailWithoutReaders(primaryTerm: int, generation: int)
    ensures AssertionFailure(primaryTerm, generation, []).Some?
  {
    assert Fold([]) == INITIAL_FOLD;
  }

  // ---------------------------------------------------------------- the checkpoint transfer snapshot

  /** The file snapshot the checkpoint transfer builder makes for a reader. */
  function FileSnapshotOf(reader: TranslogReader, location: string, checkpointGenFileNameMapper: int -> string): TranslogAndCheckpointFileSnapshot {
    TranslogAndCheckpointFileSnapshot(
      reader.primaryTerm,
      reader.generation,
      reader.checkpoint.minTranslogGeneration,
      reader.path,
      reader.translogChecksum,
      Resolve(location, checkpointGenFileNameMapper(reader.generation)),
      reader.checkpointChecksum,
      reader.checkpoint.generation)
  }

  function FileSnapshotsOf(readers: seq<TranslogReader>, location: string, checkpointGenFileNameMapper: int -> string): set<TranslogAndCheckpointFileSnapshot> {
    set j | 0 <= j < |readers| :: FileSnapshotOf(readers[j], location, checkpointGenFileNameMapper)
  }

  class TranslogCheckpointTransferSnapshot {
    var translogAndCheckpointFileSnapshotSet: set<TranslogAndCheckpointFileSnapshot>
    const size: int
    const generation: int
    const primaryTerm: int
    var minTranslogGeneration: int
    var nodeId: string

    constructor (primaryTerm: int, generation: int, size: int, nodeId: string)
      ensures translogAndCheckpointFileSnapshotSet == {}
      ensures this.primaryTerm == primaryTerm && this.generation == generation && this.size == size
      ensures this.nodeId == nodeId && minTranslogGeneration == 0
    {
      translogAndCheckpointFileSnapshotSet := {};
      this.size := size;
      this.generation := generation;
      this.primaryTerm := primaryTerm;
      this.nodeId := nodeId;
      minTranslogGeneration := 0;
    }

    /** Adds a file snapshot, then asserts that it names the generation of its own checkpoint. */
    method Add(fileSnapshot: TranslogAndCheckpointFileSnapshot, assertionsEnabled: bool) returns (r: Outcome<BuildError>)
      modifies this`translogAndCheckpointFileSnapshotSet
      ensures translogAndCheckpointFileSnapshotSet == old(translogAndCheckpointFileSnapshotSet) + {fileSnapshot}
      ensures r.Fail? <==> assertionsEnabled && fileSnapshot.generation != fileSnapshot.checkpointGeneration
      ensures r.Fail? ==> r.error == CheckpointGenerationMismatch(fileSnapshot.generation)
    {
      translogAndCheckpointFileSnapshotSet := translogAndCheckpointFileSnapshotSet + {fileSnapshot};
      if assertionsEnabled && fileSnapshot.generation != fileSnapshot.checkpointGeneration {
        return Fail(CheckpointGenerationMismatch(fileSnapshot.generation));
      }
      r := Pass;
    }

    method SetMinTranslogGeneration(minTranslogGeneration: int)
      modifies this`minTranslogGeneration
      ensures this.minTranslogGeneration == minTranslogGeneration
    {
      this.minTranslogGeneration := minTranslogGeneration;
    }

    /** The metadata record: its count is the number of distinct file snapshots added. */
    function GetTranslogTransferMetadata(): (m: TranslogTransferMetadata)
      reads this
      ensures m.count == |translogAndCheckpointFileSnapshotSet|
      ensures m.primaryTerm == primaryTerm && m.generation == generation
      ensures m.minTranslogGeneration == minTranslogGeneration && m.nodeId == nodeId
    {
      TranslogTransferMetadata(primaryTerm, generation, minTranslogGeneration, |translogAndCheckpointFileSnapshotSet|, nodeId)
    }

    /** A copy of the file snapshots (a set value, so later adds do not show in it). */
    function GetTranslogAndCheckpointFileSnapshots(): (s: set<TranslogAndCheckpointFileSnapshot>)
      reads this
      ensures s == translogAndCheckpointFileSnapshotSet
    {
      translogAndCheckpointFileSnapshotSet
    }

    /**
     * Closes every file snapshot, going on after a failure; fails with one error
     * carrying every failure, and succeeds when no close failed.
     * `closeFails` says which file snapshots throw on close.
     */
    method Close(closeFails: TranslogAndCheckpointFileSnapshot -> bool) returns (attempted: set<TranslogAndCheckpointFileSnapshot>, r: Outcome<CloseError>)
      ensures attempted == translogAndCheckpointFileSnapshotSet
      ensures r.Fail? <==> exists f :: f in translogAndCheckpointFileSnapshotSet && closeFails(f)
      ensures r.Fail? ==> r.error.suppressed == set f | f in translogAndCheckpointFileSnapshotSet && closeFails(f)
    {
      var fileSnapshots := GetTranslogAndCheckpointFileSnapshots();
      var exceptionList: set<TranslogAndCheckpointFileSnapshot> := {};
      attempted := {};
      var remaining := fileSnapshots;
      while remaining != {}
        invariant remaining <= fileSnapshots
        invariant attempted == fileSnapshots - remaining
        invariant exceptionList == set f | f in attempted && closeFails(f)
        decreases remaining
      {
        var fileSnapshot := Pick(remaining);
        if closeFails(fileSnapshot) {
          exceptionList := exceptionList + {fileSnapshot};
        }
        attempted := attempted + {fileSnapshot};
        remaining := remaining - {fileSnapshot};
      }
      if exceptionList != {} {
        return attempted, Fail(CloseError(exceptionList));
      }
      r := Pass;
    }
  }

  /**
   * The checkpoint transfer snapshot builder: one file snapshot per reader, the
   * minimum translog generation of the highest-generation reader, then the
   * assertions.
   */
  method BuildCheckpointTransferSnapshot(
    primaryTerm: int,
    generation: int,
    location: string,
    readers: seq<TranslogReader>,
    checkpointGenFileNameMapper: int -> string,
    nodeId: string,
    assertionsEnabled: bool) returns (r: Result<TranslogCheckpointTransferSnapshot, BuildError>)
    ensures r.Err? <==> assertionsEnabled && AssertionFailure(primaryTerm, generation, readers).Some?
    ensures r.Err? ==> r.error == AssertionFailure(primaryTerm, generation, readers).value
    ensures r.Ok? ==>
              && fresh(r.value)
              && r.value.translogAndCheckpointFileSnapshotSet == FileSnapshotsOf(readers, location, checkpointGenFileNameMapper)
              && r.value.GetTranslogTransferMetadata()
                 == TranslogTransferMetadata(primaryTerm, generation, Fold(readers).highestGenMinTranslogGeneration,
                                             |FileSnapshotsOf(readers, location, checkpointGenFileNameMapper)|, nodeId)
  {
    var generations: seq<int> := [];
    var highestGeneration := LONG_MIN;
    var highestGenPrimaryTerm := LONG_MIN;
    var lowestGeneration := LONG_MAX;
    var highestGenMinTranslogGeneration := LONG_MIN;
    var snapshot := new TranslogCheckpointTransferSnapshot(primaryTerm, generation, |readers|, nodeId);
    var idx := 0;
    while idx < |readers|
      invariant 0 <= idx <= |readers|
      invariant generations == Generations(readers[..idx])
      invariant FoldState(highestGeneration, highestGenPrimaryTerm, highestGenMinTranslogGeneration, lowestGeneration) == Fold(readers[..idx])
      invariant snapshot.translogAndCheckpointFileSnapshotSet == FileSnapshotsOf(readers[..idx], location, checkpointGenFileNameMapper)
      invariant assertionsEnabled ==> FirstCheckpointMismatch(readers[..idx]).None?
      invariant snapshot.primaryTerm == primaryTerm && snapshot.generation == generation && snapshot.nodeId == nodeId
    {
      var reader := readers[idx];
      var readerGeneration := reader.generation;
      var readerPrimaryTerm := reader.primaryTerm;
      var minTranslogGeneration := reader.checkpoint.minTranslogGeneration;
      var checkpointGeneration := reader.checkpoint.generation;
      var checkpointPath := Resolve(location, checkpointGenFileNameMapper(readerGeneration));
      generations := generations + [readerGeneration];
      var added := snapshot.Add(
        TranslogAndCheckpointFileSnapshot(readerPrimaryTerm, readerGeneration, minTranslogGeneration, reader.path,
                                          reader.translogChecksum, checkpointPath, reader.checkpointChecksum, checkpointGeneration),
        assertionsEnabled);
      PrefixStep(readers, idx);
      FileSnapshotsOfStep(readers, idx, location, checkpointGenFileNameMapper);
      if added.Fail? {
        MismatchAt(readers, idx);
        return Err(added.error);
      }
      if readerGeneration > highestGeneration {
        highestGeneration := readerGeneration;
        highestGenMinTranslogGeneration := minTranslogGeneration;
        highestGenPrimaryTerm := readerPrimaryTerm;
      }
      lowestGeneration := Min(lowestGeneration, readerGeneration);
      idx := idx + 1;
    }
    assert readers[..idx] == readers;
    snapshot.SetMinTranslogGeneration(highestGenMinTranslogGeneration);
    if assertionsEnabled {
      if primaryTerm != highestGenPrimaryTerm {
        return Err(InconsistentPrimaryTerm);
      }
      if generation != highestGeneration {
        return Err(InconsistentGeneration);
      }
      var gaps := GapCheck(lowestGeneration, highestGeneration, generations);
      if gaps.Fail? {
        return Err(gaps.error);
      }
    }
    r := Ok(snapshot);
  }

  /** What one more iteration of the builders' loop adds to the loop's summaries. */
  lemma PrefixStep(readers: seq<TranslogReader>, idx: nat)
    requires idx < |readers|
    ensures Generations(readers[..idx + 1]) == Generations(readers[..idx]) + [readers[idx].generation]
    ensures Fold(readers[..idx + 1]) == Step(Fold(readers[..idx]), readers[idx])
    ensures FirstCheckpointMismatch(readers[..idx]).None? && readers[idx].generation == readers[idx].checkpoint.generation
            ==> FirstCheckpointMismatch(readers[..idx + 1]).None?
  {
    assert readers[..idx + 1][..idx] == readers[..idx];
  }

  lemma FileSnapshotsOfStep(readers: seq<TranslogReader>, idx: nat, location: string, checkpointGenFileNameMapper: int -> string)
    requires idx < |readers|
    ensures FileSnapshotsOf(readers[..idx + 1], location, checkpointGenFileNameMapper)
         == FileSnapshotsOf(readers[..idx], location, checkpointGenFileNameMapper) + {FileSnapshotOf(readers[idx], location, checkpointGenFileNameMapper)}
  {
    assert readers[..idx + 1] == readers[..idx] + [readers[idx]];
  }

  lemma SyncSnapshotsOfStep(readers: seq<TranslogReader>, idx: nat, location: string, checkpointGenFileNameMapper: int -> string)
    requires idx < |readers|
    ensures SyncSnapshotsOf(readers[..idx + 1], location, checkpointGenFileNameMapper)
         == SyncSnapshotsOf(readers[..idx], location, checkpointGenFileNameMapper) + {SyncSnapshotOf(readers[idx], location, checkpointGenFileNameMapper)}
  {
    assert readers[..idx + 1] == readers[..idx] + [readers[idx]];
  }

  /** A first mismatch in the prefix `..idx + 1` that was absent from `..idx` is reader `idx`. */
  lemma MismatchAt(readers: seq<TranslogReader>, idx: nat)
    requires idx < |readers|
    requires FirstCheckpointMismatch(readers[..idx]).None?
    requires readers[idx].generation != readers[idx].checkpoint.generation
    ensures FirstCheckpointMismatch(readers).Some? && FirstCheckpointMismatch(readers).value == idx
  {
    var m := FirstCheckpointMismatch(readers);
    assert readers[..idx][0..] == readers[..idx];
    assert forall j :: 0 <= j < idx ==> readers[..idx][j] == readers[j];
  }

  // ---------------------------------------------------------------- the sync snapshot

  /** The snapshot the sync builder makes for a reader. */
  function SyncSnapshotOf(reader: TranslogReader, location: string, checkpointGenFileNameMapper: int -> string): TranslogCheckpointSnapshot {
    TranslogCheckpointSnapshot(
      reader.primaryTerm,
      reader.generation,
      reader.checkpoint.minTranslogGeneration,
      reader.path,
      Resolve(location, checkpointGenFileNameMapper(reader.generation)),
      reader.translogChecksum,
      reader.checkpointChecksum,
      reader.checkpoint,
      reader.checkpoint.generation)
  }

  function SyncSnapshotsOf(readers: seq<TranslogReader>, location: string, checkpointGenFileNameMapper: int -> string): set<TranslogCheckpointSnapshot> {
    set j | 0 <= j < |readers| :: SyncSnapshotOf(readers[j], location, checkpointGenFileNameMapper)
  }

  class TranslogSyncSnapshot {
    var translogCheckpointSnapshotSet: set<TranslogCheckpointSnapshot>
    const generation: int
    const primaryTerm: int
    var minTranslogGeneration: int
    const nodeId: string

    /** The size argument only sizes the Java set; it is not kept. */
    constructor (primaryTerm: int, generation: int, size: int, nodeId: string)
      ensures translogCheckpointSnapshotSet == {}
      ensures this.primaryTerm == primaryTerm && this.generation == generation
      ensures this.nodeId == nodeId && minTranslogGeneration == 0
    {
      translogCheckpointSnapshotSet := {};
      this.generation := generation;
      this.primaryTerm := primaryTerm;
      this.nodeId := nodeId;
      minTranslogGeneration := 0;
    }

    /** Adds a snapshot, then asserts that it names the generation of its own checkpoint. */
    method Add(snapshot: TranslogCheckpointSnapshot, assertionsEnabled: bool) returns (r: Outcome<BuildError>)
      modifies this`translogCheckpointSnapshotSet
      ensures translogCheckpointSnapshotSet == old(translogCheckpointSnapshotSet) + {snapshot}
      ensures r.Fail? <==> assertionsEnabled && snapshot.generation != snapshot.checkpointGeneration
      ensures r.Fail? ==> r.error == CheckpointGenerationMismatch(snapshot.generation)
    {
      translogCheckpointSnapshotSet := translogCheckpointSnapshotSet + {snapshot};
      if assertionsEnabled && snapshot.generation != snapshot.checkpointGeneration {
        return Fail(CheckpointGenerationMismatch(snapshot.generation));
      }
      r := Pass;
    }

    method SetMinTranslogGeneration(minTranslogGeneration: int)
      modifies this`minTranslogGeneration
      ensures this.minTranslogGeneration == minTranslogGeneration
    {
      this.minTranslogGeneration := minTranslogGeneration;
    }

    /** The metadata record: its count is the number of distinct snapshots added. */
    function GetTranslogTransferMetadata(): (m: TranslogTransferMetadata)
      reads this
      ensures m.count == |translogCheckpointSnapshotSet|
      ensures m.primaryTerm == primaryTerm && m.generation == generation
      ensures m.minTranslogGeneration == minTranslogGeneration && m.nodeId == nodeId
    {
      TranslogTransferMetadata(primaryTerm, generation, minTranslogGeneration, |translogCheckpointSnapshotSet|, nodeId)
    }

    function GetTranslogCheckpointSnapshots(): (s: set<TranslogCheckpointSnapshot>)
      reads this
      ensures s == translogCheckpointSnapshotSet
    {
      translogCheckpointSnapshotSet
    }
  }

  /**
   * The sync snapshot builder: the same loop and assertions as the checkpoint
   * transfer builder, with snapshots that carry the reader's checkpoint.
   */
  method BuildSyncSnapshot(
    primaryTerm: int,
    generation: int,
    location: string,
    readers: seq<TranslogReader>,
    checkpointGenFileNameMapper: int -> string,
    nodeId: string,
    assertionsEnabled: bool) returns (r: Result<TranslogSyncSnapshot, BuildError>)
    ensures r.Err? <==> assertionsEnabled && AssertionFailure(primaryTerm, generation, readers).Some?
    ensures r.Err? ==> r.error == AssertionFailure(primaryTerm, generation, readers).value
    ensures r.Ok? ==>
              && fresh(r.value)
              && r.value.translogCheckpointSnapshotSet == SyncSnapshotsOf(readers, location, checkpointGenFileNameMapper)
              && r.value.GetTranslogTransferMetadata()
                 == TranslogTransferMetadata(primaryTerm, generation, Fold(readers).highestGenMinTranslogGeneration,
                                             |SyncSnapshotsOf(readers, location, checkpointGenFileNameMapper)|, nodeId)
  {
    var generations: seq<int> := [];
    var highestGeneration := LONG_MIN;
    var highestGenPrimaryTerm := LONG_MIN;
    var lowestGeneration := LONG_MAX;
    var highestGenMinTranslogGeneration := LONG_MIN;
    var snapshot := new TranslogSyncSnapshot(primaryTerm, generation, |readers|, nodeId);
    var idx := 0;
    while idx < |readers|
      invariant 0 <= idx <= |readers|
      invariant generations == Generations(readers[..idx])
      invariant FoldState(highestGeneration, highestGenPrimaryTerm, highestGenMinTranslogGeneration, lowestGeneration) == Fold(readers[..idx])
      invariant snapshot.translogCheckpointSnapshotSet == SyncSnapshotsOf(readers[..idx], location, checkpointGenFileNameMapper)
      invariant assertionsEnabled ==> FirstCheckpointMismatch(readers[..idx]).None?
      invariant snapshot.primaryTerm == primaryTerm && snapshot.generation == generation && snapshot.nodeId == nodeId
    {
      var reader := readers[idx];
      var readerGeneration := reader.generation;
      var readerPrimaryTerm := reader.primaryTerm;
      var minTranslogGeneration := reader.checkpoint.minTranslogGeneration;
      var checkpointGeneration := reader.checkpoint.generation;
      var checkpointPath := Resolve(location, checkpointGenFileNameMapper(readerGeneration));
      generations := generations + [readerGeneration];
      var added := snapshot.Add(
        TranslogCheckpointSnapshot(readerPrimaryTerm, readerGeneration, minTranslogGeneration, reader.path, checkpointPath,
                                   reader.translogChecksum, reader.checkpointChecksum, reader.checkpoint, checkpointGeneration),
        assertionsEnabled);
      PrefixStep(readers, idx);
      SyncSnapshotsOfStep(readers, idx, location, checkpointGenFileNameMapper);
      if added.Fail? {
        MismatchAt(readers, idx);
        return Err(added.error);
      }
      if readerGeneration > highestGeneration {
        highestGeneration := readerGeneration;
        highestGenMinTranslogGeneration := minTranslogGeneration;
        highestGenPrimaryTerm := readerPrimaryTerm;
      }
      lowestGeneration := Min(lowestGeneration, readerGeneration);
      idx := idx + 1;
    }
    assert readers[..idx] == readers;
    snapshot.SetMinTranslogGeneration(highestGenMinTranslogGeneration);
    if assertionsEnabled {
      if primaryTerm != highestGenPrimaryTerm {
        return Err(InconsistentPrimaryTerm);
      }
      if generation != highestGeneration {
        return Err(InconsistentGeneration);
      }
      var gaps := GapCheck(lowestGeneration, highestGeneration, generations);
      if gaps.Fail? {
        return Err(gaps.error);
      }
    }
    r := Ok(snapshot);
  }
}
