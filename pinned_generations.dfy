/**
 * The pure part of remote translog retention: generation ranges of metadata
 * files, the ordered set of ranges of the files that are kept, the test whether a
 * generation is still referenced by a kept file, and the list operations with
 * which the retention planner splits metadata files into kept and deleted ones.
 *
 * A Java TreeSet of ranges with the lexicographic comparator is a strictly
 * ascending sequence here; `ceiling` and `floor` are scans of it.
 */
module PinnedGenerations {
  import opened Common

  /** The closed range of translog generations `min ..= max` a metadata file refers to. */
  datatype GenerationRange = GenerationRange(min: int, max: int)

  predicate Contains(r: GenerationRange, generation: int) {
    r.min <= generation <= r.max
  }

  /** The TreeSet's comparator: by `min`, then by `max`. */
  predicate Less(a: GenerationRange, b: GenerationRange) {
    a.min < b.min || (a.min == b.min && a.max < b.max)
  }

  predicate LessOrEqual(a: GenerationRange, b: GenerationRange) {
    Less(a, b) || a == b
  }

  predicate StrictlySorted(s: seq<GenerationRange>) {
    forall i, j :: 0 <= i < j < |s| ==> Less(s[i], s[j])
  }

  /** `TreeSet.add`: the range in its place; a range already present is not added twice. */
  function Insert(s: seq<GenerationRange>, x: GenerationRange): (r: seq<GenerationRange>)
    requires StrictlySorted(s)
    ensures StrictlySorted(r)
    ensures forall y :: y in r <==> y in s || y == x
  {
    if s == [] then [x]
    else if x == s[0] then s
    else if Less(x, s[0]) then [x] + s
    else
      assert s == [s[0]] + s[1..];
      var rest := Insert(s[1..], x);
      assert forall y :: y in rest ==> Less(s[0], y);
      var r := [s[0]] + rest;
      assert forall k :: 1 <= k < |r| ==> r[k] == rest[k - 1] && r[k] in rest;
      r
  }

  /** `TreeSet.ceiling`: the least range not below `x`. */
  function Ceiling(s: seq<GenerationRange>, x: GenerationRange): (r: Option<GenerationRange>)
    requires StrictlySorted(s)
    ensures r.None? <==> forall y :: y in s ==> Less(y, x)
    ensures r.Some? ==> r.value in s && LessOrEqual(x, r.value)
                        && forall y :: y in s && LessOrEqual(x, y) ==> LessOrEqual(r.value, y)
  {
    if s == [] then None
    else if LessOrEqual(x, s[0]) then
      assert !Less(s[0], x);
      Some(s[0])
    else
      assert s == [s[0]] + s[1..];
      Ceiling(s[1..], x)
  }

  /** `TreeSet.floor`: the greatest range not above `x`. */
  function Floor(s: seq<GenerationRange>, x: GenerationRange): (r: Option<GenerationRange>)
    requires StrictlySorted(s)
    ensures r.None? <==> forall y :: y in s ==> Less(x, y)
    ensures r.Some? ==> r.value in s && LessOrEqual(r.value, x)
                        && forall y :: y in s && LessOrEqual(y, x) ==> LessOrEqual(y, r.value)
  {
    if s == [] then None
    else if LessOrEqual(s[|s| - 1], x) then
      assert !Less(x, s[|s| - 1]);
      Some(s[|s| - 1])
    else
      assert s == s[..|s| - 1] + [s[|s| - 1]];
      Floor(s[..|s| - 1], x)
  }

  /**
   * `isGenerationPinned`: the generation lies in the ceiling or the floor of the
   * point range `(generation, generation)`; no other range is looked at.
   */
  function IsGenerationPinned(generation: int, pinnedGenerations: seq<GenerationRange>): bool
    requires StrictlySorted(pinnedGenerations)
  {
    var point := GenerationRange(generation, generation);
    match Ceiling(pinnedGenerations, point)
    case Some(c) => Contains(c, generation) || FloorContains(generation, pinnedGenerations)
    case None => FloorContains(generation, pinnedGenerations)
  }

  predicate FloorContains(generation: int, pinnedGenerations: seq<GenerationRange>)
    requires StrictlySorted(pinnedGenerations)
  {
    var f := Floor(pinnedGenerations, GenerationRange(generation, generation));
    f.Some? && Contains(f.value, generation)
  }

  /** A pinned generation lies in some kept range. */
  lemma PinnedIsSound(generation: int, pinnedGenerations: seq<GenerationRange>)
    requires StrictlySorted(pinnedGenerations)
    requires IsGenerationPinned(generation, pinnedGenerations)
    ensures exists r :: r in pinnedGenerations && Contains(r, generation)
  {
  }

  /** Ranges that, sorted by their `min`, are sorted by their `max` as well. */
  predicate MaxAscending(s: seq<GenerationRange>) {
    forall i, j :: 0 <= i < j < |s| ==> s[i].max <= s[j].max
  }

  /**
   * When the kept ranges sorted by `min` are sorted by `max` too (no range nests
   * inside an earlier one), a generation in some kept range is found pinned.
   */
  lemma PinnedIsCompleteWhenMaxAscending(generation: int, pinnedGenerations: seq<GenerationRange>, r: GenerationRange)
    requires StrictlySorted(pinnedGenerations) && MaxAscending(pinnedGenerations)
    requires r in pinnedGenerations && Contains(r, generation)
    ensures IsGenerationPinned(generation, pinnedGenerations)
  {
    var s := pinnedGenerations;
    var point := GenerationRange(generation, generation);
    if LessOrEqual(r, point) {
      // r is at most the point, so the floor exists, comes no earlier than r and ends no earlier.
      var f := Floor(s, point).value;
      assert LessOrEqual(r, f);
      var i, j :| 0 <= i < |s| && 0 <= j < |s| && s[i] == r && s[j] == f;
      assert r.max <= f.max;
      assert FloorContains(generation, s);
    } else {
      // r starts at the generation and ends after it: the ceiling starts there too.
      var c := Ceiling(s, point).value;
      assert LessOrEqual(c, r);
      assert Contains(c, generation);
    }
  }

  /**
   * Without that condition the test misses nested ranges: with kept ranges
   * (1,10) and (2,3), generation 5 lies in (1,10) but is not found pinned.
   */
  lemma PinnedMissesNestedRange()
    ensures StrictlySorted([GenerationRange(1, 10), GenerationRange(2, 3)])
    ensures Contains(GenerationRange(1, 10), 5)
    ensures !IsGenerationPinned(5, [GenerationRange(1, 10), GenerationRange(2, 3)])
  {
    var s := [GenerationRange(1, 10), GenerationRange(2, 3)];
    assert Ceiling(s, GenerationRange(5, 5)) == None;
    assert Floor(s, GenerationRange(5, 5)) == Some(GenerationRange(2, 3));
  }

  /**
   * Two strictly ascending sequences with the same elements are equal: the
   * TreeSet's order does not depend on the order ranges were added in.
   */
  lemma {:induction false} StrictlySortedUnique(a: seq<GenerationRange>, b: seq<GenerationRange>)
    requires StrictlySorted(a) && StrictlySorted(b)
    requires forall x :: x in a <==> x in b
    ensures a == b
    decreases |a|
  {
    assert forall k :: 0 <= k < |b| ==> b[k] in a;
    if a != [] {
      assert a[0] in b;
      SameLeast(a, b);
      SameTail(a, b);
      StrictlySortedUnique(a[1..], b[1..]);
      assert a == [a[0]] + a[1..] && b == [b[0]] + b[1..];
    } else {
      SameElementsEmpty(a, b);
    }
  }

  lemma SameElementsEmpty(a: seq<GenerationRange>, b: seq<GenerationRange>)
    requires forall x :: x in a <==> x in b
    ensures a == [] <==> b == []
  {
    if a != [] {
      assert a[0] in a;
    }
    if b != [] {
      assert b[0] in b;
    }
  }

  lemma SameLeast(a: seq<GenerationRange>, b: seq<GenerationRange>)
    requires StrictlySorted(a) && StrictlySorted(b) && a != [] && b != []
    requires forall x :: x in a <==> x in b
    ensures a[0] == b[0]
  {
    assert b[0] in a && a[0] in b;
    var i :| 0 <= i < |a| && a[i] == b[0];
    var j :| 0 <= j < |b| && b[j] == a[0];
    assert LessOrEqual(a[0], a[i]);
    assert LessOrEqual(b[0], b[j]);
  }

  lemma SameTail(a: seq<GenerationRange>, b: seq<GenerationRange>)
    requires StrictlySorted(a) && StrictlySorted(b) && a != [] && b != [] && a[0] == b[0]
    requires forall x :: x in a <==> x in b
    ensures StrictlySorted(a[1..]) && StrictlySorted(b[1..])
    ensures forall x :: x in a[1..] <==> x in b[1..]
  {
    forall x | x in a[1..] ensures x in b[1..] {
      TailElement(a, b, x);
    }
    forall x | x in b[1..] ensures x in a[1..] {
      TailElement(b, a, x);
    }
  }

  lemma TailElement(a: seq<GenerationRange>, b: seq<GenerationRange>, x: GenerationRange)
    requires StrictlySorted(a) && a != [] && b != [] && a[0] == b[0]
    requires forall y :: y in a <==> y in b
    requires x in a[1..]
    ensures x in b[1..]
  {
    var k :| 0 <= k < |a| - 1 && a[1..][k] == x;
    assert Less(a[0], a[k + 1]);
    assert x in b && x != b[0];
    assert b == [b[0]] + b[1..];
  }

  /** The TreeSet holding exactly the ranges of `s`: its unique ascending sequence. */
  ghost function TreeSetOf(s: set<GenerationRange>): (r: seq<GenerationRange>)
    ensures StrictlySorted(r)
    ensures forall x :: x in r <==> x in s
    decreases s
  {
    if s == {} then []
    else
      var x :| x in s;
      Insert(TreeSetOf(s - {x}), x)
  }

  /** The generations `r.min ..= r.max` (`LongStream.rangeClosed`). */
  function RangeGenerations(r: GenerationRange): (s: set<int>)
    ensures forall g :: g in s <==> Contains(r, g)
    decreases r.max - r.min
  {
    if r.min > r.max then {} else {r.min} + RangeGenerations(GenerationRange(r.min + 1, r.max))
  }

  /** The generations of all the given ranges. */
  function UnionOfRanges(ranges: seq<GenerationRange>): (s: set<int>)
    ensures forall g :: g in s <==> exists r :: r in ranges && Contains(r, g)
  {
    if ranges == [] then {}
    else
      var init := ranges[..|ranges| - 1];
      var rest := UnionOfRanges(init);
      assert forall r :: r in ranges <==> r == ranges[|ranges| - 1] || r in init by {
        assert ranges == init + [ranges[|ranges| - 1]];
      }
      rest + RangeGenerations(ranges[|ranges| - 1])
  }

  lemma UnionOfRangesSnoc(ranges: seq<GenerationRange>, r: GenerationRange)
    ensures UnionOfRanges(ranges + [r]) == UnionOfRanges(ranges) + RangeGenerations(r)
  {
    assert (ranges + [r])[..|ranges|] == ranges;
  }

  /**
   * `getGenerationsToBeDeleted`: the generations of the metadata files to
   * delete that are at most `maxGenerationToBeDeleted` and that the pinned test
   * does not find in the ranges of the files kept.
   */
  ghost function GenerationsToBeDeleted(
    deletedRanges: seq<GenerationRange>,
    keptRanges: set<GenerationRange>,
    maxGenerationToBeDeleted: int): (r: set<int>)
    ensures forall g :: g in r ==> g <= maxGenerationToBeDeleted && exists d :: d in deletedRanges && Contains(d, g)
  {
    set g | g in UnionOfRanges(deletedRanges) && g <= maxGenerationToBeDeleted
                && !IsGenerationPinned(g, TreeSetOf(keptRanges))
  }

  /**
   * When the kept ranges sorted by `min` are sorted by `max` as well, no
   * generation of a kept file is deleted.
   */
  lemma KeptGenerationsSurviveWhenMaxAscending(
    deletedRanges: seq<GenerationRange>,
    keptRanges: set<GenerationRange>,
    maxGenerationToBeDeleted: int,
    kept: GenerationRange,
    g: int)
    requires MaxAscending(TreeSetOf(keptRanges))
    requires kept in keptRanges && Contains(kept, g)
    ensures g !in GenerationsToBeDeleted(deletedRanges, keptRanges, maxGenerationToBeDeleted)
  {
    PinnedIsCompleteWhenMaxAscending(g, TreeSetOf(keptRanges), kept);
  }

  /**
   * A generation of a kept file can still be deleted: with kept ranges (1,10)
   * and (2,3), generation 5 of a deleted file (5,5) is deleted although the
   * kept file (1,10) refers to it.
   */
  lemma NestedKeptRangeDoesNotProtect()
    ensures Contains(GenerationRange(1, 10), 5)
    ensures 5 in GenerationsToBeDeleted([GenerationRange(5, 5)], {GenerationRange(1, 10), GenerationRange(2, 3)}, 100)
  {
    var kept := {GenerationRange(1, 10), GenerationRange(2, 3)};
    StrictlySortedUnique(TreeSetOf(kept), [GenerationRange(1, 10), GenerationRange(2, 3)]);
    PinnedMissesNestedRange();
    assert 5 in UnionOfRanges([GenerationRange(5, 5)]);
  }

  // ---------------------------------------------------------------- metadata file lists

  /** `List.removeAll(c)`: every element of `c` goes, all others stay in order. */
  function RemoveAll(s: seq<string>, c: set<string>): (r: seq<string>)
    ensures forall x :: x in r <==> x in s && x !in c
    ensures |r| <= |s|
  {
    if s == [] then []
    else (if s[0] in c then [] else [s[0]]) + RemoveAll(s[1..], c)
  }

  /** `List.remove(Object)`: drops the first occurrence of `x`, if any. */
  function RemoveFirst(s: seq<string>, x: string): (r: seq<string>)
    ensures x in s ==> |r| == |s| - 1
    ensures x !in s ==> r == s
    ensures forall y :: y != x ==> (y in r <==> y in s)
    ensures multiset(r) == multiset(s) - multiset{x}
  {
    if s == [] then []
    else if s[0] == x then
      assert s == [s[0]] + s[1..];
      s[1..]
    else
      assert s == [s[0]] + s[1..];
      [s[0]] + RemoveFirst(s[1..], x)
  }

  predicate NoDuplicates(s: seq<string>) {
    forall i, j :: 0 <= i < j < |s| ==> s[i] != s[j]
  }

  lemma RemoveFirstRemovesUnique(s: seq<string>, x: string)
    requires NoDuplicates(s)
    ensures x !in RemoveFirst(s, x)
  {
    MultiplicityOfUnique(s, x);
  }

  lemma {:induction false} MultiplicityOfUnique(s: seq<string>, x: string)
    requires NoDuplicates(s)
    ensures multiset(s)[x] <= 1
  {
    if s != [] {
      assert s == [s[0]] + s[1..];
      MultiplicityOfUnique(s[1..], x);
      if s[0] == x {
        assert x !in s[1..];
      }
    }
  }

  /**
   * `getMetadataFilesToBeDeleted`: the files older than the last pinned-timestamp
   * fetch (`filterByAge`), less the files that a pinned timestamp locks
   * (`lockedFiles`). Both are helpers whose code is not part of this model.
   */
  function MetadataFilesToBeDeleted(
    metadataFiles: seq<string>,
    filterByAge: seq<string> -> seq<string>,
    lockedFiles: seq<string> -> set<string>): (r: seq<string>)
    ensures forall f :: f in r <==> f in filterByAge(metadataFiles) && f !in lockedFiles(filterByAge(metadataFiles))
  {
    var byAge := filterByAge(metadataFiles);
    RemoveAll(byAge, lockedFiles(byAge))
  }

  /**
   * The files the sweep deletes: the planner's list, less the newest file
   * unless the index is deleted.
   */
  function FilesToDelete(
    metadataFiles: seq<string>,
    filterByAge: seq<string> -> seq<string>,
    lockedFiles: seq<string> -> set<string>,
    indexDeleted: bool): seq<string>
    requires metadataFiles != []
  {
    var planned := MetadataFilesToBeDeleted(metadataFiles, filterByAge, lockedFiles);
    if indexDeleted then planned else RemoveFirst(planned, metadataFiles[0])
  }

  /**
   * Unless the index is deleted, the newest metadata file is never deleted
   * (given that the age filter does not repeat a file), and every file deleted
   * passed the age filter and is not locked by a pinned timestamp.
   */
  lemma NewestFileIsKept(
    metadataFiles: seq<string>,
    filterByAge: seq<string> -> seq<string>,
    lockedFiles: seq<string> -> set<string>,
    indexDeleted: bool)
    requires metadataFiles != []
    requires NoDuplicates(filterByAge(metadataFiles))
    ensures !indexDeleted ==> metadataFiles[0] !in FilesToDelete(metadataFiles, filterByAge, lockedFiles, indexDeleted)
    ensures forall f :: f in FilesToDelete(metadataFiles, filterByAge, lockedFiles, indexDeleted) ==>
              f in filterByAge(metadataFiles) && f !in lockedFiles(filterByAge(metadataFiles))
  {
    var byAge := filterByAge(metadataFiles);
    NoDuplicatesRemoveAll(byAge, lockedFiles(byAge));
    if !indexDeleted {
      RemoveFirstRemovesUnique(MetadataFilesToBeDeleted(metadataFiles, filterByAge, lockedFiles), metadataFiles[0]);
    }
  }

  lemma {:induction false} NoDuplicatesRemoveAll(s: seq<string>, c: set<string>)
    requires NoDuplicates(s)
    ensures NoDuplicates(RemoveAll(s, c))
  {
    if s != [] {
      NoDuplicatesRemoveAll(s[1..], c);
      assert s[0] !in s[1..];
    }
  }
}
