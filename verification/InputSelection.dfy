/** Choosing the files of a compaction (db/version_set.cc: GetOverlappingInputs, GetRange,
    FindLargestKey, FindSmallestBoundaryFile, AddBoundaryInputs, SetupOtherInputs,
    PickCompaction, CompactRange; Version::PickLevelForMemTableOutput). */
module InputSelection {
  import opened DbFormat
  import opened Versions

  // ------------------------------------------------------ overlapping files

  /** The files that meet the user-key range, in file order. */
  function Overlapping(files: seq<File>, begin: Option<UserKey>, end: Option<UserKey>): seq<File> {
    if files == [] then []
    else
      var n := |files| - 1;
      Overlapping(files[..n], begin, end) + (if Overlaps(files[n], begin, end) then [files[n]] else [])
  }

  lemma {:induction false} OverlappingIs(files: seq<File>, begin: Option<UserKey>, end: Option<UserKey>)
    ensures forall f :: f in Overlapping(files, begin, end) <==> f in files && Overlaps(f, begin, end)
  {
    if files != [] {
      var n := |files| - 1;
      OverlappingIs(files[..n], begin, end);
      assert files == files[..n] + [files[n]];
    }
  }

  /** The range reaches at least as far as (begin, end) on both sides. */
  predicate Contains(b: Option<UserKey>, e: Option<UserKey>, begin: Option<UserKey>, end: Option<UserKey>) {
    && b.Some? == begin.Some? && (b.Some? ==> b.value <= begin.value)
    && e.Some? == end.Some? && (e.Some? ==> end.value <= e.value)
  }

  predicate Within(f: File, b: Option<UserKey>, e: Option<UserKey>) {
    && (b.Some? ==> b.value <= f.smallest.user)
    && (e.Some? ==> f.largest.user <= e.value)
  }

  /** Every file that meets the range lies inside it. */
  ghost predicate Closed(files: seq<File>, b: Option<UserKey>, e: Option<UserKey>) {
    forall f :: f in files && Overlaps(f, b, e) ==> Within(f, b, e)
  }

  /** (b, e) is the smallest range around (begin, end) that is closed under overlap. */
  ghost predicate LeastClosed(files: seq<File>, begin: Option<UserKey>, end: Option<UserKey>,
                              b: Option<UserKey>, e: Option<UserKey>) {
    && Contains(b, e, begin, end)
    && Closed(files, b, e)
    && BelowAllClosed(files, begin, end, b, e)
  }

  ghost predicate BelowAllClosed(files: seq<File>, begin: Option<UserKey>, end: Option<UserKey>,
                                 b: Option<UserKey>, e: Option<UserKey>) {
    forall c, d :: Contains(c, d, begin, end) && Closed(files, c, d) ==> Contains(c, d, b, e)
  }

  /** How many file ends stick out of the range: what a restart of the search uses up. */
  ghost function SticksOut(files: seq<File>, b: Option<UserKey>, e: Option<UserKey>): nat {
    if files == [] then 0
    else
      (if b.Some? && files[0].smallest.user < b.value then 1 else 0) +
      (if e.Some? && files[0].largest.user > e.value then 1 else 0) +
      SticksOut(files[1..], b, e)
  }

  lemma {:induction false} WideningUsesUp(files: seq<File>, b: Option<UserKey>, e: Option<UserKey>,
                                          c: Option<UserKey>, d: Option<UserKey>, f: File)
    requires Contains(c, d, b, e)
    ensures SticksOut(files, c, d) <= SticksOut(files, b, e)
    ensures f in files && b.Some? && f.smallest.user < b.value && c.value <= f.smallest.user
            ==> SticksOut(files, c, d) < SticksOut(files, b, e)
    ensures f in files && e.Some? && f.largest.user > e.value && d.value >= f.largest.user
            ==> SticksOut(files, c, d) < SticksOut(files, b, e)
  {
    if files != [] {
      WideningUsesUp(files[1..], b, e, c, d, f);
    }
  }

  /** A closed range around (begin, end) cannot stop short of an end of a file it meets. */
  lemma WideningIsForced(files: seq<File>, begin: Option<UserKey>, end: Option<UserKey>,
                         b: Option<UserKey>, e: Option<UserKey>, f: File)
    requires BelowAllClosed(files, begin, end, b, e)
    requires f in files && Overlaps(f, b, e)
    ensures b.Some? && f.smallest.user < b.value ==> BelowAllClosed(files, begin, end, Some(f.smallest.user), e)
    ensures e.Some? && f.largest.user > e.value ==> BelowAllClosed(files, begin, end, b, Some(f.largest.user))
  {
    forall c, d | Contains(c, d, begin, end) && Closed(files, c, d)
      ensures Contains(c, d, b, e) && Within(f, c, d)
    {
      assert Contains(c, d, b, e);
      assert Overlaps(f, c, d);
    }
  }

  /** Exactly the files that meet the smallest range closed under overlap. */
  ghost predicate MeetsLeastClosed(files: seq<File>, begin: Option<UserKey>, end: Option<UserKey>, inputs: seq<File>) {
    exists b, e :: LeastClosed(files, begin, end, b, e) && inputs == Overlapping(files, b, e)
  }

  /** Version::GetOverlappingInputs. In level 0 a file that widens the range restarts the search. */
  method GetOverlappingInputs(files: seq<File>, level: nat, begin: Option<UserKey>, end: Option<UserKey>)
    returns (inputs: seq<File>, ghost b: Option<UserKey>, ghost e: Option<UserKey>)
    ensures inputs == Overlapping(files, b, e)
    ensures level != 0 ==> b == begin && e == end
    ensures level == 0 ==> LeastClosed(files, begin, end, b, e)
    ensures if level == 0 then MeetsLeastClosed(files, begin, end, inputs) else inputs == Overlapping(files, begin, end)
  {
    var userBegin, userEnd := begin, end;
    inputs := [];
    var i := 0;
    while i < |files|
      invariant i <= |files|
      invariant inputs == Overlapping(files[..i], userBegin, userEnd)
      invariant level != 0 ==> userBegin == begin && userEnd == end
      invariant level == 0 ==> forall f :: f in inputs ==> Within(f, userBegin, userEnd)
      invariant Contains(userBegin, userEnd, begin, end)
      invariant BelowAllClosed(files, begin, end, userBegin, userEnd)
      decreases SticksOut(files, userBegin, userEnd), |files| - i
    {
      var f := files[i];
      assert files[..i + 1][..i] == files[..i];
      i := i + 1;
      if begin.Some? && f.largest.user < userBegin.value {
        // entirely before the range
      } else if end.Some? && f.smallest.user > userEnd.value {
        // entirely after the range
      } else {
        inputs := inputs + [f];
        if level == 0 {
          WideningIsForced(files, begin, end, userBegin, userEnd, f);
          if begin.Some? && f.smallest.user < userBegin.value {
            ghost var was := userBegin;
            userBegin := Some(f.smallest.user);
            WideningUsesUp(files, was, userEnd, userBegin, userEnd, f);
            inputs := [];
            i := 0;
          } else if end.Some? && f.largest.user > userEnd.value {
            ghost var was := userEnd;
            userEnd := Some(f.largest.user);
            WideningUsesUp(files, userBegin, was, userBegin, userEnd, f);
            inputs := [];
            i := 0;
          }
        }
      }
    }
    assert files[..i] == files;
    OverlappingIs(files, userBegin, userEnd);
    b, e := userBegin, userEnd;
  }

  // ---------------------------------------------------------- boundary files

  /** `f` starts after `key` but still inside key's user key. */
  predicate IsBoundary(f: File, key: InternalKey) {
    Less(key, f.smallest) && f.smallest.user == key.user
  }

  ghost predicate IsLargestKey(files: seq<File>, key: InternalKey) {
    && (exists f :: f in files && f.largest == key)
    && (forall f :: f in files ==> !Less(key, f.largest))
  }

  ghost predicate IsSmallestKey(files: seq<File>, key: InternalKey) {
    && (exists f :: f in files && f.smallest == key)
    && (forall f :: f in files ==> !Less(f.smallest, key))
  }

  method FindLargestKey(files: seq<File>) returns (largest: InternalKey)
    requires files != []
    ensures IsLargestKey(files, largest)
  {
    largest := files[0].largest;
    for i := 1 to |files|
      invariant exists f :: f in files && f.largest == largest
      invariant forall j :: 0 <= j < i ==> !Less(largest, files[j].largest)
    {
      if Less(largest, files[i].largest) {
        largest := files[i].largest;
        assert files[i] in files;
      }
    }
  }

  method FindSmallestBoundaryFile(levelFiles: seq<File>, largest: InternalKey) returns (best: Option<File>)
    ensures best.None? ==> forall f :: f in levelFiles ==> !IsBoundary(f, largest)
    ensures best.Some? ==> best.value in levelFiles && IsBoundary(best.value, largest)
    ensures best.Some? ==>
              forall f :: f in levelFiles && IsBoundary(f, largest) ==> !Less(f.smallest, best.value.smallest)
  {
    best := None;
    for i := 0 to |levelFiles|
      invariant best.None? ==> forall j :: 0 <= j < i ==> !IsBoundary(levelFiles[j], largest)
      invariant best.Some? ==> best.value in levelFiles && IsBoundary(best.value, largest)
      invariant best.Some? ==> forall j :: 0 <= j < i && IsBoundary(levelFiles[j], largest) ==>
                                           !Less(levelFiles[j].smallest, best.value.smallest)
    {
      var f := levelFiles[i];
      if IsBoundary(f, largest) && (best.None? || Less(f.smallest, best.value.smallest)) {
        best := Some(f);
      }
    }
  }

  /** How many files start after `key`: what each added boundary file uses up. */
  ghost function StartsAfter(files: seq<File>, key: InternalKey): nat {
    if files == [] then 0
    else (if Less(key, files[0].smallest) then 1 else 0) + StartsAfter(files[1..], key)
  }

  lemma {:induction false} AdvanceUsesUp(files: seq<File>, key: InternalKey, next: InternalKey, f: File)
    requires !Less(next, key)
    ensures StartsAfter(files, next) <= StartsAfter(files, key)
    ensures f in files && Less(key, f.smallest) && !Less(next, f.smallest) ==>
            StartsAfter(files, next) < StartsAfter(files, key)
  {
    if files != [] {
      AdvanceUsesUp(files[1..], key, next, f);
    }
  }

  /** No file of the level continues the last user key of the picked ones. */
  ghost predicate BoundaryClosed(levelFiles: seq<File>, picked: seq<File>) {
    forall f, key :: f in levelFiles && IsLargestKey(picked, key) ==> !IsBoundary(f, key)
  }

  /** `next` is the file of the level that directly follows `key` within its user key. */
  ghost predicate Continues(levelFiles: seq<File>, key: InternalKey, next: File) {
    && next in levelFiles && IsBoundary(next, key)
    && forall f :: f in levelFiles && IsBoundary(f, key) ==> !Less(f.smallest, next.smallest)
  }

  /** `closed` is `picked` followed by a chain of boundary files, each the next after what is before it. */
  ghost predicate BoundaryChain(levelFiles: seq<File>, picked: seq<File>, closed: seq<File>) {
    || closed == picked
    || (&& |closed| > |picked|
        && var n := |closed| - 1;
           && BoundaryChain(levelFiles, picked, closed[..n])
           && exists key :: IsLargestKey(closed[..n], key) && Continues(levelFiles, key, closed[n]))
  }

  lemma LargestKeyUnique(files: seq<File>, a: InternalKey, b: InternalKey)
    requires IsLargestKey(files, a) && IsLargestKey(files, b)
    ensures a == b
  {
    assert !Less(a, b) && !Less(b, a);
  }

  lemma ExtendChain(levelFiles: seq<File>, picked: seq<File>, closed: seq<File>, key: InternalKey, next: File)
    requires BoundaryChain(levelFiles, picked, closed) && |closed| >= |picked|
    requires IsLargestKey(closed, key) && Continues(levelFiles, key, next) && WellFormed(next)
    ensures BoundaryChain(levelFiles, picked, closed + [next])
    ensures IsLargestKey(closed + [next], next.largest)
  {
    assert (closed + [next])[..|closed|] == closed;
    SmallestUpToLargest(next);
    assert next in closed + [next];
  }

  /** AddBoundaryInputs */
  method AddBoundaryInputs(levelFiles: seq<File>, compactionFiles: seq<File>) returns (closed: seq<File>)
    requires AllWellFormed(levelFiles)
    ensures BoundaryChain(levelFiles, compactionFiles, closed)
    ensures BoundaryClosed(levelFiles, closed)
  {
    closed := compactionFiles;
    if compactionFiles == [] {
      return;
    }
    var largest := FindLargestKey(compactionFiles);
    while true
      invariant |closed| >= |compactionFiles| && IsLargestKey(closed, largest)
      invariant BoundaryChain(levelFiles, compactionFiles, closed)
      decreases StartsAfter(levelFiles, largest)
    {
      var next := FindSmallestBoundaryFile(levelFiles, largest);
      if next.None? {
        break;
      }
      SmallestUpToLargest(next.value);
      AdvanceUsesUp(levelFiles, largest, next.value.largest, next.value);
      ExtendChain(levelFiles, compactionFiles, closed, largest, next.value);
      closed := closed + [next.value];
      largest := next.value.largest;
    }
    forall f, key | f in levelFiles && IsLargestKey(closed, key) ensures !IsBoundary(f, key) {
      LargestKeyUnique(closed, key, largest);
    }
  }

  // ------------------------------------------------ what a good choice keeps

  /** The picked files of a sorted level leave no gap. */
  ghost predicate Gapless(files: seq<File>, picked: seq<File>) {
    forall i, j, k :: 0 <= i < j < k < |files| && files[i] in picked && files[k] in picked ==> files[j] in picked
  }

  /** No user key is shared between the ranges of picked files and of files left behind. */
  ghost predicate UserClosed(files: seq<File>, picked: seq<File>) {
    forall f, g :: f in picked && g in files && g !in picked ==>
                     f.largest.user < g.smallest.user || g.largest.user < f.smallest.user
  }

  ghost predicate AllIn(picked: seq<File>, files: seq<File>) {
    forall f :: f in picked ==> f in files
  }

  /** Whatever a level keeps is newer than what it gives up. */
  ghost predicate LeavesNewer(files: seq<File>, picked: seq<File>) {
    forall f, g :: f in picked && g in files && g !in picked ==> Newer(SetOf(g.entries), SetOf(f.entries))
  }

  lemma OverlappingIsGapless(files: seq<File>, b: Option<UserKey>, e: Option<UserKey>)
    requires AllWellFormed(files) && Disjoint(files)
    ensures Gapless(files, Overlapping(files, b, e))
    ensures AllIn(Overlapping(files, b, e), files)
  {
    OverlappingIs(files, b, e);
    forall i, j, k | 0 <= i < j < k < |files| && Overlaps(files[i], b, e) && Overlaps(files[k], b, e)
      ensures Overlaps(files[j], b, e)
    {
      SmallestUpToLargest(files[j]);
    }
  }

  lemma ClosedIsUserClosed(files: seq<File>, b: Option<UserKey>, e: Option<UserKey>)
    requires Closed(files, b, e)
    ensures UserClosed(files, Overlapping(files, b, e))
    ensures AllIn(Overlapping(files, b, e), files)
  {
    OverlappingIs(files, b, e);
  }

  /** The next boundary file is the next file of the level. */
  lemma BoundaryIsNext(files: seq<File>, picked: seq<File>, key: InternalKey, next: File)
    requires AllWellFormed(files) && Disjoint(files)
    requires Gapless(files, picked) && AllIn(picked, files)
    requires IsLargestKey(picked, key) && Continues(files, key, next)
    ensures Gapless(files, picked + [next])
  {
    hide WellFormed;
    var f :| f in picked && f.largest == key;
    var m :| 0 <= m < |files| && files[m] == f;
    forall i, j, k | 0 <= i < j < k < |files| && files[i] in picked + [next] && files[k] in picked + [next]
      ensures files[j] in picked + [next]
    {
      SmallestUpToLargest(files[i]);
      SmallestUpToLargest(files[j]);
      SmallestUpToLargest(files[k]);
    }
  }

  lemma {:induction false} ChainIsGapless(files: seq<File>, picked: seq<File>, closed: seq<File>)
    requires AllWellFormed(files) && Disjoint(files)
    requires Gapless(files, picked) && AllIn(picked, files)
    requires BoundaryChain(files, picked, closed)
    ensures Gapless(files, closed) && AllIn(closed, files)
  {
    if closed != picked {
      var n := |closed| - 1;
      ChainIsGapless(files, picked, closed[..n]);
      var key :| IsLargestKey(closed[..n], key) && Continues(files, key, closed[n]);
      BoundaryIsNext(files, closed[..n], key, closed[n]);
      assert closed == closed[..n] + [closed[n]];
    }
  }

  /** Past a gapless choice without a boundary file, no user key goes on. */
  lemma NothingGoesOn(files: seq<File>, picked: seq<File>, i: nat, j: nat)
    requires AllWellFormed(files) && Disjoint(files)
    requires Gapless(files, picked) && AllIn(picked, files) && BoundaryClosed(files, picked)
    requires i < j < |files| && files[i] in picked && files[j] !in picked
    ensures files[i].largest.user < files[j].smallest.user
  {
    var key := LargestKeyExists(picked);
    var last :| last in picked && last.largest == key;
    var m :| 0 <= m < |files| && files[m] == last;
    SmallestUpToLargest(files[m]);
    assert files[j] in files;
    assert !IsBoundary(files[j], key);
  }

  /** In a sorted level, a gapless choice without a boundary file leaves only newer data behind. */
  lemma GaplessLeavesNewer(files: seq<File>, picked: seq<File>)
    requires AllWellFormed(files) && Disjoint(files) && Unambiguous(EntriesOf(files))
    requires Gapless(files, picked) && AllIn(picked, files) && BoundaryClosed(files, picked)
    ensures LeavesNewer(files, picked)
  {
    forall f, g | f in picked && g in files && g !in picked ensures Newer(SetOf(g.entries), SetOf(f.entries)) {
      assert f in files;
      var i :| 0 <= i < |files| && files[i] == f;
      var j :| 0 <= j < |files| && files[j] == g;
      if j > i {
        NothingGoesOn(files, picked, i, j);
        ApartInUserKeys(f, g);
      } else {
        EarlierIsNewer(files, j, i);
      }
    }
  }

  lemma ApartInUserKeys(f: File, g: File)
    requires WellFormed(f) && WellFormed(g)
    requires f.largest.user < g.smallest.user || g.largest.user < f.smallest.user
    ensures Newer(SetOf(g.entries), SetOf(f.entries))
  {
    forall e, o | e in g.entries && o in f.entries ensures e.key.user != o.key.user {
      EntryWithinFile(f, o);
      EntryWithinFile(g, e);
    }
  }

  /** In a sorted level the earlier of two files holds the newer entries of a shared user key. */
  lemma EarlierIsNewer(files: seq<File>, j: nat, i: nat)
    requires AllWellFormed(files) && Disjoint(files) && Unambiguous(EntriesOf(files))
    requires j < i < |files|
    ensures Newer(SetOf(files[j].entries), SetOf(files[i].entries))
  {
    forall e, o | e in files[j].entries && o in files[i].entries && e.key.user == o.key.user
      ensures e.key.sequence > o.key.sequence
    {
      EntryWithinFile(files[i], o);
      EntryWithinFile(files[j], e);
      assert e in EntriesOf(files) && o in EntriesOf(files);
    }
  }

  lemma {:induction false} LargestKeyExists(files: seq<File>) returns (key: InternalKey)
    requires files != []
    ensures IsLargestKey(files, key)
  {
    var n := |files| - 1;
    key := files[n].largest;
    if n > 0 {
      var k := LargestKeyExists(files[..n]);
      if Less(key, k) {
        key := k;
      }
    }
    assert files[n] in files;
  }

  lemma UserClosedLeavesNewer(files: seq<File>, picked: seq<File>)
    requires AllWellFormed(files) && UserClosed(files, picked) && AllIn(picked, files)
    ensures LeavesNewer(files, picked)
  {
    forall f, g | f in picked && g in files && g !in picked ensures Newer(SetOf(g.entries), SetOf(f.entries)) {
      ApartInUserKeys(f, g);
    }
  }

  /** A choice closed under user-key overlap has no boundary file to add. */
  lemma UserClosedHasNoBoundary(files: seq<File>, picked: seq<File>)
    requires AllWellFormed(files) && UserClosed(files, picked) && AllIn(picked, files)
    ensures BoundaryClosed(files, picked)
  {
    forall f, key | f in files && IsLargestKey(picked, key) ensures !IsBoundary(f, key) {
      var g :| g in picked && g.largest == key;
      SmallestUpToLargest(f);
      SmallestUpToLargest(g);
    }
  }

  lemma {:induction false} NoBoundaryNoChain(files: seq<File>, picked: seq<File>, closed: seq<File>)
    requires BoundaryChain(files, picked, closed) && BoundaryClosed(files, picked)
    ensures closed == picked
  {
    if closed != picked {
      NoBoundaryNoChain(files, picked, closed[..|closed| - 1]);
    }
  }

  // -------------------------------------------------------- the whole choice

  /** What a compaction of `level` may start from. */
  ghost predicate GoodSeed(files: seq<File>, level: nat, seed: seq<File>) {
    && seed != [] && AllIn(seed, files)
    && (if level == 0 then UserClosed(files, seed) else Gapless(files, seed))
  }

  /** The inputs of a compaction: from `level`, files that leave only newer data behind;
      from the next level, every file that meets their user-key range. */
  ghost predicate ValidPick(v: Version, level: nat, in0: seq<File>, in1: seq<File>)
    requires |v.levels| == NUM_LEVELS && level + 1 < NUM_LEVELS
  {
    && in0 != [] && AllIn(in0, v.levels[level])
    && LeavesNewer(v.levels[level], in0)
    && exists lo, hi :: IsSmallestKey(in0, lo) && IsLargestKey(in0, hi)
                        && in1 == Overlapping(v.levels[level + 1], Some(lo.user), Some(hi.user))
  }

  method GetRange(inputs: seq<File>) returns (smallest: InternalKey, largest: InternalKey)
    requires inputs != []
    ensures IsSmallestKey(inputs, smallest) && IsLargestKey(inputs, largest)
  {
    smallest, largest := inputs[0].smallest, inputs[0].largest;
    for i := 1 to |inputs|
      invariant exists f :: f in inputs && f.smallest == smallest
      invariant exists f :: f in inputs && f.largest == largest
      invariant forall j :: 0 <= j < i ==> !Less(inputs[j].smallest, smallest) && !Less(largest, inputs[j].largest)
    {
      assert inputs[i] in inputs;
      if Less(inputs[i].smallest, smallest) {
        smallest := inputs[i].smallest;
      }
      if Less(largest, inputs[i].largest) {
        largest := inputs[i].largest;
      }
    }
  }

  function TotalFileSize(files: seq<File>): nat {
    if files == [] then 0 else files[0].size + TotalFileSize(files[1..])
  }

  lemma BoundedSeedLeavesNewer(files: seq<File>, level: nat, seed: seq<File>, closed: seq<File>)
    requires AllWellFormed(files) && Unambiguous(EntriesOf(files)) && (level > 0 ==> Disjoint(files))
    requires GoodSeed(files, level, seed)
    requires BoundaryChain(files, seed, closed) && BoundaryClosed(files, closed)
    ensures closed != [] && AllIn(closed, files) && LeavesNewer(files, closed)
  {
    if level == 0 {
      UserClosedHasNoBoundary(files, seed);
      NoBoundaryNoChain(files, seed, closed);
      UserClosedLeavesNewer(files, seed);
    } else {
      ChainIsGapless(files, seed, closed);
      GaplessLeavesNewer(files, closed);
    }
  }

  /** The files of `level` meeting a range, as a seed for a compaction. */
  method SelectSeed(files: seq<File>, level: nat, begin: Option<UserKey>, end: Option<UserKey>)
    returns (seed: seq<File>)
    requires AllWellFormed(files) && (level > 0 ==> Disjoint(files))
    ensures seed != [] ==> GoodSeed(files, level, seed)
    ensures forall f :: f in files && Overlaps(f, begin, end) ==> f in seed
  {
    ghost var b, e;
    seed, b, e := GetOverlappingInputs(files, level, begin, end);
    OverlappingIs(files, b, e);
    if level == 0 {
      ClosedIsUserClosed(files, b, e);
    } else {
      OverlappingIsGapless(files, b, e);
    }
  }

  method CloseSeed(files: seq<File>, level: nat, seed: seq<File>) returns (closed: seq<File>)
    requires AllWellFormed(files) && Unambiguous(EntriesOf(files)) && (level > 0 ==> Disjoint(files))
    requires GoodSeed(files, level, seed)
    ensures closed != [] && AllIn(closed, files) && LeavesNewer(files, closed) && AllIn(seed, closed)
    ensures BoundaryClosed(files, closed)
  {
    closed := AddBoundaryInputs(files, seed);
    BoundedSeedLeavesNewer(files, level, seed, closed);
    ChainKeepsSeed(files, seed, closed);
  }

  /** The files of the next level that go with `in0`. */
  method SelectNext(v: Version, level: nat, in0: seq<File>) returns (in1: seq<File>)
    requires |v.levels| == NUM_LEVELS && level + 1 < NUM_LEVELS
    requires in0 != [] && AllIn(in0, v.levels[level]) && LeavesNewer(v.levels[level], in0)
    ensures ValidPick(v, level, in0, in1)
  {
    var smallest, largest := GetRange(in0);
    ghost var b, e;
    in1, b, e := GetOverlappingInputs(v.levels[level + 1], level + 1, Some(smallest.user), Some(largest.user));
  }

  /** A compaction's inputs, the files of level + 2 that they meet, and where the next
      compaction of the level is to start. */
  datatype Choice = Choice(in0: seq<File>, in1: seq<File>, grandparents: seq<File>, pointer: InternalKey)

  ghost predicate ValidChoice(v: Version, level: nat, c: Choice)
    requires |v.levels| == NUM_LEVELS && level + 1 < NUM_LEVELS
  {
    && ValidPick(v, level, c.in0, c.in1) && BoundaryClosed(v.levels[level], c.in0)
    && IsLargestKey(c.in0, c.pointer)
    && MeetsRangeOf(v, level + 2, c.in0 + c.in1, c.grandparents)
  }

  /** Exactly the files of the level, if there is one, in the user-key range of the inputs. */
  ghost predicate MeetsRangeOf(v: Version, level: nat, inputs: seq<File>, met: seq<File>)
    requires |v.levels| == NUM_LEVELS
  {
    if level >= NUM_LEVELS then met == []
    else exists lo, hi :: IsSmallestKey(inputs, lo) && IsLargestKey(inputs, hi)
                          && met == Overlapping(v.levels[level], Some(lo.user), Some(hi.user))
  }

  /** Inputs that only leave newer data behind, and no file that continues their last user key. */
  ghost predicate GoodInputs(v: Version, level: nat, in0: seq<File>, in1: seq<File>)
    requires |v.levels| == NUM_LEVELS && level + 1 < NUM_LEVELS
  {
    ValidPick(v, level, in0, in1) && BoundaryClosed(v.levels[level], in0)
  }

  /** More files of `level`, if they bring no further file of the next level. */
  method GrowInputs(v: Version, level: nat, in0: seq<File>, in1: seq<File>, allStart: InternalKey,
                    allLimit: InternalKey, expandLimit: int)
    returns (grown0: seq<File>, grown1: seq<File>)
    requires Ordered(v) && Unambiguous(Contents(v)) && level + 1 < NUM_LEVELS && GoodInputs(v, level, in0, in1)
    requires IsSmallestKey(in0 + in1, allStart) && IsLargestKey(in0 + in1, allLimit)
    ensures GoodInputs(v, level, grown0, grown1) && AllIn(in0, grown0)
  {
    hide LevelOrder, NumberOrder, IsSmallestKey, IsLargestKey, Overlapping, Contents, LeavesNewer, BoundaryClosed;
    var files := v.levels[level];
    LevelUnambiguous(v, level);
    grown0, grown1 := in0, in1;
    var expanded0 := SelectSeed(files, level, Some(allStart.user), Some(allLimit.user));
    SeedCovers(files, in0, in1, allStart, allLimit);
    if expanded0 != [] {
      expanded0 := CloseSeed(files, level, expanded0);
    }
    if |expanded0| > |in0| && TotalFileSize(in1) + TotalFileSize(expanded0) < expandLimit {
      var expanded1 := SelectNext(v, level, expanded0);
      if |expanded1| == |in1| {
        grown0, grown1 := expanded0, expanded1;
      }
    }
  }

  /** VersionSet::SetupOtherInputs. `expandLimit` is ExpandedCompactionByteSizeLimit. */
  method SetupOtherInputs(v: Version, level: nat, seed: seq<File>, expandLimit: int) returns (c: Choice)
    requires Ordered(v) && Unambiguous(Contents(v)) && level + 1 < NUM_LEVELS
    requires GoodSeed(v.levels[level], level, seed)
    ensures ValidChoice(v, level, c) && AllIn(seed, c.in0)
  {
    hide LevelOrder, NumberOrder, IsSmallestKey, IsLargestKey, Overlapping, Contents, LeavesNewer, BoundaryClosed;
    var files := v.levels[level];
    LevelUnambiguous(v, level);
    var in0 := CloseSeed(files, level, seed);
    var in1 := SelectNext(v, level, in0);
    var allStart, allLimit := GetRange(in0 + in1);
    if in1 != [] {
      in0, in1 := GrowInputs(v, level, in0, in1, allStart, allLimit, expandLimit);
      allStart, allLimit := GetRange(in0 + in1);
    }
    var smallest, largest := GetRange(in0);
    var grandparents := Grandparents(v, level, in0 + in1, allStart, allLimit);
    c := Choice(in0, in1, grandparents, largest);
  }

  method Grandparents(v: Version, level: nat, inputs: seq<File>, allStart: InternalKey, allLimit: InternalKey)
    returns (met: seq<File>)
    requires |v.levels| == NUM_LEVELS && IsSmallestKey(inputs, allStart) && IsLargestKey(inputs, allLimit)
    ensures MeetsRangeOf(v, level + 2, inputs, met)
  {
    met := [];
    if level + 2 < NUM_LEVELS {
      ghost var b, e;
      met, b, e := GetOverlappingInputs(v.levels[level + 2], level + 2, Some(allStart.user), Some(allLimit.user));
    }
  }

  lemma LevelUnambiguous(v: Version, level: nat)
    requires |v.levels| == NUM_LEVELS && level < NUM_LEVELS && Unambiguous(Contents(v))
    ensures Unambiguous(EntriesOf(v.levels[level]))
  {
    assert forall e :: e in LevelEntries(v, level) ==> e in Contents(v);
  }

  lemma {:induction false} ChainKeepsSeed(files: seq<File>, seed: seq<File>, closed: seq<File>)
    requires BoundaryChain(files, seed, closed)
    ensures AllIn(seed, closed)
  {
    if closed != seed {
      ChainKeepsSeed(files, seed, closed[..|closed| - 1]);
    }
  }

  lemma SeedCovers(files: seq<File>, in0: seq<File>, in1: seq<File>, lo: InternalKey, hi: InternalKey)
    requires AllWellFormed(files) && AllIn(in0, files)
    requires IsSmallestKey(in0 + in1, lo) && IsLargestKey(in0 + in1, hi)
    ensures forall f :: f in in0 ==> Overlaps(f, Some(lo.user), Some(hi.user))
  {
    forall f | f in in0 ensures Overlaps(f, Some(lo.user), Some(hi.user)) {
      assert f in in0 + in1;
      SmallestUpToLargest(f);
    }
  }

  /** The first file that ends after the level's compaction pointer; the first of all if none does. */
  ghost predicate IsNextFile(files: seq<File>, compactPointer: Option<InternalKey>, i: nat)
    requires i < |files|
  {
    if compactPointer.None? then i == 0
    else
      || (Less(compactPointer.value, files[i].largest)
          && forall j :: 0 <= j < i ==> !Less(compactPointer.value, files[j].largest))
      || (i == 0 && forall j :: 0 <= j < |files| ==> !Less(compactPointer.value, files[j].largest))
  }

  /** VersionSet::PickCompaction for a level that is too large. */
  method PickCompaction(v: Version, level: nat, compactPointer: Option<InternalKey>, expandLimit: int)
    returns (c: Choice)
    requires Ordered(v) && Unambiguous(Contents(v)) && level + 1 < NUM_LEVELS && v.levels[level] != []
    ensures ValidChoice(v, level, c)
    ensures exists i ::
            0 <= i < |v.levels[level]| && IsNextFile(v.levels[level], compactPointer, i)
            && v.levels[level][i] in c.in0
  {
    var files := v.levels[level];
    var i := 0;
    while i < |files| && compactPointer.Some? && !Less(compactPointer.value, files[i].largest)
      invariant i <= |files| && (compactPointer.None? ==> i == 0)
      invariant forall j :: 0 <= j < i ==> compactPointer.Some? && !Less(compactPointer.value, files[j].largest)
    {
      i := i + 1;
    }
    if i == |files| {
      i := 0;
    }
    c := CompactFile(v, level, files[i], expandLimit);
    assert IsNextFile(files, compactPointer, i);
  }

  /** The rest of PickCompaction, shared with seek-triggered compactions of one file. */
  method CompactFile(v: Version, level: nat, f: File, expandLimit: int) returns (c: Choice)
    requires Ordered(v) && Unambiguous(Contents(v)) && level + 1 < NUM_LEVELS && f in v.levels[level]
    ensures ValidChoice(v, level, c) && f in c.in0
  {
    hide ValidChoice;
    var seed := [f];
    if level == 0 {
      SmallestUpToLargest(f);
      seed := SelectSeed(v.levels[0], 0, Some(f.smallest.user), Some(f.largest.user));
    }
    c := SetupOtherInputs(v, level, seed, expandLimit);
  }

  /** The smallest closed range does not grow when no file meets the range asked for. */
  lemma SomethingMet(files: seq<File>, begin: Option<UserKey>, end: Option<UserKey>, b: Option<UserKey>,
                     e: Option<UserKey>)
    requires LeastClosed(files, begin, end, b, e)
    requires exists f :: f in files && Overlaps(f, b, e)
    ensures exists f :: f in files && Overlaps(f, begin, end)
  {
    if !exists f :: f in files && Overlaps(f, begin, end) {
      assert Closed(files, begin, end);
      assert false;
    }
  }

  lemma {:induction false} PrefixOfOverlapping(files: seq<File>, b: Option<UserKey>, e: Option<UserKey>, i: nat)
    returns (n: nat)
    requires i <= |Overlapping(files, b, e)|
    ensures n <= |files| && Overlapping(files, b, e)[..i] == Overlapping(files[..n], b, e)
  {
    n := |files|;
    if i == |Overlapping(files, b, e)| {
      assert files[..n] == files;
    } else {
      n := PrefixOfOverlapping(files[..|files| - 1], b, e, i);
      assert files[..|files| - 1][..n] == files[..n];
    }
  }

  lemma PrefixIsGapless(files: seq<File>, b: Option<UserKey>, e: Option<UserKey>, i: nat)
    requires AllWellFormed(files) && Disjoint(files) && i <= |Overlapping(files, b, e)|
    ensures Gapless(files, Overlapping(files, b, e)[..i])
  {
    var n := PrefixOfOverlapping(files, b, e, i);
    OverlappingIs(files[..n], b, e);
    OverlappingIs(files, b, e);
    OverlappingIsGapless(files, b, e);
    forall k | 0 <= k < |files| && files[k] in files[..n] ensures k < n {
      var m :| 0 <= m < n && files[m] == files[k];
      SmallestUpToLargest(files[k]);
    }
  }

  /** The first files that together reach the size limit; all of them if they do not. */
  ghost predicate IsCut(files: seq<File>, n: nat, sizeLimit: nat) {
    && 0 < n <= |files|
    && (n > 1 ==> TotalFileSize(files[..n - 1]) < sizeLimit)
    && (n < |files| ==> TotalFileSize(files[..n]) >= sizeLimit)
  }

  lemma {:induction false} SizeOfOneMore(files: seq<File>, i: nat)
    requires i < |files|
    ensures TotalFileSize(files[..i + 1]) == TotalFileSize(files[..i]) + files[i].size
  {
    if i > 0 {
      SizeOfOneMore(files[1..], i - 1);
      assert files[1..][..i] == files[..i + 1][1..] && files[1..][..i - 1] == files[..i][1..];
    }
  }

  /** The loop of CompactRange that cuts its inputs. */
  method CutInputs(inputs: seq<File>, sizeLimit: nat) returns (n: nat)
    requires inputs != []
    ensures IsCut(inputs, n, sizeLimit)
  {
    var total := 0;
    n := 0;
    while n < |inputs|
      invariant n <= |inputs| && total == TotalFileSize(inputs[..n]) && (n > 0 ==> total < sizeLimit)
      invariant n > 1 ==> TotalFileSize(inputs[..n - 1]) < sizeLimit
    {
      SizeOfOneMore(inputs, n);
      total := total + inputs[n].size;
      n := n + 1;
      if total >= sizeLimit {
        return;
      }
    }
  }

  /** The files that a compaction of level > 0 over the range starts from are among its inputs. */
  ghost predicate StartsFromCut(files: seq<File>, begin: Option<UserKey>, end: Option<UserKey>, sizeLimit: nat,
                                in0: seq<File>) {
    exists n: nat :: IsCut(Overlapping(files, begin, end), n, sizeLimit)
        && AllIn(Overlapping(files, begin, end)[..n], in0)
  }

  /** VersionSet::CompactRange. Above level 0 the choice is cut at `sizeLimit` bytes. */
  method CompactRange(v: Version, level: nat, begin: Option<UserKey>, end: Option<UserKey>, sizeLimit: nat,
                      expandLimit: int)
    returns (c: Option<Choice>)
    requires Ordered(v) && Unambiguous(Contents(v)) && level + 1 < NUM_LEVELS
    ensures c.Some? <==> exists f :: f in v.levels[level] && Overlaps(f, begin, end)
    ensures c.Some? ==> ValidChoice(v, level, c.value)
    ensures c.Some? && level > 0 ==> StartsFromCut(v.levels[level], begin, end, sizeLimit, c.value.in0)
    ensures c.Some? && level == 0 ==> forall f :: f in v.levels[0] && Overlaps(f, begin, end) ==> f in c.value.in0
  {
    hide ValidChoice, LeastClosed;
    var files := v.levels[level];
    var inputs, b, e := GetOverlappingInputs(files, level, begin, end);
    OverlappingIs(files, b, e);
    OverlappingIs(files, begin, end);
    if inputs == [] {
      if level == 0 { NothingMet(files, begin, end, b, e); }
      return None;
    }
    assert inputs[0] in files && Overlaps(inputs[0], b, e);
    var n := |inputs|;
    if level > 0 {
      OverlappingIsGapless(files, b, e);
      n := CutInputs(inputs, sizeLimit);
      PrefixIsGapless(files, b, e, n);
    } else {
      SomethingMet(files, begin, end, b, e);
      LeastIsClosed(files, begin, end, b, e);
    }
    var choice := SetupOtherInputs(v, level, inputs[..n], expandLimit);
    c := Some(choice);
  }

  lemma NothingMet(files: seq<File>, begin: Option<UserKey>, end: Option<UserKey>, b: Option<UserKey>,
                   e: Option<UserKey>)
    requires LeastClosed(files, begin, end, b, e) && forall f :: f in files ==> !Overlaps(f, b, e)
    ensures forall f :: f in files ==> !Overlaps(f, begin, end)
  {
  }

  lemma LeastIsClosed(files: seq<File>, begin: Option<UserKey>, end: Option<UserKey>, b: Option<UserKey>,
                      e: Option<UserKey>)
    requires LeastClosed(files, begin, end, b, e)
    ensures UserClosed(files, Overlapping(files, b, e)) && AllIn(Overlapping(files, b, e), files)
    ensures forall f :: f in files && Overlaps(f, begin, end) ==> f in Overlapping(files, b, e)
    ensures Overlapping(files, b, e)[..|Overlapping(files, b, e)|] == Overlapping(files, b, e)
  {
    ClosedIsUserClosed(files, b, e);
    OverlappingIs(files, b, e);
  }

  /** A new table may go one level deeper: it meets no file there, and few bytes below that. */
  predicate MayGoBelow(v: Version, level: nat, smallest: UserKey, largest: UserKey, overlapLimit: int)
    requires |v.levels| == NUM_LEVELS && level + 1 < NUM_LEVELS
  {
    && Overlapping(v.levels[level + 1], Some(smallest), Some(largest)) == []
    && (level + 2 < NUM_LEVELS ==>
          TotalFileSize(Overlapping(v.levels[level + 2], Some(smallest), Some(largest))) <= overlapLimit)
  }

  /** As deep as it may go, step by step, but no deeper than level 2. */
  predicate IsOutputLevel(v: Version, smallest: UserKey, largest: UserKey, overlapLimit: int, level: nat)
    requires |v.levels| == NUM_LEVELS
  {
    if Overlapping(v.levels[0], Some(smallest), Some(largest)) != [] then level == 0
    else
      && level <= MAX_MEM_COMPACT_LEVEL
      && (forall k :: 0 <= k < level ==> MayGoBelow(v, k, smallest, largest, overlapLimit))
      && (level < MAX_MEM_COMPACT_LEVEL ==> !MayGoBelow(v, level, smallest, largest, overlapLimit))
  }

  lemma NoneOverlaps(files: seq<File>, begin: Option<UserKey>, end: Option<UserKey>)
    ensures Overlapping(files, begin, end) == [] <==> forall f :: f in files ==> !Overlaps(f, begin, end)
  {
    OverlappingIs(files, begin, end);
    assert Overlapping(files, begin, end) != [] ==> Overlapping(files, begin, end)[0] in Overlapping(files, begin, end);
  }

  /** Version::PickLevelForMemTableOutput. `overlapLimit` is MaxGrandParentOverlapBytes. */
  method PickLevelForMemTableOutput(v: Version, smallest: UserKey, largest: UserKey, overlapLimit: int)
    returns (level: nat)
    requires Ordered(v)
    ensures IsOutputLevel(v, smallest, largest, overlapLimit, level)
    ensures level <= MAX_MEM_COMPACT_LEVEL && (level > 0 ==> Unmet(v, level, smallest, largest))
  {
    hide Overlapping, TotalFileSize;
    level := 0;
    var overlap := SomeFileOverlapsRange(false, v.levels[0], Some(smallest), Some(largest));
    NoneOverlaps(v.levels[0], Some(smallest), Some(largest));
    if !overlap {
      while level < MAX_MEM_COMPACT_LEVEL
        invariant level <= MAX_MEM_COMPACT_LEVEL && Unmet(v, level, smallest, largest)
        invariant forall k :: 0 <= k < level ==> MayGoBelow(v, k, smallest, largest, overlapLimit)
      {
        overlap := SomeFileOverlapsRange(true, v.levels[level + 1], Some(smallest), Some(largest));
        NoneOverlaps(v.levels[level + 1], Some(smallest), Some(largest));
        if overlap {
          break;
        }
        if level + 2 < NUM_LEVELS {
          var overlaps, _, _ := GetOverlappingInputs(v.levels[level + 2], level + 2, Some(smallest), Some(largest));
          if TotalFileSize(overlaps) > overlapLimit {
            break;
          }
        }
        level := level + 1;
      }
    }
  }

  /** Compaction::IsTrivialMove */
  predicate IsTrivialMove(c: Choice, overlapLimit: int) {
    |c.in0| == 1 && c.in1 == [] && TotalFileSize(c.grandparents) <= overlapLimit
  }

  /** No file of levels 0 to `level` meets the user-key range. */
  ghost predicate Unmet(v: Version, level: nat, smallest: UserKey, largest: UserKey)
    requires |v.levels| == NUM_LEVELS && level < NUM_LEVELS
  {
    forall l, f :: 0 <= l <= level && f in v.levels[l] ==> !Overlaps(f, Some(smallest), Some(largest))
  }
}
