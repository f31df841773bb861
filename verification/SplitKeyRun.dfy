/** A run that splits a user key and then shows a deleted value again. Every flush goes to the
    level that the code chooses, and every compaction is one that it does not turn into a
    trivial move (db/version_set.cc:491-516, 1270-1322, 1403-1447; db/db_impl.cc:718-725). */
module SplitKeyRun {
  import opened DbFormat
  import opened Versions
  import opened InputSelection
  import opened Compactions
  import opened CompactionMeaning
  import opened VersionBuilder
  import opened LevelOrderKept
  import opened Engine
  import opened SplitKey

  // --------------------------------------------------------- what is written

  const EA := Entry(InternalKey(0, 1, TypeValue), [1])
  const EB := Entry(InternalKey(0, 2, TypeValue), [2])
  const P0 := Entry(InternalKey(0, 3, TypeValue), [3])
  const P1 := Entry(InternalKey(1, 4, TypeValue), [65])
  const D1 := Entry(InternalKey(1, 5, TypeDeletion), [])
  const Q0 := Entry(InternalKey(0, 6, TypeValue), [4])

  function Table(number: nat, entries: seq<Entry>): File
    requires entries != []
  {
    File(number, 100, entries[0].key, entries[|entries| - 1].key, entries)
  }

  const A := Table(5, [EA])            // flushed into the empty database
  const B := Table(7, [EB])            // flushed; meets A
  const F := Table(9, [P0, D1, P1])    // flushed; meets B
  // F and B merged, and cut between the two entries of key 1, as happens when key 1 is so long
  // that its deletion fills the table:
  const G1 := Table(10, [P0, D1])
  const G2 := Table(11, [P1])
  const H := Table(13, [Q0])           // flushed; meets G1 but not G2
  const K := Table(14, [Q0])

  function Levels(zero: seq<File>, one: seq<File>, two: seq<File>): Version {
    Version([zero, one, two, [], [], [], []])
  }

  const OPS1 := [Put(0, [1])]
  const OPS2 := OPS1 + [Put(0, [2])]
  const OPS4 := OPS2 + [Put(0, [3]), Put(1, [65])]
  const OPS5 := OPS4 + [Delete(1)]
  const OPS6 := OPS5 + [Put(0, [4])]

  const PICK1 := Pick(Levels([F], [B], [A]), 0, [F], [B], 4)
  const PICK2 := Pick(Levels([H], [G1, G2], [A]), 0, [H], [G1], 6)

  const S0 := State([], [], None, Levels([], [], []), 2, [], None, 0)
  const S1 := State(OPS1, [EA], None, Levels([], [], []), 2, [], None, 0)
  const S2 := S1.(mem := [], imm := Some([EA]))
  const S3 := State(OPS1, [], None, Levels([], [], [A]), 6, [], None, 0)
  const S4 := State(OPS2, [EB], None, Levels([], [], [A]), 6, [], None, 0)
  const S5 := S4.(mem := [], imm := Some([EB]))
  const S6 := State(OPS2, [], None, Levels([], [B], [A]), 8, [], None, 0)
  const S7 := State(OPS4, [P0, P1], None, Levels([], [B], [A]), 8, [], None, 0)
  const S8 := S7.(snapshots := [4])
  const S9 := State(OPS5, [P0, D1, P1], None, Levels([], [B], [A]), 8, [4], None, 0)
  const S10 := S9.(mem := [], imm := Some([P0, D1, P1]))
  const S11 := State(OPS5, [], None, Levels([F], [B], [A]), 10, [4], None, 0)
  const S12 := S11.(running := Some(PICK1))
  const S13 := State(OPS5, [], None, Levels([], [G1, G2], [A]), 12, [4], None, 4)
  const S14 := S13.(snapshots := [])
  const S15 := State(OPS6, [Q0], None, Levels([], [G1, G2], [A]), 12, [], None, 4)
  const S16 := S15.(mem := [], imm := Some([Q0]))
  const S17 := State(OPS6, [], None, Levels([H], [G1, G2], [A]), 14, [], None, 4)
  const S18 := S17.(running := Some(PICK2))

  const STATES := [S0, S1, S2, S3, S4, S5, S6, S7, S8, S9, S10, S11, S12, S13, S14, S15, S16, S17, S18]

  const STEPS := [
    Write([Put(0, [1])], [EA]), SwitchMemtable, Flush(2, A),
    Write([Put(0, [2])], [EB]), SwitchMemtable, Flush(1, B),
    Write([Put(0, [3]), Put(1, [65])], [P0, P1]), TakeSnapshot, Write([Delete(1)], [P0, D1, P1]), SwitchMemtable,
        Flush(0, F),
    StartCompaction(PICK1), FinishCompaction([P0, EB, D1, P1], [G1, G2]), ReleaseSnapshot(0),
    Write([Put(0, [4])], [Q0]), SwitchMemtable, Flush(0, H), StartCompaction(PICK2)]

  const LAST := FinishCompaction([Q0, P0, D1], [K])

  // ------------------------------------------------------ what the code chooses

  /** MaxGrandParentOverlapBytes with the default file size. */
  const OVERLAP_LIMIT: nat := 10 * 0x20_0000

  /** A flush goes where PickLevelForMemTableOutput says. A compaction of level 0 takes the one
      file there, is set up by SetupOtherInputs, and is no trivial move. */
  ghost predicate Chosen(s: State, step: Step)
    requires |s.version.levels| == NUM_LEVELS
  {
    match step
    case Flush(level, f) => IsOutputLevel(s.version, f.smallest.user, f.largest.user, OVERLAP_LIMIT, level)
    case StartCompaction(p) =>
      p.level == 0 && |p.in0| == 1 && p.in0 == s.version.levels[0] && exists c :: IsChoice(s.version, p, c)
    case TrivialMove(_, _) => false
    case _ => true
  }

  ghost predicate IsChoice(v: Version, p: Pick, c: Choice)
    requires |v.levels| == NUM_LEVELS
  {
    p.level + 1 < NUM_LEVELS && ValidChoice(v, p.level, c) && c.in0 == p.in0 && c.in1 == p.in1
        && !IsTrivialMove(c, OVERLAP_LIMIT)
  }

  ghost predicate Takes(s: State, step: Step, t: State) {
    && |s.version.levels| == NUM_LEVELS && Enabled(s, step) && t == Next(s, step) && Chosen(s, step)
    && (step.FinishCompaction? ==> s == S12 && step == STEPS[12])
  }

  // ------------------------------------------------------------ installing edits

  /** What installing one edit must give, level by level. */
  lemma InstallIs(v: Version, edit: Edit, w: Version)
    requires Installed(v) && |w.levels| == NUM_LEVELS
    requires forall l: nat :: l < NUM_LEVELS ==>
             FreshAdds(v.levels[l], AddsAt(l, edit.added)) && LevelChange(v, w, edit, l)
    ensures Install(v, [edit]) == w
  {
    hide Install, FreshAdds, AddsAt, Installed;
    LevelsOfInstall(v, [edit]);
    InstalledLevels(v);
    forall l: nat | l < NUM_LEVELS ensures Install(v, [edit]).levels[l] == w.levels[l] {
      OneEdit(v, edit, l);
      assert LevelChange(v, w, edit, l);
      SortedIsUnique(Install(v, [edit]).levels[l], w.levels[l]);
    }
  }

  lemma InstalledLevels(v: Version)
    requires Installed(v)
    ensures |v.levels| == NUM_LEVELS
  {
  }

  lemma FlushInstalls(v: Version, level: nat, f: File, w: Version)
    requires Installed(v) && |w.levels| == NUM_LEVELS && level < NUM_LEVELS
    requires v.levels[level] == [] && w == Version(v.levels[level := [f]])
    ensures Install(v, [FlushEdit(level, f)]) == w
  {
    forall l: nat | l < NUM_LEVELS
      ensures FreshAdds(v.levels[l], AddsAt(l, FlushEdit(level, f).added)) && LevelChange(v, w, FlushEdit(level, f), l)
    {
      AddsOfFlush(level, f, l);
      SortedLevels(v, l);
    }
    InstallIs(v, FlushEdit(level, f), w);
  }

  /** A compaction of all of level 0 with `in1` from level 1. */
  ghost predicate TakesLevelZero(v: Version, m: Move, one: seq<File>)
    requires |v.levels| == NUM_LEVELS
  {
    && m.level == 0 && v == Levels(m.in0, v.levels[1], v.levels[2])
    && FreshAdds(v.levels[1], m.outs) && SortedBySmallest(one) && AllIn(m.in1, v.levels[1])
    && forall f :: f in one <==> (f in v.levels[1] && f !in m.in1) || f in m.outs
  }

  lemma MovedLevel(v: Version, m: Move, one: seq<File>, l: nat)
    requires Installed(v) && |v.levels| == NUM_LEVELS && TakesLevelZero(v, m, one) && l < NUM_LEVELS
    ensures FreshAdds(v.levels[l], AddsAt(l, m.ToEdit().added))
    ensures LevelChange(v, Levels([], one, v.levels[2]), m.ToEdit(), l)
  {
    hide AddsAt, Deletes, SortedBySmallest;
    AddsOfList(l, 1, m.ToEdit().added, m.outs);
    SortedLevels(v, l);
    NumbersAreUnique(v, l);
    NothingIsSorted();
    forall f | f in v.levels[l] ensures !Deletes(m.ToEdit(), l, f) <==> m.Stays(v.levels[l], l, f) {
      DeletedIffPicked(m, v.levels[l], l, f);
    }
    assert l > 2 ==> v.levels[l] == [] && Levels([], one, v.levels[2]).levels[l] == [];
  }

  lemma NumbersAreUnique(v: Version, l: nat)
    requires Installed(v) && l < NUM_LEVELS
    ensures |v.levels| == NUM_LEVELS && NumbersUnique(v.levels[l])
    ensures FreshAdds(v.levels[l], [])
  {
  }

  lemma NothingIsSorted()
    ensures SortedBySmallest([])
  {
  }

  lemma MoveInstalls(v: Version, m: Move, one: seq<File>)
    requires Installed(v) && |v.levels| == NUM_LEVELS && TakesLevelZero(v, m, one)
    ensures Install(v, [m.ToEdit()]) == Levels([], one, v.levels[2])
  {
    hide Installed, LevelChange, FreshAdds, TakesLevelZero;
    forall l: nat | l < NUM_LEVELS
      ensures FreshAdds(v.levels[l], AddsAt(l, m.ToEdit().added))
              && LevelChange(v, Levels([], one, v.levels[2]), m.ToEdit(), l)
    {
      MovedLevel(v, m, one, l);
    }
    InstallIs(v, m.ToEdit(), Levels([], one, v.levels[2]));
  }

  // ------------------------------------------------------------- step by step

  lemma OneOp(op: Op, n: nat)
    ensures BatchEntries([op], n) == iset{EntryOf(op, n)}
  {
    assert EntryOf([op][0], n + 0) in BatchEntries([op], n);
  }

  lemma TwoOps(a: Op, b: Op, n: nat)
    ensures BatchEntries([a, b], n) == iset{EntryOf(a, n), EntryOf(b, n + 1)}
  {
    assert EntryOf([a, b][0], n + 0) in BatchEntries([a, b], n) && EntryOf([a, b][1], n + 1) in BatchEntries([a, b], n);
  }

  lemma WriteTakes(s: State, batch: seq<Op>, newMem: seq<Entry>, t: State)
    requires |s.version.levels| == NUM_LEVELS && |s.ops| + |batch| < MAX_SEQUENCE && Sorted(newMem)
    requires forall e :: e in newMem <==> e in s.mem || e in BatchEntries(batch, |s.ops|)
    requires t == s.(ops := s.ops + batch, mem := newMem)
    ensures Takes(s, Write(batch, newMem), t)
  {
  }

  lemma WritesOfOne()
    ensures Takes(S0, STEPS[0], S1) && Takes(S3, STEPS[3], S4) && Takes(S14, STEPS[14], S15)
  {
    hide Takes, BatchEntries;
    OneOp(Put(0, [1]), 0);
    WriteTakes(S0, [Put(0, [1])], [EA], S1);
    OneOp(Put(0, [2]), 1);
    WriteTakes(S3, [Put(0, [2])], [EB], S4);
    OneOp(Put(0, [4]), 5);
    WriteTakes(S14, [Put(0, [4])], [Q0], S15);
  }

  lemma WriteOfTwo()
    ensures Takes(S6, STEPS[6], S7)
  {
    hide Takes, BatchEntries;
    TwoOps(Put(0, [3]), Put(1, [65]), 2);
    WriteTakes(S6, [Put(0, [3]), Put(1, [65])], [P0, P1], S7);
  }

  lemma WriteOfDeletion()
    ensures Takes(S8, STEPS[8], S9)
  {
    hide Takes, BatchEntries;
    OneOp(Delete(1), 4);
    WriteTakes(S8, [Delete(1)], [P0, D1, P1], S9);
  }

  lemma SwitchTakes(s: State)
    requires |s.version.levels| == NUM_LEVELS && s.imm.None?
    ensures Takes(s, SwitchMemtable, s.(imm := Some(s.mem), mem := []))
  {
  }

  lemma Switches()
    ensures Takes(S1, STEPS[1], S2) && Takes(S4, STEPS[4], S5) && Takes(S9, STEPS[9], S10) && Takes(S15, STEPS[15], S16)
  {
    hide Takes;
    SwitchTakes(S1);
    SwitchTakes(S4);
    SwitchTakes(S9);
    SwitchTakes(S15);
  }

  lemma Snapshots()
    ensures Takes(S7, STEPS[7], S8) && Takes(S13, STEPS[13], S14)
  {
  }

  lemma FlushTakes(s: State, level: nat, f: File, t: State)
    requires Installed(s.version) && level <= MAX_MEM_COMPACT_LEVEL && s.version.levels[level] == []
    requires s.imm == Some(f.entries) && Built(f) && f.number >= s.nextFile && s.running.None?
    requires IsOutputLevel(s.version, f.smallest.user, f.largest.user, OVERLAP_LIMIT, level)
    requires level > 0 ==> Unmet(s.version, level, f.smallest.user, f.largest.user)
    requires t == s.(imm := None, version := Version(s.version.levels[level := [f]]), nextFile := f.number + 1)
    ensures Takes(s, Flush(level, f), t)
  {
    hide Installed, Install, IsOutputLevel, Unmet;
    InstalledLevels(s.version);
    FlushInstalls(s.version, level, f, t.version);
  }

  lemma FlushA()
    requires Installed(S2.version)
    ensures Takes(S2, STEPS[2], S3)
  {
    hide Takes, Installed;
    assert IsOutputLevel(S2.version, 0, 0, OVERLAP_LIMIT, 2) by { OutputLevelOfA(); }
    FlushTakes(S2, 2, A, S3);
  }

  lemma OutputLevelOfA()
    ensures IsOutputLevel(Levels([], [], []), 0, 0, OVERLAP_LIMIT, 2)
  {
    var v := Levels([], [], []);
    assert MayGoBelow(v, 0, 0, 0, OVERLAP_LIMIT) && MayGoBelow(v, 1, 0, 0, OVERLAP_LIMIT);
  }

  lemma OneOverlaps(f: File, lo: UserKey, hi: UserKey)
    ensures Overlapping([f], Some(lo), Some(hi)) == if Overlaps(f, Some(lo), Some(hi)) then [f] else []
  {
    assert [f][..0] == [];
    assert Overlapping([], Some(lo), Some(hi)) == [];
  }

  lemma TwoOverlap(f: File, g: File, lo: UserKey, hi: UserKey)
    ensures Overlapping([f, g], Some(lo), Some(hi))
         == (if Overlaps(f, Some(lo), Some(hi)) then [f] else [])
             + (if Overlaps(g, Some(lo), Some(hi)) then [g] else [])
  {
    OneOverlaps(f, lo, hi);
    assert [f, g][..1] == [f];
  }

  lemma FlushB()
    requires Installed(S5.version)
    ensures Takes(S5, STEPS[5], S6)
  {
    hide Takes, Installed;
    assert IsOutputLevel(S5.version, 0, 0, OVERLAP_LIMIT, 1) by { OutputLevelOfB(); }
    FlushTakes(S5, 1, B, S6);
  }

  /** B may go into level 1, which is empty, but not past it, since A is in level 2. */
  lemma OutputLevelOfB()
    ensures IsOutputLevel(Levels([], [], [A]), 0, 0, OVERLAP_LIMIT, 1)
  {
    hide Overlapping, TotalFileSize;
    var v := Levels([], [], [A]);
    OneOverlaps(A, 0, 0);
    OneSize(A);
    assert Overlapping([], Some(0), Some(0)) == [] by { NoneOverlaps([], Some(0), Some(0)); }
    assert MayGoBelow(v, 0, 0, 0, OVERLAP_LIMIT) && !MayGoBelow(v, 1, 0, 0, OVERLAP_LIMIT);
  }

  lemma OneSize(f: File)
    ensures TotalFileSize([f]) == f.size
  {
    assert [f][1..] == [];
  }

  lemma FlushF()
    requires Installed(S10.version)
    ensures Takes(S10, STEPS[10], S11)
  {
    hide Takes, Installed;
    assert IsOutputLevel(S10.version, 0, 1, OVERLAP_LIMIT, 0) by { StaysAtZero([B], [A], B, 0, 1); }
    FlushTakes(S10, 0, F, S11);
  }

  lemma FlushH()
    requires Installed(S16.version)
    ensures Takes(S16, STEPS[16], S17)
  {
    hide Takes, Installed;
    assert IsOutputLevel(S16.version, 0, 0, OVERLAP_LIMIT, 0) by { StaysAtZero([G1, G2], [A], G1, 0, 0); }
    FlushTakes(S16, 0, H, S17);
  }

  /** A table that meets a file of level 1 stays in level 0. */
  lemma StaysAtZero(one: seq<File>, two: seq<File>, f: File, lo: UserKey, hi: UserKey)
    requires f in one && Overlaps(f, Some(lo), Some(hi))
    ensures IsOutputLevel(Levels([], one, two), lo, hi, OVERLAP_LIMIT, 0)
  {
    hide Overlapping;
    NoneOverlaps([], Some(lo), Some(hi));
    NoneOverlaps(one, Some(lo), Some(hi));
    assert !MayGoBelow(Levels([], one, two), 0, lo, hi, OVERLAP_LIMIT);
  }

  // ------------------------------------------------------------------- picks

  lemma PickTakes(s: State, f: File, in1: seq<File>, two: File, lo: InternalKey, hi: InternalKey, ss: nat, t: State)
    requires |s.version.levels| == NUM_LEVELS && s.version == Levels([f], s.version.levels[1], [two]) && s.running.None?
    requires in1 != [] && IsSmallestKey([f] + in1, lo) && IsLargestKey([f] + in1, hi) && !IsBoundary(f, f.largest)
    requires in1 == Overlapping(s.version.levels[1], Some(f.smallest.user), Some(f.largest.user))
    requires ss == s.SmallestSnapshot() && t == s.(running := Some(Pick(s.version, 0, [f], in1, ss)))
    ensures Takes(s, StartCompaction(Pick(s.version, 0, [f], in1, ss)), t)
  {
    hide Overlapping, ValidPick, IsSmallestKey, IsLargestKey, IsBoundary, ValidChoice, IsTrivialMove;
    PickIsValid(s.version, f, in1);
    PickIsChoice(s.version, f, in1, two, lo, hi);
    var c := Choice([f], in1, Overlapping([two], Some(lo.user), Some(hi.user)), f.largest);
    NotTrivial(c);
    assert IsChoice(s.version, Pick(s.version, 0, [f], in1, ss), c);
  }

  lemma PickIsValid(v: Version, f: File, in1: seq<File>)
    requires |v.levels| == NUM_LEVELS && v.levels[0] == [f]
    requires in1 == Overlapping(v.levels[1], Some(f.smallest.user), Some(f.largest.user))
    ensures ValidPick(v, 0, [f], in1)
  {
    hide Overlapping;
    assert f in [f];
    assert IsSmallestKey([f], f.smallest) && IsLargestKey([f], f.largest);
  }

  lemma PickIsChoice(v: Version, f: File, in1: seq<File>, two: File, lo: InternalKey, hi: InternalKey)
    requires |v.levels| == NUM_LEVELS && v.levels[0] == [f] && v.levels[2] == [two] && ValidPick(v, 0, [f], in1)
    requires IsSmallestKey([f] + in1, lo) && IsLargestKey([f] + in1, hi) && !IsBoundary(f, f.largest)
    ensures ValidChoice(v, 0, Choice([f], in1, Overlapping([two], Some(lo.user), Some(hi.user)), f.largest))
  {
    hide Overlapping, ValidPick, IsBoundary, IsSmallestKey;
    assert f in [f];
    assert IsLargestKey([f], f.largest);
    LargestOfOne(f);
    assert BoundaryClosed([f], [f]);
    assert MeetsRangeOf(v, 2, [f] + in1, Overlapping([two], Some(lo.user), Some(hi.user)));
  }

  lemma NotTrivial(c: Choice)
    requires c.in1 != []
    ensures !IsTrivialMove(c, OVERLAP_LIMIT)
  {
  }

  lemma FirstPick()
    ensures Takes(S11, STEPS[11], S12)
  {
    hide Takes, Overlapping;
    OneOverlaps(B, 0, 1);
    assert F in [F] + [B] && B in [F] + [B];
    assert IsSmallestKey([F] + [B], P0.key) && IsLargestKey([F] + [B], P1.key);
    PickTakes(S11, F, [B], A, P0.key, P1.key, 4, S12);
  }

  lemma SecondPick()
    ensures Takes(S17, STEPS[17], S18)
  {
    hide Takes, Overlapping;
    TwoOverlap(G1, G2, 0, 0);
    assert [G1] + [] == [G1];
    assert H in [H] + [G1] && G1 in [H] + [G1];
    assert IsSmallestKey([H] + [G1], Q0.key) && IsLargestKey([H] + [G1], D1.key);
    PickTakes(S17, H, [G1], A, Q0.key, D1.key, 6, S18);
  }

  // ------------------------------------------------------- the first compaction

  /** The snapshot at 4 protects both entries of key 1, and the cut falls between them. */
  lemma FirstLoop()
    ensures Kept([P0, EB, D1, P1], 4, 4, PICK1.base, 0) == [P0, D1, P1]
    ensures Concatenated([G1, G2]) == [P0, D1, P1]
  {
    var input := [P0, EB, D1, P1];
    var v := PICK1.base;
    assert Kept(input, 0, 4, v, 0) == [] && Kept(input, 1, 4, v, 0) == [P0] && Kept(input, 2, 4, v, 0) == [P0];
    assert Kept(input, 3, 4, v, 0) == [P0, D1];
    assert [G1, G2][..1] == [G1] && [G1][..0] == [];
    assert Concatenated([]) == [] && Concatenated([G1]) == [P0, D1];
  }

  lemma FirstFinishIsEnabled()
    ensures Enabled(S12, STEPS[12])
  {
    hide Kept, Concatenated;
    FirstLoop();
    assert forall e :: e in SetOf([P0, EB, D1, P1]) <==> e in F.entries || e in B.entries;
    assert F in [F] && B in [B];
  }

  lemma FirstFinish()
    requires Installed(S12.version)
    ensures Takes(S12, STEPS[12], S13)
  {
    hide Installed, Install, Kept, Concatenated;
    FirstFinishIsEnabled();
    assert F in [F] && B in [B];
    MoveInstalls(S12.version, Move(0, [F], [B], [G1, G2]), [G1, G2]);
    assert Above(10, []) == 10 && Above(10, [G2]) == 12 && [G1, G2][1..] == [G2];
  }

  lemma FirstFinishIsSafe(s: State, step: Step)
    requires s == S12 && step == STEPS[12] && Invariant(s) && Enabled(s, step)
    ensures Safe(s, step)
  {
    hide Invariant, Enabled, Uncovers;
    LargestOfOne(B);
    assert BoundaryClosed([B], [B]);
    ClosedInputsAreSafe(s, step.input, step.outs);
  }

  lemma LargestOfOne(f: File)
    ensures forall key :: IsLargestKey([f], key) ==> key == f.largest
  {
  }

  // ------------------------------------------------------------------ the run

  lemma Takes18(n: nat)
    requires n < 18 && Installed(STATES[n].version)
    ensures Takes(STATES[n], STEPS[n], STATES[n + 1])
  {
    hide Takes, Installed, S0, S1, S2, S3, S4, S5, S6, S7, S8, S9, S10, S11, S12, S13, S14, S15, S16, S17, S18;
    if n == 0 || n == 3 || n == 14 { WritesOfOne(); }
    else if n == 6 { WriteOfTwo(); }
    else if n == 8 { WriteOfDeletion(); }
    else if n == 1 || n == 4 || n == 9 || n == 15 { Switches(); }
    else if n == 7 || n == 13 { Snapshots(); }
    else if n == 2 { FlushA(); }
    else if n == 5 { FlushB(); }
    else if n == 10 { FlushF(); }
    else if n == 16 { FlushH(); }
    else if n == 11 { FirstPick(); }
    else if n == 12 { FirstFinish(); }
    else { SecondPick(); }
  }

  lemma {:induction false} InvariantAt(n: nat)
    requires n <= 18
    ensures Invariant(STATES[n])
  {
    hide Invariant, Enabled, Next, Chosen;
    if n == 0 {
      InitOk(S0) by { StartsEmpty(); }
    } else {
      InvariantAt(n - 1);
      TablesInstalled(STATES[n - 1]);
      Takes18(n - 1);
      StepKeepsInvariant(STATES[n - 1], STEPS[n - 1]);
    }
  }

  lemma StartsEmpty()
    ensures Init(S0)
  {
  }

  lemma TablesInstalled(s: State)
    requires Invariant(s)
    ensures Installed(s.version)
  {
  }

  ghost predicate Good(s: State, step: Step, t: State) {
    Invariant(s) && Takes(s, step, t) && Safe(s, step)
  }

  lemma TakenIsGood(s: State, step: Step, t: State)
    requires Invariant(s) && Takes(s, step, t)
    ensures Good(s, step, t)
  {
    hide Invariant, Enabled, Chosen, Uncovers;
    if step.FinishCompaction? {
      FirstFinishIsSafe(s, step);
    }
  }

  lemma GoodAt(i: nat)
    requires i < 18
    ensures Good(STATES[i], STEPS[i], STATES[i + 1])
  {
    hide Good, Invariant, Takes, Installed;
    InvariantAt(i);
    TablesInstalled(STATES[i]);
    Takes18(i);
    TakenIsGood(STATES[i], STEPS[i], STATES[i + 1]);
  }

  lemma GoodRun(states: seq<State>, steps: seq<Step>)
    requires |states| == |steps| + 1 && Init(states[0])
    requires forall i :: 0 <= i < |steps| ==> Good(states[i], steps[i], states[i + 1])
    ensures IsSafeRun(states, steps)
    ensures forall i :: 0 <= i < |steps| ==> |states[i].version.levels| == NUM_LEVELS && Chosen(states[i], steps[i])
  {
    hide Chosen, Enabled, Next, Invariant, Safe;
    forall i | 0 <= i < |steps|
      ensures |states[i].version.levels| == NUM_LEVELS && Enabled(states[i], steps[i]) && Chosen(states[i], steps[i])
              && states[i + 1] == Next(states[i], steps[i]) && Invariant(states[i]) && Safe(states[i], steps[i])
    {
      assert Good(states[i], steps[i], states[i + 1]);
    }
  }

  lemma Lengths()
    ensures |STATES| == 19 && |STEPS| == 18 && STATES[18] == S18 && Init(STATES[0])
  {
  }

  lemma RunUpToLast()
    ensures IsSafeRun(STATES, STEPS)
    ensures forall i :: 0 <= i < |STEPS| ==> |STATES[i].version.levels| == NUM_LEVELS && Chosen(STATES[i], STEPS[i])
  {
    hide Good, Chosen, IsSafeRun;
    Lengths();
    forall i | 0 <= i < |STEPS| ensures Good(STATES[i], STEPS[i], STATES[i + 1]) {
      GoodAt(i);
    }
    GoodRun(STATES, STEPS);
  }

  // -------------------------------------------------------- the last compaction

  /** Without a snapshot the second loop drops the deletion of key 1. */
  lemma SecondLoop()
    ensures Kept([Q0, P0, D1], 3, 6, PICK2.base, 0) == [Q0]
    ensures Concatenated([K]) == [Q0] && IsBaseLevel(PICK2.base, 0, 1)
  {
    var input := [Q0, P0, D1];
    var v := PICK2.base;
    assert IsBaseLevel(v, 0, 1);
    assert Kept(input, 0, 6, v, 0) == [] && Kept(input, 1, 6, v, 0) == [Q0] && Kept(input, 2, 6, v, 0) == [Q0];
    assert [K][..0] == [] && Concatenated([]) == [];
  }

  lemma LastIsEnabled()
    ensures Enabled(S18, LAST)
  {
    hide Kept, Concatenated;
    SecondLoop();
    assert forall e :: e in SetOf([Q0, P0, D1]) <==> e in H.entries || e in G1.entries;
    assert H in [H] && G1 in [G1];
  }

  lemma StoredAtLast(e: Entry)
    requires e in S18.Data()
    ensures e in [EA, P0, P1, D1, Q0]
  {
    var v := S18.version;
    var l: nat :| l < NUM_LEVELS && e in LevelEntries(v, l);
    assert l <= 2;
  }

  lemma BesideAtLast(e: Entry)
    ensures e in SceneOf(S18, [Q0, P0, D1], [K]).beside <==> e == P1
  {
    assert Move(0, [H], [G1], [K]).Stays(S18.version.levels[1], 1, G2);
    assert G1 in [G1] && P1 in G2.entries;
  }

  lemma LastUncovers()
    requires Invariant(S18) && Enabled(S18, LAST)
    ensures Uncovers(S18, [Q0, P0, D1], [K])
  {
    hide Invariant, Enabled, Kept, Concatenated;
    var input := [Q0, P0, D1];
    SecondLoop();
    SceneIsValid(S18, input, [K]);
    var c := SceneOf(S18, input, [K]);
    forall e | e in c.Before() ensures e in [EA, P0, P1, D1, Q0] {
      StoredAtLast(e);
    }
    forall e ensures e in c.beside <==> e == P1 {
      BesideAtLast(e);
    }
    UncoversAtLast(c);
  }

  lemma UncoversAtLast(c: Scene)
    requires |c.v.levels| == NUM_LEVELS && c.input == [Q0, P0, D1] && IsBaseLevel(c.v, c.level, 1)
    requires forall e :: e in c.Before() ==> e in [EA, P0, P1, D1, Q0]
    requires forall e :: e in c.beside <==> e == P1
    ensures c.Resurrects(6, D1, P1)
  {
    assert D1 in c.input;
    assert IsNewest(c.Before(), 1, 6, D1);
  }

  /** From the empty database, by steps with the code's own choices, to a database that shows a
      deleted key; every compaction but the last is safe. */
  lemma SplitKeyComesBack()
    ensures IsSafeRun(STATES, STEPS) && |STATES| == 19 && STATES[18] == S18
    ensures forall i :: 0 <= i < |STEPS| ==> |STATES[i].version.levels| == NUM_LEVELS && Chosen(STATES[i], STEPS[i])
    ensures Invariant(S18) && Enabled(S18, LAST)
    ensures IsRun(STATES + [Next(S18, LAST)], STEPS + [LAST])
    ensures |Next(S18, LAST).version.levels| == NUM_LEVELS && !ReadsRight(Next(S18, LAST))
  {
    hide Enabled, Next, Invariant, IsSafeRun, IsRun, ReadsRight, Chosen;
    Lengths();
    RunUpToLast();
    InvariantAt(18);
    LastIsEnabled();
    LastBreaksReads();
    RunOfSafeRun(STATES, STEPS);
    OneMoreStep(STATES, STEPS, LAST);
  }

  lemma RunOfSafeRun(states: seq<State>, steps: seq<Step>)
    requires IsSafeRun(states, steps)
    ensures IsRun(states, steps)
  {
  }

  lemma LastBreaksReads()
    requires IsSafeRun(STATES, STEPS) && Invariant(S18) && Enabled(S18, LAST)
    ensures |Next(S18, LAST).version.levels| == NUM_LEVELS && !ReadsRight(Next(S18, LAST))
  {
    hide Enabled, Next, Invariant, IsSafeRun, ReadsRight;
    Lengths();
    LastUncovers();
    SafeRunReadsRight(STATES, STEPS, 18);
    StepKeepsReads(S18, LAST);
  }

  lemma OneMoreStep(states: seq<State>, steps: seq<Step>, last: Step)
    requires IsRun(states, steps) && |states[|steps|].version.levels| == NUM_LEVELS && Enabled(states[|steps|], last)
    ensures IsRun(states + [Next(states[|steps|], last)], steps + [last])
  {
  }
}
