/** When a user key is split between the files a compaction takes from level + 1 and the ones
    it leaves there (db/version_set.cc:1407-1411, db/db_impl.cc:949-960). */
module SplitKey {
  import opened DbFormat
  import opened Versions
  import opened InputSelection
  import opened Compactions
  import opened CompactionMeaning
  import opened VersionBuilder
  import opened LevelOrderKept
  import opened Engine

  // ------------------------------------------------- closed inputs are safe

  /** An uncovered value sits in a file that directly continues the last user key of `in1`. */
  lemma UncoveredIsSplit(v: Version, m: Move, t: Entry, g: File, o: Entry)
    requires Ordered(v) && Unambiguous(Contents(v)) && m.level + 1 < NUM_LEVELS
    requires ValidPick(v, m.level, m.in0, m.in1)
    requires t in EntriesOf(m.in0) + EntriesOf(m.in1)
    requires g in v.levels[m.level + 1] && g !in m.in1 && o in g.entries
    requires t.key.user == o.key.user && o.key.sequence < t.key.sequence
    ensures !BoundaryClosed(v.levels[m.level + 1], m.in1)
  {
    PickIsChosen(v, m);
    NextIsGapless(v, m);
    var f := InputFile(v, m, t, g, o);
    SplitFiles(v, m.level + 1, m.in1, f, g, t, o);
  }

  lemma InputFile(v: Version, m: Move, t: Entry, g: File, o: Entry) returns (f: File)
    requires Shaped(v) && m.level + 1 < NUM_LEVELS && ValidPick(v, m.level, m.in0, m.in1)
    requires t in EntriesOf(m.in0) + EntriesOf(m.in1) && t.key.user == o.key.user
    requires g in v.levels[m.level + 1] && g !in m.in1 && o in g.entries
    ensures f in m.in1 && t in f.entries
  {
    if t in EntriesOf(m.in1) {
      f :| f in m.in1 && t in f.entries;
    } else {
      f :| f in m.in0 && t in f.entries;
      SharedKeyIsTaken(v, m, f, t, g, o);
    }
  }

  lemma NextIsGapless(v: Version, m: Move)
    requires Ordered(v) && m.level + 1 < NUM_LEVELS && ValidPick(v, m.level, m.in0, m.in1)
    ensures Gapless(v.levels[m.level + 1], m.in1)
  {
    var files := v.levels[m.level + 1];
    var lo, hi :| IsSmallestKey(m.in0, lo) && IsLargestKey(m.in0, hi)
                  && m.in1 == Overlapping(files, Some(lo.user), Some(hi.user));
    OverlappingIsGapless(files, Some(lo.user), Some(hi.user));
  }

  /** A file of level + 1 that shares a user key with `in0` is among the inputs. */
  lemma SharedKeyIsTaken(v: Version, m: Move, f: File, t: Entry, g: File, o: Entry)
    requires Shaped(v) && m.level + 1 < NUM_LEVELS && ValidPick(v, m.level, m.in0, m.in1)
    requires f in m.in0 && t in f.entries && g in v.levels[m.level + 1] && o in g.entries && t.key.user == o.key.user
    ensures g in m.in1
  {
    hide LeavesNewer, Overlapping;
    var files := v.levels[m.level + 1];
    var lo, hi :| IsSmallestKey(m.in0, lo) && IsLargestKey(m.in0, hi)
                  && m.in1 == Overlapping(files, Some(lo.user), Some(hi.user));
    OverlappingIs(files, Some(lo.user), Some(hi.user));
    assert f in v.levels[m.level];
    EntryWithinFile(f, t);
    EntryWithinFile(g, o);
  }

  lemma SplitFiles(v: Version, l: nat, picked: seq<File>, f: File, g: File, t: Entry, o: Entry)
    requires Ordered(v) && Unambiguous(Contents(v)) && 0 < l < NUM_LEVELS
    requires Gapless(v.levels[l], picked) && AllIn(picked, v.levels[l])
    requires f in picked && g in v.levels[l] && g !in picked && t in f.entries && o in g.entries
    requires t.key.user == o.key.user && o.key.sequence < t.key.sequence
    ensures !BoundaryClosed(v.levels[l], picked)
  {
    var files := v.levels[l];
    LevelUnambiguous(v, l);
    var i :| 0 <= i < |files| && files[i] == f;
    var j :| 0 <= j < |files| && files[j] == g;
    EntryWithinFile(f, t);
    EntryWithinFile(g, o);
    assert o in SetOf(g.entries) && t in SetOf(f.entries);
    if j < i {
      EarlierIsNewer(files, j, i);
    } else if BoundaryClosed(files, picked) {
      NothingGoesOn(files, picked, i, j);
    }
  }

  /** If no file of level + 1 continues the last user key of the files taken from it, finishing
      the compaction keeps reads right. */
  lemma ClosedInputsAreSafe(s: State, input: seq<Entry>, outs: seq<File>)
    requires Invariant(s) && Enabled(s, FinishCompaction(input, outs))
    requires BoundaryClosed(s.version.levels[s.running.value.level + 1], s.running.value.in1)
    ensures !Uncovers(s, input, outs)
  {
    RunningPick(s);
    ClosedSceneIsSafe(s, input, outs);
  }

  lemma RunningPick(s: State)
    requires Invariant(s) && s.running.Some?
    ensures Ordered(s.version) && Unambiguous(Contents(s.version)) && s.running.value.level + 1 < NUM_LEVELS
    ensures ValidPick(s.version, s.running.value.level, s.running.value.in0, s.running.value.in1)
  {
    DataUnambiguous(s);
    TablesUnambiguous(s);
  }

  lemma ClosedSceneIsSafe(s: State, input: seq<Entry>, outs: seq<File>)
    requires s.running.Some? && |s.running.value.base.levels| == NUM_LEVELS && s.running.value.level + 1 < NUM_LEVELS
    requires Ordered(s.version) && Unambiguous(Contents(s.version))
    requires ValidPick(s.version, s.running.value.level, s.running.value.in0, s.running.value.in1)
    requires BoundaryClosed(s.version.levels[s.running.value.level + 1], s.running.value.in1)
    requires SetOf(input) == EntriesOf(s.running.value.in0) + EntriesOf(s.running.value.in1)
    ensures !Uncovers(s, input, outs)
  {
    var p := s.running.value;
    var m := Move(p.level, p.in0, p.in1, outs);
    NoPairUncovers(s.version, m, SceneOf(s, input, outs), p.smallestSnapshot);
  }

  lemma NoPairUncovers(v: Version, m: Move, c: Scene, smallestSnapshot: nat)
    requires Ordered(v) && Unambiguous(Contents(v)) && m.level + 1 < NUM_LEVELS
    requires ValidPick(v, m.level, m.in0, m.in1) && BoundaryClosed(v.levels[m.level + 1], m.in1)
    requires |c.v.levels| == NUM_LEVELS && SetOf(c.input) == EntriesOf(m.in0) + EntriesOf(m.in1)
    requires c.beside == StayingEntries(m, v, m.level + 1)
    ensures forall t, o :: !c.Resurrects(smallestSnapshot, t, o)
  {
    forall t, o ensures !c.Resurrects(smallestSnapshot, t, o) {
      if t in c.input && o in c.beside && o.key.user == t.key.user {
        assert t in SetOf(c.input);
        NothingUncovered(v, m, t, o);
      }
    }
  }

  lemma TablesUnambiguous(s: State)
    requires |s.version.levels| == NUM_LEVELS && Unambiguous(s.Data())
    ensures Unambiguous(Contents(s.version))
  {
    assert forall e :: e in Contents(s.version) ==> e in s.Data();
  }

  lemma NothingUncovered(v: Version, m: Move, t: Entry, o: Entry)
    requires Ordered(v) && Unambiguous(Contents(v)) && m.level + 1 < NUM_LEVELS
    requires ValidPick(v, m.level, m.in0, m.in1) && BoundaryClosed(v.levels[m.level + 1], m.in1)
    requires t in EntriesOf(m.in0) + EntriesOf(m.in1)
    requires o in StayingEntries(m, v, m.level + 1) && t.key.user == o.key.user
    ensures o.key.sequence >= t.key.sequence
  {
    if o.key.sequence < t.key.sequence {
      var g := StayingFile(m, v, m.level + 1, o);
      UncoveredIsSplit(v, m, t, g, o);
    }
  }

  lemma StayingFile(m: Move, v: Version, l: nat, o: Entry) returns (g: File)
    requires |v.levels| == NUM_LEVELS && l == m.level + 1 < NUM_LEVELS && o in StayingEntries(m, v, l)
    ensures g in v.levels[l] && g !in m.in1 && o in g.entries
  {
    g :| m.Stays(v.levels[l], l, g) && o in g.entries;
  }
}
