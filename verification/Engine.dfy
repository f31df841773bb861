/** The storage engine as a step machine: writes, memtable switches, flushes, compactions,
    trivial moves and snapshots (db/db_impl.cc, db/version_set.cc, db/snapshot.h). */
module Engine {
  import opened DbFormat
  import opened Versions
  import opened InputSelection
  import opened Compactions
  import opened CompactionMeaning
  import opened VersionBuilder
  import opened LevelOrderKept

  datatype Op = Put(key: UserKey, value: Bytes) | Delete(key: UserKey)

  /** The entry of the i-th operation ever written; sequence numbers start at 1. */
  function EntryOf(op: Op, i: nat): Entry {
    match op
    case Put(key, value) => Entry(InternalKey(key, i + 1, TypeValue), value)
    case Delete(key) => Entry(InternalKey(key, i + 1, TypeDeletion), [])
  }

  ghost function History(ops: seq<Op>): iset<Entry> {
    iset i | 0 <= i < |ops| :: EntryOf(ops[i], i)
  }

  /** The entries of a batch written after `n` operations. */
  ghost function BatchEntries(batch: seq<Op>, n: nat): iset<Entry> {
    iset i | 0 <= i < |batch| :: EntryOf(batch[i], n + i)
  }

  /** A compaction in progress. */
  datatype Pick = Pick(base: Version, level: nat, in0: seq<File>, in1: seq<File>, smallestSnapshot: nat)

  datatype State = State(
    ops: seq<Op>,              // every operation written, in order; LastSequence is its length
    mem: seq<Entry>,
    imm: Option<seq<Entry>>,
    version: Version,
    nextFile: nat,
    snapshots: seq<nat>,       // oldest first
    running: Option<Pick>,
    floor: nat)                // the smallest snapshot of the last finished compaction
  {
    ghost function Data(): iset<Entry>
      requires |version.levels| == NUM_LEVELS
    {
      Everything(mem, imm, version)
    }

    function SmallestSnapshot(): nat {
      if snapshots == [] then |ops| else snapshots[0]
    }
  }

  datatype Step =
    | Write(batch: seq<Op>, newMem: seq<Entry>)
    | SwitchMemtable
    | Flush(level: nat, file: File)
    | DropEmptyMemtable
    | StartCompaction(pick: Pick)
    | FinishCompaction(input: seq<Entry>, outs: seq<File>)
    | TrivialMove(fromLevel: nat, moved: File)
    | TakeSnapshot
    | ReleaseSnapshot(index: nat)

  ghost predicate Init(s: State) {
    s == State([], [], None, EmptyVersion(NUM_LEVELS), 2, [], None, 0)
  }

  ghost predicate Unused(v: Version, number: nat) {
    forall l, f :: 0 <= l < |v.levels| && f in v.levels[l] ==> f.number != number
  }

  /** The metadata that TableBuilder's callers record: first and last key of a nonempty table. */
  ghost predicate Built(f: File) {
    && f.entries != []
    && f.smallest == f.entries[0].key
    && f.largest == f.entries[|f.entries| - 1].key
  }

  /** The output tables of the merge loop: its cuts, numbered with unused numbers. */
  ghost predicate OutputFiles(v: Version, outs: seq<File>, kept: seq<Entry>) {
    && (forall i :: 0 <= i < |outs| ==> Built(outs[i]))
    && Concatenated(outs) == kept
    && DistinctNumbers(outs)
    && forall f :: f in outs ==> Unused(v, f.number)
  }

  ghost function Concatenated(outs: seq<File>): seq<Entry> {
    if outs == [] then [] else Concatenated(outs[..|outs| - 1]) + outs[|outs| - 1].entries
  }

  ghost function KeptBy(p: Pick, input: seq<Entry>): seq<Entry>
    requires |p.base.levels| == NUM_LEVELS
  {
    Kept(input, |input|, p.smallestSnapshot, p.base, p.level)
  }

  ghost predicate Enabled(s: State, step: Step)
    requires |s.version.levels| == NUM_LEVELS
  {
    match step
    case Write(batch, newMem) =>
      && |s.ops| + |batch| < MAX_SEQUENCE
      && Sorted(newMem)
      && SetOf(newMem) == SetOf(s.mem) + BatchEntries(batch, |s.ops|)
    case SwitchMemtable =>
      s.imm.None?
    case Flush(level, file) =>
      && s.imm == Some(file.entries) && Built(file)
      && file.number >= s.nextFile && level <= MAX_MEM_COMPACT_LEVEL
      && (level > 0 ==> s.running.None? && Unmet(s.version, level, file.smallest.user, file.largest.user))
    case DropEmptyMemtable =>
      s.imm == Some([])
    case StartCompaction(p) =>
      && s.running.None? && p.base == s.version && p.level + 1 < NUM_LEVELS
      && ValidPick(s.version, p.level, p.in0, p.in1)
      && p.smallestSnapshot == s.SmallestSnapshot()
    case FinishCompaction(input, outs) =>
      && s.running.Some? && |s.running.value.base.levels| == NUM_LEVELS
      && Sorted(input)
      && SetOf(input) == EntriesOf(s.running.value.in0) + EntriesOf(s.running.value.in1)
      && OutputFiles(s.version, outs, KeptBy(s.running.value, input))
    case TrivialMove(level, f) =>
      && s.running.None? && level + 1 < NUM_LEVELS
      && ValidPick(s.version, level, [f], [])
    case TakeSnapshot =>
      true
    case ReleaseSnapshot(index) =>
      index < |s.snapshots|
  }

  function Max(a: nat, b: nat): nat {
    if a < b then b else a
  }

  function Above(nextFile: nat, outs: seq<File>): nat {
    if outs == [] then nextFile else Max(Above(nextFile, outs[1..]), outs[0].number + 1)
  }

  ghost function Next(s: State, step: Step): State
    requires |s.version.levels| == NUM_LEVELS && Enabled(s, step)
  {
    match step
    case Write(batch, newMem) =>
      s.(ops := s.ops + batch, mem := newMem)
    case SwitchMemtable =>
      s.(imm := Some(s.mem), mem := [])
    case Flush(level, file) =>
      s.(imm := None, version := Install(s.version, [FlushEdit(level, file)]), nextFile := file.number + 1)
    case DropEmptyMemtable =>
      s.(imm := None)
    case StartCompaction(p) =>
      s.(running := Some(p))
    case FinishCompaction(input, outs) =>
      var p := s.running.value;
      s.(version := Install(s.version, [Move(p.level, p.in0, p.in1, outs).ToEdit()]),
         nextFile := Above(s.nextFile, outs), running := None, floor := p.smallestSnapshot)
    case TrivialMove(level, f) =>
      s.(version := Install(s.version, [Move(level, [f], [], [f]).ToEdit()]))
    case TakeSnapshot =>
      s.(snapshots := s.snapshots + [|s.ops|])
    case ReleaseSnapshot(index) =>
      s.(snapshots := s.snapshots[..index] + s.snapshots[index + 1..])
  }

  // -------------------------------------------------------------- invariant

  /** The sequence-number side: what is stored was written, and memtables are newest. */
  ghost predicate StoredOk(ops: seq<Op>, mem: seq<Entry>, imm: Option<seq<Entry>>, v: Version)
    requires |v.levels| == NUM_LEVELS
  {
    && |ops| < MAX_SEQUENCE
    && Sorted(mem) && (imm.Some? ==> Sorted(imm.value))
    && Everything(mem, imm, v) <= History(ops)
    && Newer(SetOf(mem), Contents(v))
    && (imm.Some? ==> Newer(SetOf(mem), SetOf(imm.value)) && Newer(SetOf(imm.value), Contents(v)))
  }

  ghost predicate DataOk(s: State)
    requires |s.version.levels| == NUM_LEVELS
  {
    StoredOk(s.ops, s.mem, s.imm, s.version)
  }

  ghost predicate NumbersOk(v: Version, nextFile: nat) {
    && (forall l, f :: 0 <= l < |v.levels| && f in v.levels[l] ==> f.number < nextFile)
    && forall l, m, f, g :: 0 <= l < m < |v.levels| && f in v.levels[l] && g in v.levels[m] ==> f.number != g.number
  }

  ghost predicate SnapshotsOk(snapshots: seq<nat>, floor: nat, last: nat) {
    && (forall i, j :: 0 <= i < j < |snapshots| ==> snapshots[i] <= snapshots[j])
    && (forall i :: 0 <= i < |snapshots| ==> floor <= snapshots[i] <= last)
    && floor <= last
  }

  ghost predicate NotBefore(snapshots: seq<nat>, smallest: nat) {
    forall i :: 0 <= i < |snapshots| ==> smallest <= snapshots[i]
  }

  /** The inputs of a running compaction are still where they were picked. */
  ghost predicate StillPicked(v: Version, p: Pick)
    requires |v.levels| == NUM_LEVELS
  {
    && |p.base.levels| == NUM_LEVELS && p.level + 1 < NUM_LEVELS
    && ValidPick(v, p.level, p.in0, p.in1)
    && forall l :: 1 <= l < NUM_LEVELS ==> p.base.levels[l] == v.levels[l]
  }

  ghost predicate RunningOk(s: State, p: Pick)
    requires |s.version.levels| == NUM_LEVELS
  {
    && StillPicked(s.version, p)
    && s.floor <= p.smallestSnapshot <= |s.ops|
    && NotBefore(s.snapshots, p.smallestSnapshot)
  }

  ghost predicate Invariant(s: State) {
    && Installed(s.version)
    && NumbersOk(s.version, s.nextFile)
    && DataOk(s)
    && SnapshotsOk(s.snapshots, s.floor, |s.ops|)
    && (s.running.Some? ==> RunningOk(s, s.running.value))
  }

  lemma HistoryUnambiguous(ops: seq<Op>)
    ensures Unambiguous(History(ops))
  {
  }

  lemma DataUnambiguous(s: State)
    requires |s.version.levels| == NUM_LEVELS && DataOk(s)
    ensures Unambiguous(s.Data())
  {
    HistoryUnambiguous(s.ops);
    assert forall e :: e in s.Data() ==> e in History(s.ops);
  }

  lemma InitOk(s: State)
    requires Init(s)
    ensures Invariant(s)
  {
    assert Contents(s.version) == iset{};
  }

  lemma HistoryGrows(ops: seq<Op>, batch: seq<Op>)
    ensures History(ops + batch) == History(ops) + BatchEntries(batch, |ops|)
  {
    var all := ops + batch;
    forall e ensures e in History(all) <==> e in History(ops) + BatchEntries(batch, |ops|) {
      if i :| 0 <= i < |all| && e == EntryOf(all[i], i) {
        if i >= |ops| {
          assert e == EntryOf(batch[i - |ops|], |ops| + (i - |ops|));
        } else {
          assert e == EntryOf(ops[i], i);
        }
      }
      if i :| 0 <= i < |ops| && e == EntryOf(ops[i], i) {
        assert all[i] == ops[i];
      }
      if i :| 0 <= i < |batch| && e == EntryOf(batch[i], |ops| + i) {
        assert all[|ops| + i] == batch[i];
      }
    }
  }

  ghost predicate UpTo(es: iset<Entry>, n: nat) {
    forall e :: e in es ==> e.key.sequence <= n
  }

  lemma BatchIsNewer(a: iset<Entry>, batch: seq<Op>, n: nat, b: iset<Entry>)
    requires Newer(a, b) && UpTo(b, n)
    ensures Newer(a + BatchEntries(batch, n), b)
  {
  }

  lemma StoredUpTo(s: State)
    requires |s.version.levels| == NUM_LEVELS && s.Data() <= History(s.ops)
    ensures UpTo(Contents(s.version), |s.ops|)
    ensures s.imm.Some? ==> UpTo(SetOf(s.imm.value), |s.ops|)
  {
    assert forall e :: e in Contents(s.version) || (s.imm.Some? && e in SetOf(s.imm.value)) ==> e in s.Data();
    assert UpTo(History(s.ops), |s.ops|);
  }

  lemma WriteKeepsData(s: State, step: Step)
    requires |s.version.levels| == NUM_LEVELS && step.Write? && Enabled(s, step) && DataOk(s)
    ensures DataOk(Next(s, step))
    ensures Next(s, step).Data() == s.Data() + BatchEntries(step.batch, |s.ops|)
  {
    HistoryGrows(s.ops, step.batch);
    StoredUpTo(s);
    BatchIsNewer(SetOf(s.mem), step.batch, |s.ops|, Contents(s.version));
    if s.imm.Some? {
      BatchIsNewer(SetOf(s.mem), step.batch, |s.ops|, SetOf(s.imm.value));
    }
  }

  lemma SwitchKeepsData(s: State)
    requires |s.version.levels| == NUM_LEVELS && s.imm.None? && DataOk(s)
    ensures DataOk(Next(s, SwitchMemtable)) && Next(s, SwitchMemtable).Data() == s.Data()
  {
    assert SetOf([]) == iset{};
  }

  /** The table written from the immutable memtable is one the level-order lemmas accept. */
  lemma FlushedTable(s: State, level: nat, f: File)
    requires Installed(s.version) && NumbersOk(s.version, s.nextFile) && DataOk(s) && Enabled(s, Flush(level, f))
    ensures FlushOk(s.version, level, f)
  {
    forall i | 0 <= i < |f.entries| ensures f.entries[i].key.sequence <= MAX_SEQUENCE {
      assert f.entries[i] in SetOf(s.imm.value);
      assert f.entries[i] in s.Data();
      assert f.entries[i] in History(s.ops);
    }
  }

  lemma FlushKeepsData(s: State, level: nat, f: File)
    requires Installed(s.version) && NumbersOk(s.version, s.nextFile) && DataOk(s) && Enabled(s, Flush(level, f))
    ensures Installed(Next(s, Flush(level, f)).version)
    ensures DataOk(Next(s, Flush(level, f))) && Next(s, Flush(level, f)).Data() == s.Data()
  {
    FlushedTable(s, level, f);
    FlushKeepsInvariant(s.version, level, f);
  }

  // ---------------------------------------------------- finished compactions

  lemma {:induction false} KeptIsSorted(input: seq<Entry>, n: nat, smallestSnapshot: nat, v: Version, level: nat)
    requires Sorted(input) && n <= |input| && |v.levels| == NUM_LEVELS
    ensures Sorted(Kept(input, n, smallestSnapshot, v, level))
    ensures forall e :: e in Kept(input, n, smallestSnapshot, v, level) ==> e in input[..n]
  {
    if n > 0 {
      KeptIsSorted(input, n - 1, smallestSnapshot, v, level);
      var before := Kept(input, n - 1, smallestSnapshot, v, level);
      forall i | 0 <= i < |before| ensures Less(before[i].key, input[n - 1].key) {
        assert before[i] in input[..n - 1];
      }
    }
  }

  lemma {:induction false} SplitConcatenation(outs: seq<File>)
    requires outs != [] && Sorted(Concatenated(outs)) && Bounded(Concatenated(outs))
    ensures var n := |outs| - 1;
            && Sorted(Concatenated(outs[..n])) && Bounded(Concatenated(outs[..n]))
            && Sorted(outs[n].entries) && Bounded(outs[n].entries)
            && forall e, o :: e in Concatenated(outs[..n]) && o in outs[n].entries ==> Less(e.key, o.key)
  {
    var n := |outs| - 1;
    var before, all := Concatenated(outs[..n]), Concatenated(outs);
    assert all[..|before|] == before && all[|before|..] == outs[n].entries;
    forall e, o | e in before && o in outs[n].entries ensures Less(e.key, o.key) {
      var i :| 0 <= i < |before| && before[i] == e;
      var j :| 0 <= j < |outs[n].entries| && outs[n].entries[j] == o;
      assert all[i] == e && all[|before| + j] == o;
    }
  }

  lemma EntriesOfLast(outs: seq<File>)
    requires outs != []
    ensures EntriesOf(outs) == EntriesOf(outs[..|outs| - 1]) + SetOf(outs[|outs| - 1].entries)
  {
    var n := |outs| - 1;
    assert outs == outs[..n] + [outs[n]];
  }

  lemma {:induction false} TablesOfConcatenation(outs: seq<File>)
    requires Sorted(Concatenated(outs)) && Bounded(Concatenated(outs)) && forall i :: 0 <= i < |outs| ==> Built(outs[i])
    ensures AllWellFormed(outs) && Disjoint(outs) && EntriesOf(outs) == SetOf(Concatenated(outs))
  {
    hide Sorted, Bounded, EntriesOf, Less;
    if outs != [] {
      var n := |outs| - 1;
      SplitConcatenation(outs);
      TablesOfConcatenation(outs[..n]);
      EntriesOfLast(outs);
      LastIsBehind(outs);
    } else {
      assert EntriesOf([]) == SetOf([]) by { NoEntries(); }
    }
  }

  lemma NoEntries()
    ensures EntriesOf([]) == SetOf([]) == iset{}
  {
  }

  lemma LastIsBehind(outs: seq<File>)
    requires outs != [] && Built(outs[|outs| - 1]) && forall i :: 0 <= i < |outs| ==> Built(outs[i])
    requires EntriesOf(outs[..|outs| - 1]) == SetOf(Concatenated(outs[..|outs| - 1]))
    requires forall e, o ::
             e in Concatenated(outs[..|outs| - 1]) && o in outs[|outs| - 1].entries ==> Less(e.key, o.key)
    ensures forall i :: 0 <= i < |outs| - 1 ==> Less(outs[i].largest, outs[|outs| - 1].smallest)
  {
    hide EntriesOf, Concatenated, Less;
    var n := |outs| - 1;
    forall i | 0 <= i < n ensures Less(outs[i].largest, outs[n].smallest) {
      var last := outs[i].entries[|outs[i].entries| - 1];
      InEntriesOf(outs[..n], outs[i], last);
      assert last in SetOf(Concatenated(outs[..n]));
    }
  }

  lemma OutputsAreBounded(s: State, input: seq<Entry>)
    requires |s.version.levels| == NUM_LEVELS && DataOk(s)
    requires forall e :: e in input ==> e in Contents(s.version)
    ensures Bounded(input)
  {
    forall i | 0 <= i < |input| ensures input[i].key.sequence <= MAX_SEQUENCE {
      assert input[i] in s.Data();
      assert input[i] in History(s.ops);
    }
  }

  lemma UnusedIsFresh(v: Version, l: nat, outs: seq<File>)
    requires l < |v.levels| && DistinctNumbers(outs) && forall f :: f in outs ==> Unused(v, f.number)
    ensures FreshAdds(v.levels[l], outs)
  {
  }

  lemma {:induction false} OutputsAreOk(s: State, input: seq<Entry>, outs: seq<File>)
    requires Invariant(s) && Enabled(s, FinishCompaction(input, outs))
    ensures var p := s.running.value;
            && MoveOk(s.version, Move(p.level, p.in0, p.in1, outs))
            && EntriesOf(outs) == SetOf(KeptBy(p, input))
  {
    var p := s.running.value;
    var m := Move(p.level, p.in0, p.in1, outs);
    var kept := KeptBy(p, input);
    KeptIsSorted(input, |input|, p.smallestSnapshot, p.base, p.level);
    assert forall e :: e in kept ==> e in SetOf(input);
    PickIsChosen(s.version, m);
    ContentsBefore(m, s.version);
    OutputsAreBounded(s, kept);
    TablesOfConcatenation(outs);
    UnusedIsFresh(s.version, p.level + 1, outs);
  }

  /** The parts of the data as the compaction theorem sees them. */
  ghost function SceneOf(s: State, input: seq<Entry>, outs: seq<File>): Scene
    requires |s.version.levels| == NUM_LEVELS && s.running.Some? && s.running.value.level + 1 < NUM_LEVELS
  {
    var p := s.running.value;
    var m := Move(p.level, p.in0, p.in1, outs);
    Scene(input,
          SetOf(s.mem) + (if s.imm.Some? then SetOf(s.imm.value) else iset{}) + StayingUpTo(m, s.version),
          StayingEntries(m, s.version, p.level + 1),
          StayingBelow(m, s.version),
          p.base, p.level)
  }

  ghost function StayingUpTo(m: Move, v: Version): iset<Entry>
    requires |v.levels| == NUM_LEVELS && m.level < NUM_LEVELS
  {
    iset l: nat, e | l <= m.level && e in StayingEntries(m, v, l) :: e
  }

  ghost function StayingBelow(m: Move, v: Version): iset<Entry>
    requires |v.levels| == NUM_LEVELS
  {
    iset l: nat, e | m.level + 2 <= l < NUM_LEVELS && e in StayingEntries(m, v, l) :: e
  }

  lemma StayingParts(m: Move, v: Version)
    requires |v.levels| == NUM_LEVELS && m.level + 1 < NUM_LEVELS
    ensures Staying(m, v) == StayingUpTo(m, v) + StayingEntries(m, v, m.level + 1) + StayingBelow(m, v)
  {
    forall e ensures e in Staying(m, v) <==>
        e in StayingUpTo(m, v) + StayingEntries(m, v, m.level + 1) + StayingBelow(m, v) {
      if l: nat :| l < NUM_LEVELS && e in StayingEntries(m, v, l) {
        assert l <= m.level ==> e in StayingUpTo(m, v);
        assert l >= m.level + 2 ==> e in StayingBelow(m, v);
      }
    }
  }

  lemma StayingIsStored(m: Move, v: Version, l: nat, e: Entry)
    requires |v.levels| == NUM_LEVELS && l < NUM_LEVELS && e in StayingEntries(m, v, l)
    ensures e in LevelEntries(v, l)
  {
  }

  lemma Taken(m: Move, v: Version, o: Entry)
    requires |v.levels| == NUM_LEVELS && m.level + 1 < NUM_LEVELS && m.Chosen(v)
    requires o in EntriesOf(m.in1)
    ensures o in LevelEntries(v, m.level + 1)
  {
    var g :| g in m.in1 && o in g.entries;
    assert g in v.levels[m.level + 1];
  }

  lemma LeftBehindIsNewer(m: Move, v: Version, e: Entry, o: Entry)
    requires |v.levels| == NUM_LEVELS && m.level + 1 < NUM_LEVELS && m.Chosen(v)
    requires e in StayingEntries(m, v, m.level) && o in EntriesOf(m.in0) && e.key.user == o.key.user
    ensures e.key.sequence > o.key.sequence
  {
    var f :| m.Stays(v.levels[m.level], m.level, f) && e in f.entries;
    var g :| g in m.in0 && o in g.entries;
    assert Newer(SetOf(f.entries), SetOf(g.entries));
    assert e in SetOf(f.entries) && o in SetOf(g.entries);
  }

  lemma StayingAreNewer(m: Move, v: Version, l: nat, e: Entry, o: Entry)
    requires |v.levels| == NUM_LEVELS && LevelOrder(v) && m.level + 1 < NUM_LEVELS && m.Chosen(v)
    requires l <= m.level && e in StayingEntries(m, v, l) && e.key.user == o.key.user
    requires o in EntriesOf(m.in0) || o in EntriesOf(m.in1)
    ensures e.key.sequence > o.key.sequence
  {
    StayingIsStored(m, v, l, e);
    if o in EntriesOf(m.in1) {
      Taken(m, v, o);
      assert Newer(LevelEntries(v, l), LevelEntries(v, m.level + 1));
    } else if l < m.level {
      PickedEntry(m, v, o);
      assert Newer(LevelEntries(v, l), LevelEntries(v, m.level));
    } else {
      LeftBehindIsNewer(m, v, e, o);
    }
  }

  lemma InOneFile(files: seq<File>, f: File, g: File, e: Entry)
    requires AllWellFormed(files) && Disjoint(files) && f in files && g in files
    requires e in f.entries && e in g.entries
    ensures f == g
  {
    if f != g {
      DisjointIsApart(files, f, g);
      EntryWithinFile(f, e);
      EntryWithinFile(g, e);
    }
  }

  lemma BesideIsNotInput(m: Move, v: Version, e: Entry)
    requires Ordered(v) && m.level + 1 < NUM_LEVELS && m.Chosen(v)
    requires e in StayingEntries(m, v, m.level + 1)
    ensures e !in EntriesOf(m.in0) && e !in EntriesOf(m.in1)
  {
    StayingIsStored(m, v, m.level + 1, e);
    assert Newer(LevelEntries(v, m.level), LevelEntries(v, m.level + 1));
    var g :| m.Stays(v.levels[m.level + 1], m.level + 1, g) && e in g.entries;
    if e in EntriesOf(m.in0) {
      PickedEntry(m, v, e);
    }
    if f :| f in m.in1 && e in f.entries {
      InOneFile(v.levels[m.level + 1], f, g, e);
    }
  }

  lemma DeeperIsNotBase(m: Move, v: Version, base: Version, e: Entry)
    requires Shaped(v) && |base.levels| == NUM_LEVELS && e in StayingBelow(m, v)
    requires forall l :: 1 <= l < NUM_LEVELS ==> base.levels[l] == v.levels[l]
    ensures !IsBaseLevel(base, m.level, e.key.user)
  {
    var l: nat :| m.level + 2 <= l < NUM_LEVELS && e in StayingEntries(m, v, l);
    var f :| m.Stays(v.levels[l], l, f) && e in f.entries;
    EntryWithinFile(f, e);
    assert f in base.levels[l] && Covers(f, e.key.user);
  }

  lemma {:induction false} SceneSplitsData(s: State, input: seq<Entry>, outs: seq<File>)
    requires |s.version.levels| == NUM_LEVELS && s.running.Some? && s.running.value.level + 1 < NUM_LEVELS
    requires var p := s.running.value;
             && Move(p.level, p.in0, p.in1, outs).Chosen(s.version)
             && SetOf(input) == EntriesOf(p.in0) + EntriesOf(p.in1)
    ensures SceneOf(s, input, outs).Before() == s.Data()
  {
    var p := s.running.value;
    var m := Move(p.level, p.in0, p.in1, outs);
    ContentsBefore(m, s.version);
    StayingParts(m, s.version);
  }

  lemma {:induction false} SceneAboveIsNewer(s: State, input: seq<Entry>, outs: seq<File>)
    requires Ordered(s.version) && DataOk(s) && s.running.Some? && s.running.value.level + 1 < NUM_LEVELS
    requires var p := s.running.value;
             && Move(p.level, p.in0, p.in1, outs).Chosen(s.version)
             && SetOf(input) == EntriesOf(p.in0) + EntriesOf(p.in1)
    ensures Newer(SceneOf(s, input, outs).above, SetOf(input))
  {
    var p := s.running.value;
    var m := Move(p.level, p.in0, p.in1, outs);
    ContentsBefore(m, s.version);
    forall e, o | e in SceneOf(s, input, outs).above && o in SetOf(input) && e.key.user == o.key.user
      ensures e.key.sequence > o.key.sequence
    {
      assert o in Contents(s.version);
      if l: nat :| l <= m.level && e in StayingEntries(m, s.version, l) {
        StayingAreNewer(m, s.version, l, e, o);
      }
    }
  }

  lemma {:induction false} SceneBesideIsApart(s: State, input: seq<Entry>, outs: seq<File>)
    requires Ordered(s.version) && s.running.Some? && s.running.value.level + 1 < NUM_LEVELS
    requires var p := s.running.value;
             && Move(p.level, p.in0, p.in1, outs).Chosen(s.version)
             && SetOf(input) == EntriesOf(p.in0) + EntriesOf(p.in1)
    ensures forall e :: e in SceneOf(s, input, outs).beside ==> e !in input
  {
    var p := s.running.value;
    var m := Move(p.level, p.in0, p.in1, outs);
    forall e | e in SceneOf(s, input, outs).beside ensures e !in input {
      BesideIsNotInput(m, s.version, e);
      assert e !in SetOf(input);
    }
  }

  lemma {:induction false} SceneIsValid(s: State, input: seq<Entry>, outs: seq<File>)
    requires Invariant(s) && Enabled(s, FinishCompaction(input, outs))
    ensures var c := SceneOf(s, input, outs); c.Valid() && c.Before() == s.Data()
  {
    var p := s.running.value;
    var m := Move(p.level, p.in0, p.in1, outs);
    var c := SceneOf(s, input, outs);
    PickIsChosen(s.version, m);
    SceneSplitsData(s, input, outs);
    DataUnambiguous(s);
    SceneAboveIsNewer(s, input, outs);
    SceneBesideIsApart(s, input, outs);
    forall e | e in c.below ensures !IsBaseLevel(p.base, p.level, e.key.user) {
      DeeperIsNotBase(m, s.version, p.base, e);
    }
  }

  lemma {:induction false} SceneAfter(s: State, input: seq<Entry>, outs: seq<File>, w: Version)
    requires |s.version.levels| == |w.levels| == NUM_LEVELS
    requires s.running.Some? && s.running.value.level + 1 < NUM_LEVELS && |s.running.value.base.levels| == NUM_LEVELS
    requires var p := s.running.value;
             && Contents(w) == Staying(Move(p.level, p.in0, p.in1, outs), s.version) + EntriesOf(outs)
             && EntriesOf(outs) == SetOf(KeptBy(p, input))
    ensures Everything(s.mem, s.imm, w) == SceneOf(s, input, outs).After(s.running.value.smallestSnapshot)
  {
    hide Contents, StayingUpTo, StayingEntries, StayingBelow, Staying, EntriesOf, Kept, SetOf;
    var p := s.running.value;
    StayingParts(Move(p.level, p.in0, p.in1, outs), s.version);
  }

  lemma {:induction false} FinishedVersion(s: State, input: seq<Entry>, outs: seq<File>)
    requires Invariant(s) && Enabled(s, FinishCompaction(input, outs))
    ensures var s' := Next(s, FinishCompaction(input, outs));
            && Installed(s'.version)
            && s'.Data() == SceneOf(s, input, outs).After(s.running.value.smallestSnapshot)
  {
    var p := s.running.value;
    var m := Move(p.level, p.in0, p.in1, outs);
    OutputsAreOk(s, input, outs);
    MoveKeepsInvariant(s.version, m);
    MoveTradesContents(s.version, m);
    SceneAfter(s, input, outs, Install(s.version, [m.ToEdit()]));
  }

  lemma ShrunkContentsKeepData(s: State, w: Version)
    requires |s.version.levels| == |w.levels| == NUM_LEVELS && DataOk(s)
    requires Contents(w) <= Contents(s.version)
    ensures DataOk(s.(version := w))
  {
    assert Everything(s.mem, s.imm, w) <= s.Data();
  }

  lemma FinishShrinksContents(s: State, input: seq<Entry>, outs: seq<File>)
    requires Invariant(s) && Enabled(s, FinishCompaction(input, outs))
    ensures |Next(s, FinishCompaction(input, outs)).version.levels| == NUM_LEVELS
    ensures Contents(Next(s, FinishCompaction(input, outs)).version) <= Contents(s.version)
  {
    var p := s.running.value;
    OutputsAreOk(s, input, outs);
    MoveTradesContents(s.version, Move(p.level, p.in0, p.in1, outs));
    KeptIsSorted(input, |input|, p.smallestSnapshot, p.base, p.level);
    forall e | e in SetOf(KeptBy(p, input)) ensures e in EntriesOf(p.in0) + EntriesOf(p.in1) {
      assert e in SetOf(input);
    }
  }

  // ------------------------------------------------------------ trivial move

  lemma MovedFileIsOk(s: State, level: nat, f: File)
    requires Invariant(s) && Enabled(s, TrivialMove(level, f))
    ensures MoveOk(s.version, Move(level, [f], [], [f]))
  {
    PickIsChosen(s.version, Move(level, [f], [], [f]));
    assert f in [f];
    assert f in s.version.levels[level];
    forall g | g in s.version.levels[level + 1] ensures g.number != f.number {
      assert NumbersOk(s.version, s.nextFile);
    }
  }

  lemma MovedContents(v: Version, level: nat, f: File)
    requires Installed(v) && MoveOk(v, Move(level, [f], [], [f]))
    ensures |Install(v, [Move(level, [f], [], [f]).ToEdit()]).levels| == NUM_LEVELS
    ensures Contents(Install(v, [Move(level, [f], [], [f]).ToEdit()])) == Contents(v)
  {
    MoveTradesContents(v, Move(level, [f], [], [f]));
    assert EntriesOf([]) == iset{};
  }

  lemma MovedVersion(s: State, level: nat, f: File)
    requires Invariant(s) && Enabled(s, TrivialMove(level, f))
    ensures Installed(Next(s, TrivialMove(level, f)).version)
    ensures Contents(Next(s, TrivialMove(level, f)).version) == Contents(s.version)
  {
    MovedFileIsOk(s, level, f);
    MoveKeepsInvariant(s.version, Move(level, [f], [], [f]));
    MovedContents(s.version, level, f);
  }

  // ------------------------------------------------------------ file numbers

  lemma AboveCovers(nextFile: nat, outs: seq<File>)
    ensures Above(nextFile, outs) >= nextFile
    ensures forall f :: f in outs ==> f.number < Above(nextFile, outs)
  {
  }

  lemma AddedNumbers(v: Version, w: Version, level: nat, f: File, nextFile: nat)
    requires |v.levels| == |w.levels| == NUM_LEVELS && NumbersOk(v, nextFile) && f.number >= nextFile
    requires forall l: nat :: l < NUM_LEVELS ==> AddsTo(v, w, level, f, l)
    ensures NumbersOk(w, f.number + 1)
  {
    forall l: nat, k: nat, g, h | l < k < NUM_LEVELS && g in w.levels[l] && h in w.levels[k]
      ensures g.number != h.number
    {
      assert AddsTo(v, w, level, f, l) && AddsTo(v, w, level, f, k);
    }
    forall l: nat, g | l < NUM_LEVELS && g in w.levels[l] ensures g.number < f.number + 1 {
      assert AddsTo(v, w, level, f, l);
    }
  }

  lemma FlushKeepsNumbers(s: State, level: nat, f: File)
    requires Installed(s.version) && NumbersOk(s.version, s.nextFile) && DataOk(s) && Enabled(s, Flush(level, f))
    ensures NumbersOk(Next(s, Flush(level, f)).version, f.number + 1)
  {
    var w := Next(s, Flush(level, f)).version;
    FlushedTable(s, level, f);
    forall l: nat | l < NUM_LEVELS ensures AddsTo(s.version, w, level, f, l) {
      FlushChanges(s.version, level, f, w, l);
    }
    AddedNumbers(s.version, w, level, f, s.nextFile);
  }

  lemma MoveKeepsNumbers(v: Version, nextFile: nat, m: Move, next: nat)
    requires Installed(v) && NumbersOk(v, nextFile) && nextFile <= next && MoveOk(v, m)
    requires forall f :: f in m.outs ==> f.number < next && (Unused(v, f.number) || f in m.in0)
    ensures NumbersOk(Install(v, [m.ToEdit()]), next)
  {
    var w := Install(v, [m.ToEdit()]);
    PickIsChosen(v, m);
    forall l: nat | l < NUM_LEVELS ensures m.Makes(v, w, l) {
      MoveMakes(m, v, l);
    }
    TradedNumbers(v, nextFile, m, next, w);
  }

  lemma TradedNumbers(v: Version, nextFile: nat, m: Move, next: nat, w: Version)
    requires |v.levels| == |w.levels| == NUM_LEVELS && m.level + 1 < NUM_LEVELS && NumbersOk(v, nextFile) && m.Chosen(v)
    requires NumbersUnique(v.levels[m.level]) && nextFile <= next
    requires forall f :: f in m.outs ==> f.number < next && (Unused(v, f.number) || f in m.in0)
    requires forall l: nat :: l < NUM_LEVELS ==> m.Makes(v, w, l)
    ensures NumbersOk(w, next)
  {
    forall l: nat, k: nat, f, g | l < k < NUM_LEVELS && f in w.levels[l] && g in w.levels[k]
      ensures f.number != g.number
    {
      assert m.Makes(v, w, l) && m.Makes(v, w, k);
      MovedNumbers(v, m, l, k, f, g, nextFile);
    }
    forall l: nat, f | l < NUM_LEVELS && f in w.levels[l] ensures f.number < next {
      assert m.Makes(v, w, l);
    }
  }

  lemma MovedNumbers(v: Version, m: Move, l: nat, k: nat, f: File, g: File, nextFile: nat)
    requires |v.levels| == NUM_LEVELS && m.level + 1 < NUM_LEVELS && NumbersOk(v, nextFile) && m.Chosen(v)
    requires NumbersUnique(v.levels[m.level])
    requires forall h :: h in m.outs ==> Unused(v, h.number) || h in m.in0
    requires l < k < NUM_LEVELS
    requires m.Stays(v.levels[l], l, f) || (l == m.level + 1 && f in m.outs)
    requires m.Stays(v.levels[k], k, g) || (k == m.level + 1 && g in m.outs)
    ensures f.number != g.number
  {
    if f in m.in0 {
      assert f in v.levels[m.level];
    }
    if g in m.in0 {
      assert g in v.levels[m.level];
    }
  }

  // ----------------------------------------------- one step, and whole runs

  /** A flush into level 0 leaves the deeper levels as they are. */
  lemma FlushLeavesOtherLevels(v: Version, f: File, l: nat)
    requires Installed(v) && FlushOk(v, 0, f) && 0 < l < NUM_LEVELS
    ensures Install(v, [FlushEdit(0, f)]).levels[l] == v.levels[l]
  {
    FlushChanges(v, 0, f, Install(v, [FlushEdit(0, f)]), l);
    SortedLevels(v, l);
    SortedIsUnique(Install(v, [FlushEdit(0, f)]).levels[l], v.levels[l]);
  }

  lemma NewFileLeavesNewer(v: Version, f: File, in0: seq<File>, w: seq<File>)
    requires |v.levels| == NUM_LEVELS && AllIn(in0, v.levels[0]) && LeavesNewer(v.levels[0], in0)
    requires Newer(SetOf(f.entries), Contents(v))
    requires forall g :: g in w <==> g in v.levels[0] || g == f
    ensures AllIn(in0, w) && LeavesNewer(w, in0)
  {
    forall p, g | p in in0 && g in w && g !in in0 ensures Newer(SetOf(g.entries), SetOf(p.entries)) {
      if g == f {
        forall e | e in p.entries ensures e in Contents(v) {
          assert e in LevelEntries(v, 0);
        }
      }
    }
  }

  lemma FlushKeepsPick(v: Version, f: File, level: nat, in0: seq<File>, in1: seq<File>)
    requires Installed(v) && FlushOk(v, 0, f) && level + 1 < NUM_LEVELS && ValidPick(v, level, in0, in1)
    ensures |Install(v, [FlushEdit(0, f)]).levels| == NUM_LEVELS
    ensures ValidPick(Install(v, [FlushEdit(0, f)]), level, in0, in1)
  {
    if level == 0 {
      FlushKeepsLevel0Pick(v, f, in0, in1);
    } else {
      FlushLeavesOtherLevels(v, f, level);
      FlushLeavesOtherLevels(v, f, level + 1);
      SameLevelsSamePick(v, Install(v, [FlushEdit(0, f)]), level, in0, in1);
    }
  }

  lemma SameLevelsSamePick(v: Version, w: Version, level: nat, in0: seq<File>, in1: seq<File>)
    requires |v.levels| == NUM_LEVELS && |w.levels| == NUM_LEVELS && level + 1 < NUM_LEVELS
    requires w.levels[level] == v.levels[level] && w.levels[level + 1] == v.levels[level + 1]
    requires ValidPick(v, level, in0, in1)
    ensures ValidPick(w, level, in0, in1)
  {
  }

  lemma FlushKeepsLevel0Pick(v: Version, f: File, in0: seq<File>, in1: seq<File>)
    requires Installed(v) && FlushOk(v, 0, f) && ValidPick(v, 0, in0, in1)
    ensures |Install(v, [FlushEdit(0, f)]).levels| == NUM_LEVELS
    ensures ValidPick(Install(v, [FlushEdit(0, f)]), 0, in0, in1)
  {
    var w := Install(v, [FlushEdit(0, f)]);
    FlushLeavesOtherLevels(v, f, 1);
    FlushChanges(v, 0, f, w, 0);
    NewFileLeavesNewer(v, f, in0, w.levels[0]);
  }

  lemma FlushKeepsRunning(s: State, level: nat, f: File)
    requires Invariant(s) && Enabled(s, Flush(level, f)) && s.running.Some?
    ensures |Next(s, Flush(level, f)).version.levels| == NUM_LEVELS
    ensures RunningOk(Next(s, Flush(level, f)), s.running.value)
  {
    var p := s.running.value;
    FlushedTable(s, level, f);
    FlushKeepsPick(s.version, f, p.level, p.in0, p.in1);
    forall l | 1 <= l < NUM_LEVELS ensures p.base.levels[l] == Next(s, Flush(level, f)).version.levels[l] {
      FlushLeavesOtherLevels(s.version, f, l);
    }
  }

  lemma FlushKeeps(s: State, level: nat, f: File)
    requires Invariant(s) && Enabled(s, Flush(level, f))
    ensures Invariant(Next(s, Flush(level, f)))
  {
    FlushKeepsData(s, level, f);
    FlushKeepsNumbers(s, level, f);
    if s.running.Some? {
      FlushKeepsRunning(s, level, f);
    }
  }

  lemma FinishInstalls(s: State, input: seq<Entry>, outs: seq<File>)
    requires Invariant(s) && Enabled(s, FinishCompaction(input, outs))
    ensures Installed(Next(s, FinishCompaction(input, outs)).version)
    ensures NumbersOk(Next(s, FinishCompaction(input, outs)).version, Above(s.nextFile, outs))
  {
    var p := s.running.value;
    var m := Move(p.level, p.in0, p.in1, outs);
    OutputsAreOk(s, input, outs);
    MoveKeepsInvariant(s.version, m);
    AboveCovers(s.nextFile, outs);
    MoveKeepsNumbers(s.version, s.nextFile, m, Above(s.nextFile, outs));
  }

  lemma FinishKeeps(s: State, input: seq<Entry>, outs: seq<File>)
    requires Invariant(s) && Enabled(s, FinishCompaction(input, outs))
    ensures Invariant(Next(s, FinishCompaction(input, outs)))
  {
    FinishInstalls(s, input, outs);
    FinishShrinksContents(s, input, outs);
    ShrunkContentsKeepData(s, Next(s, FinishCompaction(input, outs)).version);
  }

  lemma TrivialMoveKeeps(s: State, level: nat, f: File)
    requires Invariant(s) && Enabled(s, TrivialMove(level, f))
    ensures Invariant(Next(s, TrivialMove(level, f)))
  {
    MovedFileIsOk(s, level, f);
    MovedVersion(s, level, f);
    ShrunkContentsKeepData(s, Next(s, TrivialMove(level, f)).version);
    PickIsChosen(s.version, Move(level, [f], [], [f]));
    assert f in [f];
    MoveKeepsNumbers(s.version, s.nextFile, Move(level, [f], [], [f]), s.nextFile);
  }

  lemma SnapshotsKeep(s: State, step: Step)
    requires SnapshotsOk(s.snapshots, s.floor, |s.ops|) && |s.version.levels| == NUM_LEVELS
    requires Enabled(s, step) && (step.TakeSnapshot? || step.ReleaseSnapshot?)
    ensures SnapshotsOk(Next(s, step).snapshots, s.floor, |s.ops|)
    ensures forall n: nat :: n <= |s.ops| && NotBefore(s.snapshots, n) ==> NotBefore(Next(s, step).snapshots, n)
  {
  }

  lemma StartKeeps(s: State, p: Pick)
    requires Invariant(s) && Enabled(s, StartCompaction(p))
    ensures RunningOk(Next(s, StartCompaction(p)), p)
  {
  }

  /** Every step keeps the level-order invariant and everything it rests on. */
  lemma StepKeepsInvariant(s: State, step: Step)
    requires Invariant(s) && Enabled(s, step)
    ensures Invariant(Next(s, step))
  {
    match step
    case Write(batch, newMem) => WriteKeepsData(s, step);
    case SwitchMemtable => SwitchKeepsData(s);
    case Flush(level, file) => FlushKeeps(s, level, file);
    case DropEmptyMemtable =>
    case StartCompaction(p) => StartKeeps(s, p);
    case FinishCompaction(input, outs) => FinishKeeps(s, input, outs);
    case TrivialMove(level, f) => TrivialMoveKeeps(s, level, f);
    case TakeSnapshot => SnapshotsKeep(s, step);
    case ReleaseSnapshot(index) => SnapshotsKeep(s, step);
  }

  /** A run: from the empty database, each state follows from the one before by an enabled step. */
  ghost predicate IsRun(states: seq<State>, steps: seq<Step>) {
    && |states| == |steps| + 1
    && Init(states[0])
    && forall i :: 0 <= i < |steps| ==> |states[i].version.levels| == NUM_LEVELS
                                        && Enabled(states[i], steps[i]) && states[i + 1] == Next(states[i], steps[i])
  }

  lemma {:induction false} RunKeepsInvariant(states: seq<State>, steps: seq<Step>, n: nat)
    requires IsRun(states, steps) && n < |states|
    ensures Invariant(states[n])
  {
    if n == 0 {
      InitOk(states[0]);
    } else {
      RunKeepsInvariant(states, steps, n - 1);
      StepKeepsInvariant(states[n - 1], steps[n - 1]);
    }
  }

  // ------------------------------------------------------------------ reads

  /** From the floor on, reading what is stored gives what reading everything ever written gives. */
  ghost predicate ReadsRight(s: State)
    requires |s.version.levels| == NUM_LEVELS
  {
    forall user, q :: q >= s.floor ==> Read(s.Data(), user, q) == Read(History(s.ops), user, q)
  }

  lemma SameNewest(a: iset<Entry>, b: iset<Entry>, user: UserKey, p: nat, q: nat)
    requires Unambiguous(a) && Unambiguous(b)
    requires forall e :: IsNewest(a, user, p, e) <==> IsNewest(b, user, q, e)
    ensures Read(a, user, p) == Read(b, user, q)
  {
  }

  /** Writing a batch changes what is stored and what was written in the same way. */
  lemma BatchReads(data: iset<Entry>, history: iset<Entry>, batch: seq<Op>, n: nat, user: UserKey, q: nat)
    requires UpTo(data, n) && UpTo(history, n)
    requires Unambiguous(data) && Unambiguous(history)
    requires Unambiguous(data + BatchEntries(batch, n)) && Unambiguous(history + BatchEntries(batch, n))
    requires Read(data, user, q) == Read(history, user, q)
    ensures Read(data + BatchEntries(batch, n), user, q) == Read(history + BatchEntries(batch, n), user, q)
  {
    var added := BatchEntries(batch, n);
    if e :| e in added && e.key.user == user && e.key.sequence <= q {
      var top := NewestExists(added, user, q, e);
      assert IsNewest(data + added, user, q, top) && IsNewest(history + added, user, q, top);
      ReadIs(data + added, user, q, top);
      ReadIs(history + added, user, q, top);
    } else {
      SameNewest(data + added, data, user, q, q);
      SameNewest(history + added, history, user, q, q);
    }
  }

  lemma WriteKeepsReads(s: State, step: Step)
    requires Invariant(s) && step.Write? && Enabled(s, step) && ReadsRight(s)
    ensures |Next(s, step).version.levels| == NUM_LEVELS && ReadsRight(Next(s, step))
  {
    var s' := Next(s, step);
    WriteKeepsData(s, step);
    HistoryGrows(s.ops, step.batch);
    HistoryUnambiguous(s.ops);
    HistoryUnambiguous(s'.ops);
    DataUnambiguous(s);
    DataUnambiguous(s');
    assert UpTo(History(s.ops), |s.ops|);
    forall user, q | q >= s.floor ensures Read(s'.Data(), user, q) == Read(History(s'.ops), user, q) {
      BatchReads(s.Data(), History(s.ops), step.batch, |s.ops|, user, q);
    }
  }

  /** A dropped deletion of the finished compaction uncovers a value left behind in level + 1. */
  ghost predicate Uncovers(s: State, input: seq<Entry>, outs: seq<File>)
    requires |s.version.levels| == NUM_LEVELS && s.running.Some? && s.running.value.level + 1 < NUM_LEVELS
    requires |s.running.value.base.levels| == NUM_LEVELS
  {
    exists t, o :: SceneOf(s, input, outs).Resurrects(s.running.value.smallestSnapshot, t, o)
  }

  /** Finishing a compaction keeps reads right if and only if it uncovers nothing. */
  lemma FinishKeepsReads(s: State, input: seq<Entry>, outs: seq<File>)
    requires Invariant(s) && Enabled(s, FinishCompaction(input, outs)) && ReadsRight(s)
    ensures |Next(s, FinishCompaction(input, outs)).version.levels| == NUM_LEVELS
    ensures ReadsRight(Next(s, FinishCompaction(input, outs))) <==> !Uncovers(s, input, outs)
  {
    var ss := s.running.value.smallestSnapshot;
    var c := SceneOf(s, input, outs);
    SceneIsValid(s, input, outs);
    FinishedVersion(s, input, outs);
    CompactionKeepsReads(c, ss);
    var s' := Next(s, FinishCompaction(input, outs));
    if ReadsRight(s') {
      forall user, q | q >= ss ensures Read(c.Before(), user, q) == Read(c.After(ss), user, q) {
        assert Read(s'.Data(), user, q) == Read(History(s.ops), user, q) == Read(s.Data(), user, q);
      }
    }
    if c.ReadsAgree(ss) {
      forall user, q | q >= ss ensures Read(s'.Data(), user, q) == Read(History(s.ops), user, q) {
        assert Read(c.Before(), user, q) == Read(c.After(ss), user, q);
      }
    }
  }

  /** The one kind of step that reads have to be protected from. */
  ghost predicate Safe(s: State, step: Step)
    requires Invariant(s) && Enabled(s, step)
  {
    step.FinishCompaction? ==> !Uncovers(s, step.input, step.outs)
  }

  lemma StepKeepsReads(s: State, step: Step)
    requires Invariant(s) && Enabled(s, step) && ReadsRight(s)
    ensures |Next(s, step).version.levels| == NUM_LEVELS
    ensures ReadsRight(Next(s, step)) <==> Safe(s, step)
  {
    hide Contents, OutputFiles, KeptBy, ValidPick, Unmet, Uncovers, Install, StoredOk;
    match step
    case Write(batch, newMem) => WriteKeepsReads(s, step);
    case SwitchMemtable => SwitchKeepsData(s);
    case Flush(level, file) => FlushKeepsData(s, level, file);
    case DropEmptyMemtable => assert Next(s, step).Data() == s.Data();
    case StartCompaction(p) =>
    case FinishCompaction(input, outs) => FinishKeepsReads(s, input, outs);
    case TrivialMove(level, f) =>
      MovedVersion(s, level, f);
      assert Next(s, step).Data() == s.Data();
    case TakeSnapshot =>
    case ReleaseSnapshot(index) =>
  }

  /** A run all of whose compactions are safe. */
  ghost predicate IsSafeRun(states: seq<State>, steps: seq<Step>) {
    && IsRun(states, steps)
    && forall i :: 0 <= i < |steps| ==> Invariant(states[i]) && Safe(states[i], steps[i])
  }

  lemma NothingReadsRight(s: State)
    requires Init(s)
    ensures |s.version.levels| == NUM_LEVELS && ReadsRight(s)
  {
    hide History;
    assert s.Data() == History([]) by { NothingStored(s); }
  }

  lemma NothingStored(s: State)
    requires Init(s)
    ensures |s.version.levels| == NUM_LEVELS && s.Data() == History([]) == iset{}
  {
  }

  lemma {:induction false} SafeRunReadsRight(states: seq<State>, steps: seq<Step>, n: nat)
    requires IsSafeRun(states, steps) && n < |states|
    ensures |states[n].version.levels| == NUM_LEVELS && ReadsRight(states[n])
  {
    hide Enabled, Next, Safe, Invariant, ReadsRight, Init;
    if n == 0 {
      NothingReadsRight(states[0]);
    } else {
      SafeRunReadsRight(states, steps, n - 1);
      StepKeepsReads(states[n - 1], steps[n - 1]);
    }
  }

  // ------------------------------------------------- the map a client expects

  /** The key-value map after the first operations have been applied one by one. */
  function Replay(ops: seq<Op>): map<UserKey, Bytes> {
    if ops == [] then map[]
    else
      var n := |ops| - 1;
      match ops[n]
      case Put(key, value) => Replay(ops[..n])[key := value]
      case Delete(key) => Replay(ops[..n]) - {key}
  }

  function Find(m: map<UserKey, Bytes>, user: UserKey): Option<Bytes> {
    if user in m then Some(m[user]) else None
  }

  lemma UnseenUntil(ops: seq<Op>, user: UserKey, q: nat)
    requires 0 < q <= |ops| && EntryOf(ops[q - 1], q - 1).key.user != user
    ensures forall e :: IsNewest(History(ops), user, q, e) <==> IsNewest(History(ops), user, q - 1, e)
  {
    forall e | e in History(ops) && e.key.user == user && e.key.sequence <= q ensures e.key.sequence <= q - 1 {
    }
  }

  lemma {:induction false} SeenAt(ops: seq<Op>, q: nat)
    requires 0 < q <= |ops|
    ensures var e := EntryOf(ops[q - 1], q - 1); IsNewest(History(ops), e.key.user, q, e)
  {
  }

  /** Reading the history at `q` is looking up the map that the first `q` operations built. */
  lemma {:induction false} HistoryIsReplay(ops: seq<Op>, user: UserKey, q: nat)
    requires q <= |ops|
    ensures Read(History(ops), user, q) == Find(Replay(ops[..q]), user)
  {
    if q > 0 {
      HistoryIsReplay(ops, user, q - 1);
      HistoryUnambiguous(ops);
      assert ops[..q][..q - 1] == ops[..q - 1];
      var e := EntryOf(ops[q - 1], q - 1);
      if e.key.user == user {
        SeenAt(ops, q);
        ReadIs(History(ops), user, q, e);
      } else {
        UnseenUntil(ops, user, q);
        SameNewest(History(ops), History(ops), user, q, q - 1);
      }
    }
  }

  /** After any safe run, every live snapshot (and the present) still shows the map that the
      operations up to it built. */
  lemma SnapshotsShowTheirMap(states: seq<State>, steps: seq<Step>, n: nat, q: nat, user: UserKey)
    requires IsSafeRun(states, steps) && n < |states|
    requires q in states[n].snapshots || q == |states[n].ops|
    ensures |states[n].version.levels| == NUM_LEVELS && q <= |states[n].ops|
    ensures Read(states[n].Data(), user, q) == Find(Replay(states[n].ops[..q]), user)
  {
    RunKeepsInvariant(states, steps, n);
    SafeRunReadsRight(states, steps, n);
    HistoryIsReplay(states[n].ops, user, q);
  }

  /** DBImpl::Get on a state of the machine. */
  method GetAt(s: State, user: UserKey, q: nat) returns (r: Option<Bytes>)
    requires Invariant(s) && ReadsRight(s) && s.floor <= q <= |s.ops|
    ensures r == Find(Replay(s.ops[..q]), user)
  {
    DataUnambiguous(s);
    HistoryIsReplay(s.ops, user, q);
    r := Versions.Get(s.mem, s.imm, s.version, user, q);
  }
}
