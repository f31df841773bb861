/** The manifest file beside the durability machine: in every run, what recovery reads from its
    records is the descriptor the machine keeps, and a crash inside LogAndApply leaves the
    descriptor of before or of after the edit (db/version_set.cc:801-998; db/db_impl.cc:183-221). */
module ManifestSteps {
  import opened DbFormat
  import opened Coding
  import opened Versions
  import opened VersionBuilder
  import opened LevelOrderKept
  import opened LogWriter
  import opened LogRoundTrip
  import LogReader
  import EditCodec
  import opened ManifestFile
  import Db = Engine
  import opened Durability

  // ---------------------------------------------- the numbers edits give out

  /** Some edit has given the level a file of this number. */
  ghost predicate Gave(edits: seq<Edit>, level: nat, number: nat) {
    exists i, f :: 0 <= i < |edits| && f in AddsAt(level, edits[i].added) && f.number == number
  }

  lemma GaveBefore(edits: seq<Edit>, e: Edit, level: nat, number: nat)
    ensures Gave(edits + [e], level, number)
       <==> Gave(edits, level, number) || exists f :: f in AddsAt(level, e.added) && f.number == number
  {
    hide AddsAt;
    var all := edits + [e];
    if i, f :| 0 <= i < |edits| && f in AddsAt(level, edits[i].added) && f.number == number {
      assert all[i] == edits[i];
    }
    if f :| f in AddsAt(level, e.added) && f.number == number {
      assert all[|edits|] == e;
    }
  }

  lemma {:induction false} StateWithin(level: nat, edits: seq<Edit>, f: File)
    requires AddedOnce([], level, edits) && f in StateOf(level, edits).added
    ensures Gave(edits, level, f.number)
  {
    hide AddsAt;
    if edits != [] {
      var n := |edits| - 1;
      var s := StateOf(level, edits[..n]);
      StateSorted([], level, edits[..n]);
      FreshOfParts([], s.added, AddsAt(level, edits[n].added));
      ApplyIs(s, level, edits[n]);
      assert edits == edits[..n] + [edits[n]];
      GaveBefore(edits[..n], edits[n], level, f.number);
      if f in s.added { StateWithin(level, edits[..n], f); }
    }
  }

  /** An edit that gives a level only new numbers keeps every number of the level given once. */
  lemma OnceMore(level: nat, edits: seq<Edit>, e: Edit)
    requires AddedOnce([], level, edits) && DistinctNumbers(AddsAt(level, e.added))
    requires forall f :: f in AddsAt(level, e.added) ==> !Gave(edits, level, f.number)
    ensures AddedOnce([], level, edits + [e])
  {
    hide AddsAt, Gave;
    var all := edits + [e];
    assert all[..|edits|] == edits && all[|edits|] == e;
    var added := StateOf(level, edits).added;
    forall f, g | f in [] + added && g in AddsAt(level, e.added) ensures f.number != g.number {
      StateWithin(level, edits, f);
    }
  }

  // -------------------------------------------------- what one edit changes

  /** The edit that a step of the engine installs. */
  ghost function EditOf(db: Db.State, step: Db.Step): Edit {
    match step
    case Flush(level, file) => FlushEdit(level, file)
    case FinishCompaction(input, outs) =>
      if db.running.None? then Edit({}, [])
      else
        var p := db.running.value;
        Move(p.level, p.in0, p.in1, outs).ToEdit()
    case TrivialMove(level, f) => Move(level, [f], [], [f]).ToEdit()
    case _ => Edit({}, [])
  }

  ghost function AddedBy(db: Db.State, step: Db.Step, l: nat): seq<File> {
    match step
    case Flush(level, file) => if l == level then [file] else []
    case FinishCompaction(input, outs) => if db.running.Some? && l == db.running.value.level + 1 then outs else []
    case TrivialMove(level, f) => if l == level + 1 then [f] else []
    case _ => []
  }

  lemma AddsOfEdit(db: Db.State, step: Db.Step, l: nat)
    ensures AddsAt(l, EditOf(db, step).added) == AddedBy(db, step, l)
  {
    match step
    case Flush(level, file) => AddsOfFlush(level, file, l);
    case FinishCompaction(input, outs) =>
      if db.running.Some? {
        var p := db.running.value;
        AddsOfList(l, p.level + 1, Move(p.level, p.in0, p.in1, outs).ToEdit().added, outs);
      }
    case TrivialMove(level, f) => AddsOfList(l, level + 1, Move(level, [f], [], [f]).ToEdit().added, [f]);
    case _ =>
  }

  /** The files of a level of the new version. */
  lemma FilesAfter(db: Db.State, step: Db.Step, l: nat, f: File)
    requires Db.Invariant(db) && HasEdit(step) && Db.Enabled(db, step) && l < NUM_LEVELS
    ensures var w := Db.Next(db, step).version;
            && |w.levels| == NUM_LEVELS
            && (f in w.levels[l] ==> f in db.version.levels[l] || f in AddedBy(db, step, l))
            && (f in AddedBy(db, step, l) ==> f in w.levels[l])
  {
    hide Install, Db.OutputFiles, Db.KeptBy, MoveOk, InputSelection.ValidPick, Db.SnapshotsOk, Db.RunningOk, FlushOk,
         InputSelection.Unmet, SortedBySmallest, Db.Above, Db.History;
    if step.Flush? {
      Db.FlushedTable(db, step.level, step.file);
      FlushChanges(db.version, step.level, step.file, Db.Next(db, step).version, l);
    } else if step.FinishCompaction? {
      var p := db.running.value;
      var m := Move(p.level, p.in0, p.in1, step.outs);
      Db.OutputsAreOk(db, step.input, step.outs);
      MoveAfter(db.version, m, l, f);
    } else if step.TrivialMove? {
      var m := Move(step.fromLevel, [step.moved], [], [step.moved]);
      Db.MovedFileIsOk(db, step.fromLevel, step.moved);
      MoveAfter(db.version, m, l, f);
    }
  }

  lemma MoveAfter(v: Version, m: Move, l: nat, f: File)
    requires Installed(v) && MoveOk(v, m) && l < NUM_LEVELS
    ensures var w := Install(v, [m.ToEdit()]);
            && |w.levels| == NUM_LEVELS
            && (f in w.levels[l] ==> f in v.levels[l] || (l == m.level + 1 && f in m.outs))
            && (l == m.level + 1 && f in m.outs ==> f in w.levels[l])
  {
    hide Install, InputSelection.ValidPick;
    PickIsChosen(v, m);
    MoveMakes(m, v, l);
  }

  // ------------------------------------------------ what the edits amount to

  /** A table that is still to be listed in an edit. */
  ghost predicate Pending(job: Job, outs: seq<File>, number: nat) {
    || (job.TableBuilt? && job.file.number == number)
    || (!(job.Logged? && job.step.FinishCompaction?) && exists f :: f in outs && f.number == number)
  }

  /** No level was ever given the number of a table still to come, or of a file above it. */
  ghost predicate HistoryOk(edits: seq<Edit>, r: Running) {
    && (forall l: nat, number: nat :: l < NUM_LEVELS && Gave(edits, l, number) ==>
       number < r.next && !Pending(r.job, r.outs, number))
    && OnlyBelow(edits, r.disk.descriptor.version)
  }

  ghost predicate OnlyBelow(edits: seq<Edit>, v: Version) {
    forall l: nat, m: nat, f :: l < m < |v.levels| && f in v.levels[l] ==> !Gave(edits, m, f.number)
  }

  /** The edits, installed one by one, make the version, and give each number once. */
  ghost predicate Gives(edits: seq<Edit>, v: Version) {
    && InstallEach(EmptyVersion(NUM_LEVELS), edits) == v
    && forall l: nat :: l < NUM_LEVELS ==> AddedOnce([], l, edits)
  }

  lemma NothingInstalled(v: Version)
    requires |v.levels| == NUM_LEVELS && forall l: nat :: l < NUM_LEVELS ==> SortedBySmallest(v.levels[l])
    ensures Install(v, [Edit({}, [])]) == v
  {
    var one := [Edit({}, [])];
    assert one[..0] == [];
    forall l: nat | l < NUM_LEVELS ensures Saved(v.levels[l], StateOf(l, one)) == v.levels[l] {
      assert StateOf(l, one) == UNCHANGED;
      SavedIs(v.levels[l], UNCHANGED);
      SavedSorted(v.levels[l], UNCHANGED);
      SortedIsUnique(Saved(v.levels[l], UNCHANGED), v.levels[l]);
    }
  }

  lemma EditVersionIs(db: Db.State, step: Db.Step)
    requires Db.Invariant(db) && HasEdit(step) && Db.Enabled(db, step)
    ensures EditVersion(db, step) == Install(db.version, [EditOf(db, step)])
  {
    hide Install, Db.OutputFiles, Db.KeptBy, InputSelection.ValidPick, Db.DataOk, Db.SnapshotsOk, Db.RunningOk,
         Db.NumbersOk;
    if step.DropEmptyMemtable? {
      forall l: nat | l < NUM_LEVELS ensures SortedBySmallest(db.version.levels[l]) { SortedLevels(db.version, l); }
      NothingInstalled(db.version);
    }
  }

  /** What a step adds is distinct, new to its level, and new to all levels or moved from just above. */
  lemma AddedIsNew(edits: seq<Edit>, r: Running, step: Db.Step, l: nat, f: File)
    requires RunningInvariant(r) && RunningEnabled(r, LogEdit(step)) && HistoryOk(edits, r) && l < NUM_LEVELS
    requires f in AddedBy(r.db, step, l)
    ensures DistinctNumbers(AddedBy(r.db, step, l)) && f.number < r.next
    ensures forall m: nat :: l <= m < NUM_LEVELS ==> !Gave(edits, m, f.number)
  {
    hide Db.Invariant, PartsOk, HeldOk, LogFileOk, Gave, ReplayLogs, Holds, Db.KeptBy, Db.Concatenated, Db.NumbersOk;
    ReadyIsEnabled(r, step);
    NotLogged(r, step);
    if step.TrivialMove? {
      MovedIsAbove(r, step.fromLevel, step.moved);
    }
  }

  lemma MovedIsAbove(r: Running, level: nat, f: File)
    requires RunningInvariant(r) && RunningEnabled(r, LogEdit(Db.TrivialMove(level, f)))
    ensures level + 1 < NUM_LEVELS && f in r.disk.descriptor.version.levels[level] && f.number < r.next
    ensures r.disk.descriptor.version == r.db.version
  {
    hide Db.Invariant, PartsOk, LogFileOk, ReplayLogs, Holds;
    assert f in [f];
    assert StoredFile(r.disk.tables, r.next, f);
  }

  lemma GivesOneMore(edits: seq<Edit>, r: Running, step: Db.Step)
    requires RunningInvariant(r) && RunningEnabled(r, LogEdit(step))
    requires Gives(edits, r.disk.descriptor.version) && HistoryOk(edits, r)
    ensures Gives(edits + [EditOf(r.db, step)], EditVersion(r.db, step))
  {
    hide RunningInvariant, RunningEnabled, HistoryOk, Install, AddedOnce, EditVersion, Db.Invariant, DistinctNumbers,
         Gave;
    var e := EditOf(r.db, step);
    LoggableStep(r, step);
    EditVersionIs(r.db, step);
    assert (edits + [e])[..|edits|] == edits;
    forall l: nat | l < NUM_LEVELS ensures AddedOnce([], l, edits + [e]) {
      AddsOfEdit(r.db, step, l);
      forall f | f in AddsAt(l, e.added) ensures !Gave(edits, l, f.number) && DistinctNumbers(AddsAt(l, e.added)) {
        AddedIsNew(edits, r, step, l, f);
      }
      if AddsAt(l, e.added) == [] { assert DistinctNumbers([]) by { NoneAreDistinct(); } }
      assert AddsAt(l, e.added) != [] ==> AddsAt(l, e.added)[0] in AddsAt(l, e.added);
      OnceMore(l, edits, e);
    }
  }

  lemma NoneAreDistinct()
    ensures DistinctNumbers([])
  {
  }

  lemma LoggableStep(r: Running, step: Db.Step)
    requires RunningInvariant(r) && RunningEnabled(r, LogEdit(step))
    ensures r.disk.descriptor.version == r.db.version && |r.db.version.levels| == NUM_LEVELS && !r.job.Logged?
    ensures Db.Invariant(r.db) && HasEdit(step) && Db.Enabled(r.db, step)
    ensures Db.Invariant(Db.Next(r.db, step)) && EditVersion(r.db, step) == Db.Next(r.db, step).version
  {
    hide Db.Invariant, PartsOk, LogFileOk, HeldOk, ReplayLogs, Holds, Db.Next, Db.Enabled, EditVersion, EditReady,
         Stored;
    ReadyIsEnabled(r, step);
    NotLogged(r, step);
    Db.StepKeepsInvariant(r.db, step);
  }

  lemma OnlyBelowAfter(edits: seq<Edit>, r: Running, step: Db.Step)
    requires RunningInvariant(r) && RunningEnabled(r, LogEdit(step)) && HistoryOk(edits, r)
    ensures OnlyBelow(edits + [EditOf(r.db, step)], EditVersion(r.db, step))
  {
    hide RunningInvariant, RunningEnabled, Install, EditVersion, DistinctNumbers, Gave, AddedBy, Db.Next, Db.Enabled,
         Pending, Db.DataOk, Db.SnapshotsOk, Db.RunningOk;
    var w, e := EditVersion(r.db, step), EditOf(r.db, step);
    LoggableStep(r, step);
    forall l: nat, m: nat, f | l < m < |w.levels| && f in w.levels[l] ensures !Gave(edits + [e], m, f.number) {
      FilesAfter(r.db, step, l, f);
      if f in AddedBy(r.db, step, l) { AddedIsNew(edits, r, step, l, f); }
      assert !Gave(edits, m, f.number);
      GaveBefore(edits, e, m, f.number);
      AddsOfEdit(r.db, step, m);
      forall g | g in AddsAt(m, e.added) ensures g.number != f.number {
        FilesAfter(r.db, step, m, g);
      }
    }
  }

  /** Once a step's edit is in the manifest, only the other tables are still to come. */
  lemma PendingAfter(r: Running, step: Db.Step, number: nat)
    requires !r.job.Logged? && Pending(Logged(step), r.outs, number)
    ensures Pending(r.job, r.outs, number)
  {
  }

  lemma AddedIsListed(r: Running, step: Db.Step, l: nat, f: File)
    requires RunningInvariant(r) && RunningEnabled(r, LogEdit(step)) && f in AddedBy(r.db, step, l)
    ensures !Pending(Logged(step), r.outs, f.number)
  {
    hide Db.Invariant, PartsOk, HeldOk, LogFileOk, ReplayLogs, Holds, Db.KeptBy, Db.Concatenated, Db.NumbersOk,
         EditVersion;
    ReadyIsEnabled(r, step);
  }

  lemma GivenIsListed(edits: seq<Edit>, r: Running, step: Db.Step, l: nat, number: nat)
    requires RunningInvariant(r) && RunningEnabled(r, LogEdit(step)) && HistoryOk(edits, r) && l < NUM_LEVELS
    requires Gave(edits + [EditOf(r.db, step)], l, number)
    ensures number < r.next && !Pending(Logged(step), r.outs, number)
  {
    hide RunningInvariant, RunningEnabled, DistinctNumbers, Gave, AddedBy, EditOf, OnlyBelow, Pending;
    LoggableStep(r, step);
    GaveBefore(edits, EditOf(r.db, step), l, number);
    AddsOfEdit(r.db, step, l);
    if Gave(edits, l, number) {
      if Pending(Logged(step), r.outs, number) { PendingAfter(r, step, number); }
    } else {
      var f :| f in AddsAt(l, EditOf(r.db, step).added) && f.number == number;
      AddedIsNew(edits, r, step, l, f);
      AddedIsListed(r, step, l, f);
    }
  }

  lemma LoggedRunning(r: Running, step: Db.Step)
    requires |r.db.version.levels| == NUM_LEVELS && RunningEnabled(r, LogEdit(step))
    ensures RunningNext(r, LogEdit(step)).Up?
    ensures var r' := RunningNext(r, LogEdit(step)).r;
            r'.next == r.next && r'.job == Logged(step) && r'.outs == r.outs
            && r'.disk.descriptor.version == EditVersion(r.db, step)
  {
    hide EditVersion, EditReady;
  }

  lemma LogEditHistory(edits: seq<Edit>, r: Running, step: Db.Step)
    requires RunningInvariant(r) && RunningEnabled(r, LogEdit(step)) && HistoryOk(edits, r)
    ensures |r.db.version.levels| == NUM_LEVELS && RunningNext(r, LogEdit(step)).Up?
    ensures HistoryOk(edits + [EditOf(r.db, step)], RunningNext(r, LogEdit(step)).r)
  {
    hide RunningInvariant, RunningEnabled, RunningNext, EditVersion, Gave, EditOf, OnlyBelow, Pending;
    LoggableStep(r, step);
    LoggedRunning(r, step);
    var e := EditOf(r.db, step);
    OnlyBelowAfter(edits, r, step);
    forall l: nat, number: nat | l < NUM_LEVELS && Gave(edits + [e], l, number)
      ensures number < r.next && !Pending(Logged(step), r.outs, number)
    {
      GivenIsListed(edits, r, step, l, number);
    }
  }

  /** Steps without an edit leave the descriptor and what the edits say. */
  lemma OtherStepHistory(edits: seq<Edit>, r: Running, act: Act)
    requires RunningInvariant(r) && RunningEnabled(r, act) && HistoryOk(edits, r) && !act.LogEdit? && !act.Crash?
    ensures var r' := RunningNext(r, act).r; r'.disk.descriptor == r.disk.descriptor && HistoryOk(edits, r')
  {
    hide Db.Invariant, PartsOk, JobOk, OutsOk, HeldOk, LogFileOk, DiskOk, Gave, OnlyBelow, Db.Next, Db.Enabled, Live;
    var r' := RunningNext(r, act).r;
    forall number: nat | Pending(r'.job, r'.outs, number) ensures Pending(r.job, r.outs, number) || number == r.next {
    }
  }

  // ------------------------------------------------------------ a new manifest

  lemma GaveOfTwo(a: Edit, b: Edit, level: nat, number: nat)
    ensures Gave([a, b], level, number)
       <==> exists f :: (f in AddsAt(level, a.added) || f in AddsAt(level, b.added)) && f.number == number
  {
    hide AddsAt;
    assert [a] + [b] == [a, b];
    GaveBefore([], a, level, number);
    assert [] + [a] == [a];
    GaveBefore([a], b, level, number);
  }

  lemma GivenInTwo(v: Version, snapshot: Edit, e: Edit)
    requires |v.levels| == NUM_LEVELS && IsSnapshotOf(snapshot, v)
    requires forall l: nat :: l < NUM_LEVELS ==>
               SortedBySmallest(v.levels[l]) && DistinctNumbers(v.levels[l])
                   && FreshAdds(v.levels[l], AddsAt(l, e.added))
    ensures Gives([snapshot, e], Install(v, [e]))
  {
    hide AddsAt, Install, SortedBySmallest;
    var empty, both := EmptyVersion(NUM_LEVELS), [snapshot, e];
    SnapshotInstalls(v, snapshot);
    assert [snapshot][..0] == [] && InstallEach(empty, [snapshot]) == v;
    assert both[..1] == [snapshot] && InstallEach(empty, both) == Install(v, [e]);
    forall l: nat | l < NUM_LEVELS ensures AddedOnce([], l, both) {
      forall f | f in AddsAt(l, snapshot.added) ensures !Gave([], l, f.number) { }
      OnceMore(l, [], snapshot);
      assert [] + [snapshot] == [snapshot] && [snapshot] + [e] == both && [] + [snapshot] == [snapshot];
      forall f | f in AddsAt(l, e.added) ensures !Gave([snapshot], l, f.number) {
        GaveBefore([], snapshot, l, f.number);
      }
      OnceMore(l, [snapshot], e);
    }
  }

  lemma SnapshotInstalls(v: Version, snapshot: Edit)
    requires |v.levels| == NUM_LEVELS && IsSnapshotOf(snapshot, v)
    requires forall l: nat :: l < NUM_LEVELS ==> SortedBySmallest(v.levels[l]) && DistinctNumbers(v.levels[l])
    ensures Install(EmptyVersion(NUM_LEVELS), [snapshot]) == v
  {
    hide SortedBySmallest, DistinctNumbers, Saved, StateOf;
    forall l | 0 <= l < NUM_LEVELS ensures Saved([], StateOf(l, [snapshot])) == v.levels[l] {
      SnapshotOfLevel(v.levels[l], l, snapshot);
    }
    assert Install(EmptyVersion(NUM_LEVELS), [snapshot]).levels == v.levels;
  }

  lemma LevelsAreDistinct(v: Version)
    requires Installed(v)
    ensures forall l: nat :: l < NUM_LEVELS ==> SortedBySmallest(v.levels[l]) && DistinctNumbers(v.levels[l])
  {
    forall l: nat | l < NUM_LEVELS ensures SortedBySmallest(v.levels[l]) { SortedLevels(v, l); }
  }

  /** What reopening starts from, and the tables it adds to it. */
  lemma ReopenedFrom(n: Node, chunks: seq<seq<Group>>, files: seq<File>)
    requires Invariant(n) && n.Down? && Enabled(n, Reopen(chunks, files))
    ensures var d, r := n.disk.descriptor, Reopened(n, files);
            && Installed(d.version) && Db.NumbersOk(d.version, d.nextFile) && Ascending(files, d.nextFile)
            && d.nextFile <= r.next && (forall f :: f in files ==> f.number < r.next)
            && r.disk.descriptor.version == Install(d.version, [RecoveryEdit(files)])
  {
    hide Installed, Contents, Install, Slice, Holds, Rebuilt, Db.NumbersOk, Stored;
    var d := n.disk.descriptor;
    Installable(n.view);
    Db.AboveCovers(Db.Max(d.nextFile, n.disk.logEnd), files);
  }

  lemma OnlyBelowReopened(v: Version, next: nat, files: seq<File>, snapshot: Edit)
    requires Installed(v) && Db.NumbersOk(v, next) && Ascending(files, next) && IsSnapshotOf(snapshot, v)
    ensures OnlyBelow([snapshot, RecoveryEdit(files)], Install(v, [RecoveryEdit(files)]))
  {
    hide Install, AddsAt, Gave, Saved, StateOf;
    var e := RecoveryEdit(files);
    var w := Install(v, [e]);
    LevelsOfInstall(v, [e]);
    FreshFiles(v, next, files);
    forall l: nat, m: nat, f | l < m < |w.levels| && f in w.levels[l] ensures !Gave([snapshot, e], m, f.number) {
      AddsOfList(l, 0, e.added, files);
      AddsOfList(m, 0, e.added, files);
      OneEdit(v, e, l);
      GaveOfTwo(snapshot, e, m, f.number);
      if f !in v.levels[l] {
        var i :| 0 <= i < |files| && files[i] == f;
      }
    }
  }

  lemma ReopenHistory(n: Node, chunks: seq<seq<Group>>, files: seq<File>, snapshot: Edit)
    requires Invariant(n) && n.Down? && Enabled(n, Reopen(chunks, files))
             && IsSnapshotOf(snapshot, n.disk.descriptor.version)
    ensures Gives([snapshot, RecoveryEdit(files)], Reopened(n, files).disk.descriptor.version)
    ensures HistoryOk([snapshot, RecoveryEdit(files)], Reopened(n, files))
  {
    hide Invariant, Enabled, Install, AddsAt, Gave, Gives, Installed, OnlyBelow, SortedBySmallest, DistinctNumbers;
    var d, e := n.disk.descriptor, RecoveryEdit(files);
    ReopenedFrom(n, chunks, files);
    LevelsAreDistinct(d.version);
    InstalledHasLevels(d.version);
    FreshFiles(d.version, d.nextFile, files);
    forall l: nat | l < NUM_LEVELS ensures AddsAt(l, e.added) == if l == 0 then files else [] {
      AddsOfList(l, 0, e.added, files);
    }
    GivenInTwo(d.version, snapshot, e);
    OnlyBelowReopened(d.version, d.nextFile, files, snapshot);
    forall l: nat, number: nat | l < NUM_LEVELS && Gave([snapshot, e], l, number)
      ensures number < Reopened(n, files).next
    {
      GaveOfTwo(snapshot, e, l, number);
    }
  }

  lemma InstalledHasLevels(v: Version)
    requires Installed(v)
    ensures |v.levels| == NUM_LEVELS
  {
  }

  // ------------------------------------------------------------ the file itself

  function DescriptorOf(n: Node): Descriptor {
    match n
    case Up(r) => r.disk.descriptor
    case Down(disk, _, _, _) => disk.descriptor
  }

  /** What recovery concludes is the descriptor; it takes the next file number for a manifest. */
  predicate Describes(m: Manifest, d: Descriptor) {
    && m.version == d.version && m.logNumber == d.logNumber && m.prevLogNumber == 0
    && m.nextFileNumber == d.nextFile + 1 && m.lastSequence == d.lastSequence
  }

  /** Recovering from the file finds the descriptor. */
  ghost predicate Finds(view: View, crc: Crc, name: Bytes, file: Bytes, d: Descriptor) {
    var m := Recovered(view, name, LogReader.LogFrom(crc, file, 0));
    m.Some? && Describes(m.value, d)
  }

  predicate Says(meta: Meta, d: Descriptor) {
    && meta.logNumber.Some? && meta.logNumber.value == d.logNumber
    && (meta.prevLogNumber.Some? ==> meta.prevLogNumber.value == 0)
    && meta.nextFile.Some? && meta.nextFile.value == d.nextFile
    && meta.lastSequence.Some? && meta.lastSequence.value == d.lastSequence
  }

  /** The records of the manifest stand for the descriptor. */
  ghost predicate Keeps(view: View, name: Bytes, edits: seq<EditCodec.Edit>, n: Node) {
    && Loggable(name, edits) && Says(MetaAfter(edits, |edits|), DescriptorOf(n))
    && Gives(AllViewed(view, edits), DescriptorOf(n).version)
    && (n.Up? ==> HistoryOk(AllViewed(view, edits), n.r))
  }

  /** DBImpl::NewDB */
  function NewDbEdit(name: Bytes): EditCodec.Edit {
    EditCodec.Edit(Some(name), Some(0), None, Some(2), Some(0), [], [], [])
  }

  /** LogAndApply has filled in the numbers of the descriptor. */
  ghost predicate StampedWith(name: Bytes, e: EditCodec.Edit, d: Descriptor) {
    && EditCodec.Valid(e) && Acceptable(name, e) && Stamped(e)
    && e.logNumber.value == d.logNumber && e.prevLogNumber.value == 0
    && e.nextFile.value == d.nextFile && e.lastSequence.value == d.lastSequence
  }

  /** The manifest before and after a step: LogAndApply appends the step's edit, opening the database
      starts a new manifest with WriteSnapshot's record, other steps write nothing. */
  ghost predicate Writes(view: View, name: Bytes, n: Node, act: Act, edits: seq<EditCodec.Edit>,
                         edits': seq<EditCodec.Edit>)
    requires Enabled(n, act)
  {
    match act
    case LogEdit(step) =>
      && n.Up? && |edits'| == |edits| + 1 && edits'[..|edits|] == edits
      && StampedWith(name, edits'[|edits|], DescriptorOf(Next(n, act)))
      && Viewed(view, edits'[|edits|]) == EditOf(n.r.db, step)
    case Reopen(chunks, files) =>
      && n.Down? && |edits'| == 2
      && EditCodec.Valid(edits'[0]) && Acceptable(name, edits'[0]) && Unstamped(edits'[0])
      && IsSnapshotOf(Viewed(view, edits'[0]), n.disk.descriptor.version)
      && StampedWith(name, edits'[1], DescriptorOf(Next(n, act)))
      && Viewed(view, edits'[1]) == RecoveryEdit(files)
    case _ => edits' == edits
  }

  lemma MetaOfLast(edits: seq<EditCodec.Edit>, n: nat, name: Bytes, d: Descriptor)
    requires 0 < n <= |edits| && StampedWith(name, edits[n - 1], d)
    ensures Says(MetaAfter(edits, n), d)
  {
    hide EditCodec.Valid;
  }

  lemma {:induction false} MetaOfPrefix(a: seq<EditCodec.Edit>, b: seq<EditCodec.Edit>, n: nat)
    requires n <= |a| && n <= |b| && a[..n] == b[..n]
    ensures MetaAfter(a, n) == MetaAfter(b, n)
  {
    if n > 0 {
      assert a[..n][n - 1] == a[n - 1] && b[..n][n - 1] == b[n - 1];
      assert a[..n - 1] == a[..n][..n - 1] && b[..n - 1] == b[..n][..n - 1];
      MetaOfPrefix(a, b, n - 1);
    }
  }

  /** Whatever the database does, the manifest goes on standing for its descriptor. */
  lemma StepKeepsManifest(view: View, name: Bytes, n: Node, act: Act, edits: seq<EditCodec.Edit>,
                          edits': seq<EditCodec.Edit>)
    requires Invariant(n) && Enabled(n, act) && Keeps(view, name, edits, n) && Writes(view, name, n, act, edits, edits')
    ensures Keeps(view, name, edits', Next(n, act))
  {
    hide RunningInvariant, RunningEnabled, Gives, HistoryOk, Viewed, EditOf, Reopened, EditCodec.Valid, Acceptable,
         RunningNext, MetaAfter, Says;
    match act
    case LogEdit(step) => LogEditKeepsManifest(view, name, n, step, edits, edits');
    case Reopen(chunks, files) =>
      MetaOfLast(edits', 2, name, DescriptorOf(Next(n, act)));
      ReopenHistory(n, chunks, files, Viewed(view, edits'[0]));
      assert AllViewed(view, edits') == [Viewed(view, edits'[0]), Viewed(view, edits'[1])];
    case _ => OtherStepKeepsManifest(view, name, n, act, edits);
  }

  lemma LogEditKeepsManifest(view: View, name: Bytes, n: Node, step: Db.Step, edits: seq<EditCodec.Edit>,
                             edits': seq<EditCodec.Edit>)
    requires n.Up? && Invariant(n) && Enabled(n, LogEdit(step)) && Keeps(view, name, edits, n)
    requires Writes(view, name, n, LogEdit(step), edits, edits')
    ensures Keeps(view, name, edits', Next(n, LogEdit(step)))
  {
    hide RunningInvariant, Gives, HistoryOk, Viewed, EditOf, EditReady, EditVersion, EditCodec.Valid, Acceptable,
         MetaAfter, Says;
    var k := |edits|;
    MetaOfLast(edits', k + 1, name, DescriptorOf(Next(n, LogEdit(step))));
    GivesOneMore(AllViewed(view, edits), n.r, step);
    LogEditHistory(AllViewed(view, edits), n.r, step);
    assert AllViewed(view, edits') == AllViewed(view, edits) + [Viewed(view, edits'[k])];
  }

  lemma OtherStepKeepsManifest(view: View, name: Bytes, n: Node, act: Act, edits: seq<EditCodec.Edit>)
    requires Invariant(n) && Enabled(n, act) && Keeps(view, name, edits, n) && !act.LogEdit? && !act.Reopen?
    ensures Keeps(view, name, edits, Next(n, act))
  {
    hide RunningInvariant, Gives, HistoryOk, Viewed, Loggable, Says, MetaAfter, Db.Next, Db.Enabled, Live, EditReady;
    if n.Up? && !act.Crash? {
      OtherStepHistory(AllViewed(view, edits), n.r, act);
    }
  }

  // --------------------------------------------------------- recovering from it

  lemma ConcludesDescriptor(view: View, name: Bytes, edits: seq<EditCodec.Edit>, n: Node)
    requires Keeps(view, name, edits, n)
    ensures var m := Concluded(view, Loading(edits, MetaAfter(edits, |edits|), true));
            m.Some? && Describes(m.value, DescriptorOf(n))
  {
    hide HistoryOk, Install, InstallEach, AddedOnce, Loggable, Viewed, MetaAfter;
    ReplayIsStepwise(EmptyVersion(NUM_LEVELS), AllViewed(view, edits));
  }

  lemma ManifestIsFound(view: View, crc: Crc, name: Bytes, edits: seq<EditCodec.Edit>, n: Node)
    requires Keeps(view, name, edits, n)
    ensures Finds(view, crc, name, LogOf(crc, Records(edits)), DescriptorOf(n))
  {
    hide LogOf, LogReader.LogFrom, Recovered, Concluded, MetaAfter, Loggable, Gives, HistoryOk, Says;
    var file := LogOf(crc, Records(edits));
    assert file[..|file|] == file;
    TornManifest(view, crc, name, edits, |file|);
    ConcludesDescriptor(view, name, edits, n);
    assert edits[..|edits|] == edits;
  }

  /** The records that are whole when the last one is cut off. */
  lemma CutInLast(crc: Crc, records: seq<Bytes>, n: nat, cut: nat)
    requires |records| == n + 1 && |LogOf(crc, records[..n])| <= cut <= |LogOf(crc, records)|
    ensures Whole(crc, records, cut) == if cut < |LogOf(crc, records)| then n else n + 1
  {
    hide LogOf, Framed;
    var k := Whole(crc, records, cut);
    WholeIs(crc, records, cut);
    assert records[..n + 1] == records;
    LogStartsWith(crc, records, if k < n then k + 1 else n, n);
  }

  /** A crash while LogAndApply writes its record, whatever part of it is on disk: recovery finds the
      descriptor of before the step, or, when the record is whole, that of after. */
  lemma TornLogAndApply(view: View, crc: Crc, name: Bytes, n: Node, step: Db.Step, edits: seq<EditCodec.Edit>,
                        edits': seq<EditCodec.Edit>, cut: nat)
    requires Invariant(n) && Enabled(n, LogEdit(step)) && Keeps(view, name, edits, n)
    requires Writes(view, name, n, LogEdit(step), edits, edits')
    requires |LogOf(crc, Records(edits))| <= cut <= |LogOf(crc, Records(edits'))|
    ensures Finds(view, crc, name, LogOf(crc, Records(edits'))[..cut],
                  DescriptorOf(if cut < |LogOf(crc, Records(edits'))| then n else Next(n, LogEdit(step))))
  {
    hide Invariant, Enabled, Next, LogOf, LogReader.LogFrom, Recovered, Concluded, MetaAfter, Keeps, Says, Whole;
    StepKeepsManifest(view, name, n, LogEdit(step), edits, edits');
    KeptIsLoggable(view, name, edits', Next(n, LogEdit(step)));
    TornManifest(view, crc, name, edits', cut);
    assert Records(edits')[..|edits|] == Records(edits);
    CutInLast(crc, Records(edits'), |edits|, cut);
    MetaOfPrefix(edits', edits, |edits|);
    ConcludesDescriptor(view, name, edits, n);
    ConcludesDescriptor(view, name, edits', Next(n, LogEdit(step)));
    assert edits'[..|edits'|] == edits' && edits[..|edits|] == edits;
  }

  lemma KeptIsLoggable(view: View, name: Bytes, edits: seq<EditCodec.Edit>, n: Node)
    requires Keeps(view, name, edits, n)
    ensures Loggable(name, edits)
  {
  }

  // -------------------------------------------------------------- whole runs

  lemma NewManifest(view: View, name: Bytes)
    requires |name| < WORD
    ensures Keeps(view, name, [NewDbEdit(name)], NewDb())
  {
    var edits := [NewDbEdit(name)];
    var none := Edit({}, []);
    assert Viewed(view, NewDbEdit(name)) == none && AllViewed(view, edits) == [none];
    assert [none][..0] == [];
    NothingInstalled(EmptyVersion(NUM_LEVELS));
    forall l: nat | l < NUM_LEVELS ensures AddedOnce([], l, [none]) {
      OnceMore(l, [], none);
      assert [] + [none] == [none];
    }
  }

  /** A run together with the records of the manifest that CURRENT names. */
  ghost predicate IsManifestRun(view: View, name: Bytes, nodes: seq<Node>, acts: seq<Act>,
                                manifests: seq<seq<EditCodec.Edit>>) {
    && IsRun(nodes, acts) && |manifests| == |nodes| && |name| < WORD && manifests[0] == [NewDbEdit(name)]
    && forall i :: 0 <= i < |acts| ==> Writes(view, name, nodes[i], acts[i], manifests[i], manifests[i + 1])
  }

  /** In every run, through any crashes, the bytes of the manifest are read back as the descriptor. */
  lemma ManifestIsDescriptor(view: View, crc: Crc, name: Bytes, nodes: seq<Node>, acts: seq<Act>,
                             manifests: seq<seq<EditCodec.Edit>>, i: nat)
    requires IsManifestRun(view, name, nodes, acts, manifests) && i < |nodes|
    ensures Finds(view, crc, name, LogOf(crc, Records(manifests[i])), DescriptorOf(nodes[i]))
  {
    hide Keeps, Writes, Enabled, Next, Finds;
    RunKeepsManifest(view, name, nodes, acts, manifests, i);
    ManifestIsFound(view, crc, name, manifests[i], nodes[i]);
  }

  lemma {:induction false} RunKeepsManifest(view: View, name: Bytes, nodes: seq<Node>, acts: seq<Act>,
                                            manifests: seq<seq<EditCodec.Edit>>, i: nat)
    requires IsManifestRun(view, name, nodes, acts, manifests) && i < |nodes|
    ensures Keeps(view, name, manifests[i], nodes[i])
  {
    hide Keeps, Writes, Enabled, Next, Invariant;
    if i == 0 {
      NewManifest(view, name);
    } else {
      RunKeepsManifest(view, name, nodes, acts, manifests, i - 1);
      RunKeepsInvariant(nodes, acts, i - 1);
      StepKeepsManifest(view, name, nodes[i - 1], acts[i - 1], manifests[i - 1], manifests[i]);
    }
  }
}
