/** What survives a crash: log records, memtable switches, flushes, manifest edits, garbage
    collection, crash and recovery as steps around the engine (db/db_impl.cc: Recover,
    RecoverLogFile, WriteLevel0Table, CompactMemTable, DeleteObsoleteFiles, Write,
    MakeRoomForWrite, DB::Open; db/version_set.cc: LogAndApply, Recover). */
module Durability {
  import opened DbFormat
  import opened Versions
  import opened VersionBuilder
  import opened LevelOrderKept
  import InputSelection
  import Db = Engine

  // ------------------------------------------------------------------ disk

  /** A log record: a batch group, written after `before` operations; its first operation
      has sequence number before + 1. */
  datatype Group = Group(before: nat, ops: seq<Db.Op>)

  /** What replaying the manifest that CURRENT names gives. */
  datatype Descriptor = Descriptor(version: Version, logNumber: nat, nextFile: nat, lastSequence: nat)

  /** `logEnd` is a number above those of all log files. */
  datatype Disk = Disk(descriptor: Descriptor, logs: map<nat, seq<Group>>, logEnd: nat, tables: map<nat, seq<Entry>>)

  /** The records of the logs numbered from `lo` up to `hi`, in the order of the numbers. */
  function ReplayLogs(logs: map<nat, seq<Group>>, lo: nat, hi: nat): seq<Group> {
    if hi <= lo then []
    else ReplayLogs(logs, lo, hi - 1) + (if hi - 1 in logs then logs[hi - 1] else [])
  }

  /** What recovery reads: every log not older than the one the manifest names. */
  function Needed(disk: Disk): seq<Group> {
    ReplayLogs(disk.logs, disk.descriptor.logNumber, disk.logEnd)
  }

  ghost function EntriesIn(groups: seq<Group>): iset<Entry> {
    iset g, i | g in groups && 0 <= i < |g.ops| :: Db.EntryOf(g.ops[i], g.before + i)
  }

  /** The entries of the operations from the a-th up to the b-th. */
  ghost function Slice(ops: seq<Db.Op>, a: nat, b: nat): iset<Entry> {
    iset i: nat | a <= i < b && i < |ops| :: Db.EntryOf(ops[i], i)
  }

  /** The groups are the operations from `a` up to `b`, cut into consecutive pieces. */
  ghost predicate Holds(groups: seq<Group>, ops: seq<Db.Op>, a: nat, b: nat)
    requires b <= |ops|
  {
    if groups == [] then a == b
    else
      var n := |groups| - 1;
      var g := groups[n];
      && |g.ops| <= b && a <= b - |g.ops|
      && g == Group(b - |g.ops|, ops[b - |g.ops|..b])
      && Holds(groups[..n], ops, a, b - |g.ops|)
  }

  lemma {:induction false} HeldIsOrdered(groups: seq<Group>, ops: seq<Db.Op>, a: nat, b: nat)
    requires b <= |ops| && Holds(groups, ops, a, b)
    ensures a <= b
  {
    if groups != [] {
      HeldIsOrdered(groups[..|groups| - 1], ops, a, b - |groups[|groups| - 1].ops|);
    }
  }

  lemma SliceSplits(ops: seq<Db.Op>, a: nat, m: nat, b: nat)
    requires a <= m <= b
    ensures Slice(ops, a, b) == Slice(ops, a, m) + Slice(ops, m, b)
  {
  }

  lemma SliceOfGroup(ops: seq<Db.Op>, m: nat, b: nat, g: Group)
    requires m <= b <= |ops| && g == Group(m, ops[m..b])
    ensures EntriesIn([g]) == Slice(ops, m, b)
  {
    forall e | e in Slice(ops, m, b) ensures e in EntriesIn([g]) {
      var i: nat :| m <= i < b && i < |ops| && e == Db.EntryOf(ops[i], i);
      assert g in [g] && e == Db.EntryOf(g.ops[i - m], g.before + (i - m));
    }
    forall e | e in EntriesIn([g]) ensures e in Slice(ops, m, b) {
      var i :| 0 <= i < |g.ops| && e == Db.EntryOf(g.ops[i], g.before + i);
      assert e == Db.EntryOf(ops[m + i], m + i);
    }
  }

  lemma EntriesInBoth(a: seq<Group>, b: seq<Group>)
    ensures EntriesIn(a + b) == EntriesIn(a) + EntriesIn(b)
  {
  }

  lemma {:induction false} HeldEntries(groups: seq<Group>, ops: seq<Db.Op>, a: nat, b: nat)
    requires b <= |ops| && Holds(groups, ops, a, b)
    ensures EntriesIn(groups) == Slice(ops, a, b)
  {
    hide EntriesIn, Slice;
    if groups == [] {
      EmptySlice(ops, a);
    } else {
      var n := |groups| - 1;
      var m := b - |groups[n].ops|;
      HeldEntries(groups[..n], ops, a, m);
      HeldIsOrdered(groups[..n], ops, a, m);
      assert groups == groups[..n] + [groups[n]];
      EntriesInBoth(groups[..n], [groups[n]]);
      SliceOfGroup(ops, m, b, groups[n]);
      SliceSplits(ops, a, m, b);
    }
  }

  lemma EmptySlice(ops: seq<Db.Op>, a: nat)
    ensures Slice(ops, a, a) == iset{} == EntriesIn([])
  {
  }

  lemma {:induction false} HoldsMore(groups: seq<Group>, ops: seq<Db.Op>, more: seq<Db.Op>, a: nat, b: nat)
    requires b <= |ops| && Holds(groups, ops, a, b)
    ensures Holds(groups, ops + more, a, b)
  {
    if groups != [] {
      var n := |groups| - 1;
      HoldsMore(groups[..n], ops, more, a, b - |groups[n].ops|);
      assert (ops + more)[b - |groups[n].ops|..b] == ops[b - |groups[n].ops|..b];
    }
  }

  /** Appending a group that holds the operations written next. */
  lemma HoldsNext(groups: seq<Group>, ops: seq<Db.Op>, batch: seq<Db.Op>, a: nat)
    requires Holds(groups, ops, a, |ops|)
    ensures Holds(groups + [Group(|ops|, batch)], ops + batch, a, |ops + batch|)
  {
    var all := groups + [Group(|ops|, batch)];
    HoldsMore(groups, ops, batch, a, |ops|);
    HeldIsOrdered(groups, ops, a, |ops|);
    assert all[..|groups|] == groups;
    assert (ops + batch)[|ops|..] == batch;
  }

  // ------------------------------------------------------------ replaying logs

  lemma {:induction false} ReplayChanges(logs: map<nat, seq<Group>>, logs': map<nat, seq<Group>>, lo: nat, hi: nat)
    requires forall n :: lo <= n < hi ==> (n in logs <==> n in logs') && (n in logs ==> logs[n] == logs'[n])
    ensures ReplayLogs(logs, lo, hi) == ReplayLogs(logs', lo, hi)
  {
    if lo < hi { ReplayChanges(logs, logs', lo, hi - 1); }
  }

  lemma {:induction false} ReplayNothing(logs: map<nat, seq<Group>>, lo: nat, mid: nat, hi: nat)
    requires mid <= hi && forall n :: mid <= n < hi && n in logs ==> logs[n] == []
    ensures ReplayLogs(logs, lo, hi) == ReplayLogs(logs, lo, mid)
    decreases hi
  {
    if mid < hi { ReplayNothing(logs, lo, mid, hi - 1); }
  }

  /** Appending a record to the newest log appends it to what recovery reads. */
  lemma ReplayAppends(logs: map<nat, seq<Group>>, lo: nat, last: nat, g: Group)
    requires lo <= last && last in logs
    ensures ReplayLogs(logs[last := logs[last] + [g]], lo, last + 1) == ReplayLogs(logs, lo, last + 1) + [g]
  {
    ReplayChanges(logs, logs[last := logs[last] + [g]], lo, last);
  }

  /** A new empty log changes nothing that recovery reads. */
  lemma ReplayNewLog(logs: map<nat, seq<Group>>, lo: nat, end: nat, n: nat)
    requires end <= n && forall k :: k in logs ==> k < end
    ensures ReplayLogs(logs[n := []], lo, n + 1) == ReplayLogs(logs, lo, end)
  {
    ReplayChanges(logs, logs[n := []], lo, end);
    ReplayNothing(logs[n := []], lo, end, n + 1);
  }

  // ------------------------------------------------------------------ nodes

  /** The background thread's work on a memtable or an edit. */
  datatype Job =
    | Idle
    | TableBuilt(level: nat, file: File)      // WriteLevel0Table has written the table
    | Logged(step: Db.Step)                   // LogAndApply has written the manifest record

  /** A running database over its disk. */
  datatype Running = Running(
    disk: Disk,
    db: Db.State,
    logFile: nat,                   // logfile_number_
    logNumber: nat,                 // versions_->LogNumber()
    next: nat,                      // next_file_number_
    inflight: Option<seq<Db.Op>>,   // the group that is in the log but not yet committed
    failed: bool,                   // bg_error_: syncing the log failed
    job: Job,
    outs: seq<File>,                // tables the running compaction has written
    pinned: seq<Version>,           // older versions held by iterators
    immFrom: nat,                   // the immutable memtable holds the operations from here
    memFrom: nat)                   // the memtable holds the operations from here
  {
    /** Every operation whose record is in the log. */
    function InLog(): seq<Db.Op> {
      db.ops + if inflight.Some? then inflight.value else []
    }

    function LastSequence(): nat {
      if failed then |InLog()| else |db.ops|
    }

    /** The engine state once the edit that is in the manifest has been installed. */
    ghost function View(): Db.State
      requires |db.version.levels| == NUM_LEVELS
    {
      if job.Logged? && Db.Enabled(db, job.step) then Db.Next(db, job.step) else db
    }
  }

  /** `view` and `tail` record what had been acknowledged, and what else was in the log. */
  datatype Node =
    | Up(r: Running)
    | Down(disk: Disk, view: Db.State, tail: seq<Db.Op>, start: nat)

  datatype Act =
    | AppendRecord(batch: seq<Db.Op>)
    | Commit(newMem: seq<Entry>)
    | SyncFails
    | NewLog
    | BuildTable(level: nat, file: File)
    | LogEdit(step: Db.Step)
    | InstallEdit
    | BuildOutput(file: File)
    | Background(step: Db.Step)
    | Pin
    | Unpin(index: nat)
    | Collect
    | Crash
    | RebuildTable(file: File)
    | MakeLog(number: nat)
    | Reopen(chunks: seq<seq<Group>>, files: seq<File>)

  // -------------------------------------------------------- live files and logs

  ghost predicate InVersion(v: Version, number: nat) {
    exists l, f :: 0 <= l < |v.levels| && f in v.levels[l] && f.number == number
  }

  /** AddLiveFiles and pending_outputs_: tables of listed versions, and outputs being written. */
  ghost predicate Live(r: Running, number: nat) {
    || (exists f :: f in r.outs && f.number == number)
    || InVersion(r.db.version, number)
    || (r.db.running.Some? && InVersion(r.db.running.value.base, number))
    || exists v :: v in r.pinned && InVersion(v, number)
  }

  /** DeleteObsoleteFiles */
  ghost function Collected(r: Running): Disk {
    r.disk.(logs := map n | n in r.disk.logs && n >= r.logNumber :: r.disk.logs[n],
            tables := map n | n in r.disk.tables && Live(r, n) :: r.disk.tables[n])
  }

  // ---------------------------------------------------------------- recovery

  /** The memtables that replaying fills, in order, and the tables written from them. */
  ghost predicate Rebuilt(chunks: seq<seq<Group>>, files: seq<File>)
  {
    if chunks == [] then files == []
    else
      var n, entries := |chunks| - 1, EntriesIn(chunks[|chunks| - 1]);
      if entries == iset{} then Rebuilt(chunks[..n], files)
      else files != [] && Sorted(files[|files| - 1].entries) && Db.Built(files[|files| - 1])
           && SetOf(files[|files| - 1].entries) == entries && Rebuilt(chunks[..n], files[..|files| - 1])
  }

  function Flat(chunks: seq<seq<Group>>): seq<Group> {
    if chunks == [] then [] else Flat(chunks[..|chunks| - 1]) + chunks[|chunks| - 1]
  }

  /** max_sequence of the replayed batches. */
  function MaxSequence(groups: seq<Group>): nat {
    if groups == [] then 0
    else
      var n := |groups| - 1;
      Db.Max(MaxSequence(groups[..n]), groups[n].before + |groups[n].ops|)
  }

  ghost predicate Ascending(files: seq<File>, from: nat) {
    && (forall i :: 0 <= i < |files| ==> files[i].number >= from)
    && forall i, j :: 0 <= i < j < |files| ==> files[i].number < files[j].number
  }

  /** The edit that recovery fills with the level-0 tables it has written. */
  function RecoveryEdit(files: seq<File>): Edit {
    Edit({}, seq(|files|, i requires 0 <= i < |files| => NewFile(0, files[i])))
  }

  function RecoveredSequence(disk: Disk): nat {
    Db.Max(disk.descriptor.lastSequence, MaxSequence(Needed(disk)))
  }

  function NumberAfter(next: nat, files: seq<File>): nat {
    Db.Above(next, files)
  }

  /** DB::Open after recovery: a new manifest with the recovered tables and the new log. */
  ghost function Reopened(n: Node, files: seq<File>): Running
    requires n.Down? && n.disk.logEnd > 0
  {
    var d := n.disk.descriptor;
    var next := NumberAfter(Db.Max(d.nextFile, n.disk.logEnd), files);
    var v := Install(d.version, [RecoveryEdit(files)]);
    var ops := n.view.ops + n.tail;
    var newLog: nat := n.disk.logEnd - 1;
    Running(n.disk.(descriptor := Descriptor(v, newLog, next, RecoveredSequence(n.disk))),
            Db.State(ops, [], None, v, next, [], None, n.view.floor),
            newLog, newLog, next, None, false, Idle, [], [], |ops|, |ops|)
  }

  // ------------------------------------------------------------------ steps

  /** The steps that end in a manifest record. */
  ghost predicate HasEdit(step: Db.Step) {
    step.Flush? || step.DropEmptyMemtable? || step.FinishCompaction? || step.TrivialMove?
  }

  ghost predicate EditReady(r: Running, step: Db.Step)
    requires |r.db.version.levels| == NUM_LEVELS
  {
    match step
    case Flush(level, file) => r.job == TableBuilt(level, file)
    case DropEmptyMemtable => r.job.Idle? && r.db.imm == Some([])
    case FinishCompaction(input, outs) =>
      && r.job.Idle? && outs == r.outs && r.db.running.Some? && |r.db.running.value.base.levels| == NUM_LEVELS
      && Sorted(input)
      && SetOf(input) == EntriesOf(r.db.running.value.in0) + EntriesOf(r.db.running.value.in1)
      && Db.Concatenated(outs) == Db.KeptBy(r.db.running.value, input)
    case TrivialMove(level, f) => r.job.Idle? && Db.Enabled(r.db, step)
    case _ => false
  }

  ghost predicate RunningEnabled(r: Running, act: Act)
    requires |r.db.version.levels| == NUM_LEVELS
  {
    match act
    case AppendRecord(batch) => r.inflight.None? && !r.failed && |r.db.ops| + |batch| < MAX_SEQUENCE
        && r.logFile in r.disk.logs
    case Commit(newMem) => r.inflight.Some? && !r.failed && Db.Enabled(r.db, Db.Write(r.inflight.value, newMem))
    case SyncFails => r.inflight.Some? && !r.failed
    case NewLog => r.inflight.None? && !r.failed && r.db.imm.None?
    case BuildTable(level, file) =>
      && r.job.Idle? && r.db.imm == Some(file.entries) && Db.Built(file) && file.number == r.next
      && level <= MAX_MEM_COMPACT_LEVEL
      && (level > 0 ==>
            r.db.running.None? && InputSelection.Unmet(r.db.version, level, file.smallest.user, file.largest.user))
    case LogEdit(step) => EditReady(r, step)
    case InstallEdit => r.job.Logged? && Db.Enabled(r.db, r.job.step)
    case BuildOutput(file) => r.job.Idle? && r.db.running.Some? && Db.Built(file) && file.number == r.next
    case Background(step) =>
      && Db.Enabled(r.db, step)
      && (step.TakeSnapshot? || step.ReleaseSnapshot? || (step.StartCompaction? && r.job.Idle?))
    case Pin => true
    case Unpin(index) => index < |r.pinned|
    case Collect => r.job.Idle? && !r.failed
    case Crash => true
    case _ => false
  }

  /** The version that an edit makes of the current one. */
  ghost function EditVersion(db: Db.State, step: Db.Step): Version {
    match step
    case Flush(level, file) => Install(db.version, [FlushEdit(level, file)])
    case FinishCompaction(input, outs) =>
      if db.running.None? then db.version
      else
        var p := db.running.value;
        Install(db.version, [Move(p.level, p.in0, p.in1, outs).ToEdit()])
    case TrivialMove(level, f) => Install(db.version, [Move(level, [f], [], [f]).ToEdit()])
    case _ => db.version
  }

  /** CompactMemTable names the current log in its edit; other edits repeat the log number. */
  function EditLogNumber(r: Running, step: Db.Step): nat {
    if step.Flush? || step.DropEmptyMemtable? then r.logFile else r.logNumber
  }

  function Start(db: Db.State, immFrom: nat, memFrom: nat): nat {
    if db.imm.Some? then immFrom else memFrom
  }

  ghost function RunningNext(r: Running, act: Act): Node
    requires |r.db.version.levels| == NUM_LEVELS && RunningEnabled(r, act)
  {
    match act
    case AppendRecord(batch) =>
      var record := Group(|r.db.ops|, batch);
      Up(r.(disk := r.disk.(logs := r.disk.logs[r.logFile := r.disk.logs[r.logFile] + [record]]),
          inflight := Some(batch)))
    case Commit(newMem) =>
      Up(r.(db := Db.Next(r.db, Db.Write(r.inflight.value, newMem)), inflight := None))
    case SyncFails =>
      Up(r.(failed := true))
    case NewLog =>
      Up(r.(disk := r.disk.(logs := r.disk.logs[r.next := []], logEnd := r.next + 1),
            db := Db.Next(r.db, Db.SwitchMemtable), logFile := r.next, next := r.next + 1,
            immFrom := r.memFrom, memFrom := |r.db.ops|))
    case BuildTable(level, file) =>
      Up(r.(disk := r.disk.(tables := r.disk.tables[file.number := file.entries]), next := r.next + 1,
            job := TableBuilt(level, file)))
    case LogEdit(step) =>
      var d := Descriptor(EditVersion(r.db, step), EditLogNumber(r, step), r.next, r.LastSequence());
      Up(r.(disk := r.disk.(descriptor := d), job := Logged(step)))
    case InstallEdit =>
      Up(r.(db := Db.Next(r.db, r.job.step), logNumber := r.disk.descriptor.logNumber, job := Idle,
            outs := if r.job.step.FinishCompaction? then [] else r.outs))
    case BuildOutput(file) =>
      Up(r.(disk := r.disk.(tables := r.disk.tables[file.number := file.entries]), next := r.next + 1,
            outs := r.outs + [file]))
    case Background(step) => Up(r.(db := Db.Next(r.db, step)))
    case Pin => Up(r.(pinned := r.pinned + [r.db.version]))
    case Unpin(index) => Up(r.(pinned := r.pinned[..index] + r.pinned[index + 1..]))
    case Collect => Up(r.(disk := Collected(r)))
    case Crash =>
      Down(r.disk, r.View(), if r.inflight.Some? then r.inflight.value else [], Start(r.View(), r.immFrom, r.memFrom))
  }

  ghost predicate Enabled(n: Node, act: Act)
  {
    match n
    case Up(r) => |r.db.version.levels| == NUM_LEVELS && RunningEnabled(r, act)
    case Down(disk, view, tail, start) =>
      match act
      case RebuildTable(file) => file.number >= disk.descriptor.nextFile
      case MakeLog(number) => number >= disk.descriptor.nextFile && number >= disk.logEnd
      case Reopen(chunks, files) =>
        && disk.logEnd > 0 && disk.logEnd - 1 in disk.logs && disk.logs[disk.logEnd - 1] == []
        && disk.logEnd > disk.descriptor.nextFile
        && Flat(chunks) == Needed(disk) && Rebuilt(chunks, files) && Ascending(files, disk.descriptor.nextFile)
        && forall f :: f in files ==> f.number in disk.tables && disk.tables[f.number] == f.entries
      case _ => false
  }

  ghost function Next(n: Node, act: Act): Node
    requires Enabled(n, act)
  {
    match n
    case Up(r) => RunningNext(r, act)
    case Down(disk, view, tail, start) =>
      match act
      case RebuildTable(file) => Down(disk.(tables := disk.tables[file.number := file.entries]), view, tail, start)
      case MakeLog(number) => Down(disk.(logs := disk.logs[number := []], logEnd := number + 1), view, tail, start)
      case Reopen(chunks, files) => Up(Reopened(n, files))
  }

  // -------------------------------------------------------------- invariant

  /** Where the entries of the operations are: the memtables hold the latest, the tables at
      most the ones before. */
  ghost predicate PartsOk(db: Db.State, immFrom: nat, memFrom: nat)
    requires |db.version.levels| == NUM_LEVELS
  {
    && memFrom <= |db.ops| && SetOf(db.mem) == Slice(db.ops, memFrom, |db.ops|)
    && (db.imm.Some? ==> immFrom <= memFrom && SetOf(db.imm.value) == Slice(db.ops, immFrom, memFrom))
    && Db.UpTo(Contents(db.version), Start(db, immFrom, memFrom))
  }

  /** The tables of a version are on disk, under numbers already given out. */
  ghost predicate Stored(tables: map<nat, seq<Entry>>, next: nat, v: Version) {
    forall l, f :: 0 <= l < |v.levels| && f in v.levels[l] ==> StoredFile(tables, next, f)
  }

  ghost predicate StoredFile(tables: map<nat, seq<Entry>>, next: nat, f: File) {
    f.number < next && f.number in tables && tables[f.number] == f.entries
  }

  /** Recovering from this disk would find the version `v` and the operations from `start` on. */
  ghost predicate DiskOk(disk: Disk, ops: seq<Db.Op>, v: Version, start: nat) {
    && disk.descriptor.version == v
    && start <= disk.descriptor.lastSequence <= |ops| < MAX_SEQUENCE
    && Db.NumbersOk(v, disk.descriptor.nextFile)
    && Stored(disk.tables, disk.descriptor.nextFile, v)
    && (forall n :: n in disk.logs ==> n < disk.logEnd)
    && disk.descriptor.logNumber < disk.logEnd
    && Holds(Needed(disk), ops, start, |ops|)
  }

  ghost predicate LogFileOk(r: Running) {
    && r.logFile in r.disk.logs && r.disk.logEnd == r.logFile + 1
    && r.disk.descriptor.logNumber <= r.logFile
    && (!r.job.Logged? ==> r.logNumber == r.disk.descriptor.logNumber)
    && Holds(r.disk.logs[r.logFile], r.InLog(), r.memFrom, |r.InLog()|)
  }

  ghost predicate NotAmong(files: seq<File>, number: nat) {
    forall f :: f in files ==> f.number != number
  }

  ghost predicate JobOk(r: Running)
    requires |r.db.version.levels| == NUM_LEVELS
  {
    match r.job
    case Idle => true
    case TableBuilt(level, file) =>
      Db.Enabled(r.db, Db.Flush(level, file)) && StoredFile(r.disk.tables, r.next, file)
          && NotAmong(r.outs, file.number)
    case Logged(step) =>
      && HasEdit(step) && Db.Enabled(r.db, step)
      && (step.Flush? ==> StoredFile(r.disk.tables, r.next, step.file) && NotAmong(r.outs, step.file.number))
      && (step.FinishCompaction? ==> step.outs == r.outs)
  }

  ghost predicate OutsOk(r: Running) {
    && DistinctNumbers(r.outs)
    && (r.outs != [] ==> r.db.running.Some?)
    && forall f :: f in r.outs ==>
       Db.Built(f) && StoredFile(r.disk.tables, r.next, f) && Db.Unused(r.db.version, f.number)
  }

  ghost predicate HeldOk(r: Running) {
    && Stored(r.disk.tables, r.next, r.db.version)
    && (r.db.running.Some? ==> Stored(r.disk.tables, r.next, r.db.running.value.base))
    && forall v :: v in r.pinned ==> Stored(r.disk.tables, r.next, v)
  }

  ghost predicate RunningInvariant(r: Running) {
    && |r.db.version.levels| == NUM_LEVELS && Db.Invariant(r.db)
    && PartsOk(r.db, r.immFrom, r.memFrom)
    && r.db.nextFile <= r.next && r.disk.descriptor.nextFile <= r.next && r.disk.logEnd <= r.next
    && (r.failed ==> r.inflight.Some?)
    && LogFileOk(r) && JobOk(r) && OutsOk(r) && HeldOk(r)
    && DiskOk(r.disk, r.InLog(), r.View().version, Start(r.View(), r.immFrom, r.memFrom))
  }

  ghost predicate Invariant(n: Node) {
    match n
    case Up(r) => RunningInvariant(r)
    case Down(disk, view, tail, start) =>
      && |view.version.levels| == NUM_LEVELS && Db.Invariant(view)
      && start <= |view.ops|
      && DiskOk(disk, view.ops + tail, view.version, start)
      && Db.UpTo(Contents(view.version), start)
      && view.Data() == Contents(view.version) + Slice(view.ops, start, |view.ops|)
  }

  // -------------------------------------------------- writes and log switches

  /** What a step with an edit needs, and the version it makes, do not depend on later writes. */
  lemma SameEdit(db: Db.State, other: Db.State, step: Db.Step)
    requires |db.version.levels| == NUM_LEVELS && HasEdit(step) && Db.Enabled(db, step)
    requires other.version == db.version && other.imm == db.imm && other.nextFile == db.nextFile
             && other.running == db.running
    ensures Db.Enabled(other, step)
    ensures Db.Next(other, step).version == Db.Next(db, step).version
            && Db.Next(other, step).imm == Db.Next(db, step).imm
  {
    hide Db.OutputFiles, InputSelection.ValidPick, InputSelection.Unmet, Db.KeptBy, Install, Db.Above;
  }

  lemma SliceGrows(ops: seq<Db.Op>, batch: seq<Db.Op>, a: nat, b: nat)
    requires b <= |ops|
    ensures Slice(ops + batch, a, b) == Slice(ops, a, b)
  {
    forall e ensures e in Slice(ops + batch, a, b) <==> e in Slice(ops, a, b) {
      if i: nat :| a <= i < b && i < |ops| && e == Db.EntryOf(ops[i], i) {
        assert e == Db.EntryOf((ops + batch)[i], i);
      }
      if i: nat :| a <= i < b && i < |ops + batch| && e == Db.EntryOf((ops + batch)[i], i) {
        assert e == Db.EntryOf(ops[i], i);
      }
    }
  }

  lemma SliceOfBatch(ops: seq<Db.Op>, batch: seq<Db.Op>)
    ensures Slice(ops + batch, |ops|, |ops + batch|) == Db.BatchEntries(batch, |ops|)
  {
    var all := ops + batch;
    forall e ensures e in Slice(all, |ops|, |all|) <==> e in Db.BatchEntries(batch, |ops|) {
      if i: nat :| |ops| <= i < |all| && e == Db.EntryOf(all[i], i) {
        assert e == Db.EntryOf(batch[i - |ops|], |ops| + (i - |ops|));
      }
      if i :| 0 <= i < |batch| && e == Db.EntryOf(batch[i], |ops| + i) {
        assert e == Db.EntryOf(all[|ops| + i], |ops| + i);
      }
    }
  }

  /** A committed batch joins what the memtable holds. */
  lemma WriteKeepsParts(db: Db.State, step: Db.Step, immFrom: nat, memFrom: nat)
    requires |db.version.levels| == NUM_LEVELS && step.Write? && Db.Enabled(db, step) && PartsOk(db, immFrom, memFrom)
    ensures PartsOk(Db.Next(db, step), immFrom, memFrom)
  {
    hide Slice, Db.BatchEntries, Contents;
    var ops := db.ops + step.batch;
    SliceGrows(db.ops, step.batch, immFrom, memFrom);
    SliceGrows(db.ops, step.batch, memFrom, |db.ops|);
    SliceSplits(ops, memFrom, |db.ops|, |ops|);
    SliceOfBatch(db.ops, step.batch);
  }

  /** The view once the record is in the log: nothing but the log changes. */
  lemma AppendKeeps(r: Running, batch: seq<Db.Op>)
    requires RunningInvariant(r) && RunningEnabled(r, AppendRecord(batch))
    ensures Invariant(RunningNext(r, AppendRecord(batch)))
  {
    hide Db.Invariant, Db.Enabled, Db.Next, PartsOk, Stored, StoredFile, Db.NumbersOk, ReplayLogs;
    var record := Group(|r.db.ops|, batch);
    assert r.InLog() == r.db.ops;
    HoldsNext(r.disk.logs[r.logFile], r.db.ops, batch, r.memFrom);
    HoldsNext(Needed(r.disk), r.db.ops, batch, Start(r.View(), r.immFrom, r.memFrom));
    ReplayAppends(r.disk.logs, r.disk.descriptor.logNumber, r.logFile, record);
    var r' := RunningNext(r, AppendRecord(batch)).r;
    assert r'.View() == r.View() && r'.InLog() == r.db.ops + batch;
  }

  lemma CommitKeeps(r: Running, newMem: seq<Entry>)
    requires RunningInvariant(r) && RunningEnabled(r, Commit(newMem))
    ensures Invariant(RunningNext(r, Commit(newMem)))
  {
    hide Db.Invariant, PartsOk, Stored, StoredFile, Db.NumbersOk, ReplayLogs, Holds, Db.Next, Db.Enabled;
    var step := Db.Write(r.inflight.value, newMem);
    Db.StepKeepsInvariant(r.db, step);
    WriteKeepsParts(r.db, step, r.immFrom, r.memFrom);
    WrittenState(r.db, step);
    var r' := RunningNext(r, Commit(newMem)).r;
    assert r'.InLog() == r.InLog();
    if r.job.Logged? { SameEdit(r.db, r'.db, r.job.step); }
    if r.job.TableBuilt? { SameEdit(r.db, r'.db, Db.Flush(r.job.level, r.job.file)); }
  }

  lemma WrittenState(db: Db.State, step: Db.Step)
    requires |db.version.levels| == NUM_LEVELS && step.Write? && Db.Enabled(db, step)
    ensures Db.Next(db, step) == db.(ops := db.ops + step.batch, mem := step.newMem)
  {
  }

  lemma SyncFailsKeeps(r: Running)
    requires RunningInvariant(r) && RunningEnabled(r, SyncFails)
    ensures Invariant(RunningNext(r, SyncFails))
  {
    hide Db.Invariant, PartsOk, Stored, StoredFile, Db.NumbersOk, ReplayLogs, Holds, Db.Next, Db.Enabled;
  }

  lemma SwitchKeepsParts(db: Db.State, immFrom: nat, memFrom: nat)
    requires |db.version.levels| == NUM_LEVELS && db.imm.None? && PartsOk(db, immFrom, memFrom)
    ensures PartsOk(Db.Next(db, Db.SwitchMemtable), memFrom, |db.ops|)
  {
    hide Contents;
    EmptySlice(db.ops, |db.ops|);
  }

  lemma SwitchedState(db: Db.State)
    requires |db.version.levels| == NUM_LEVELS && db.imm.None?
    ensures Db.Enabled(db, Db.SwitchMemtable) && Db.Next(db, Db.SwitchMemtable) == db.(imm := Some(db.mem), mem := [])
  {
  }

  /** An edit in the manifest that needs no immutable memtable stays as it is when one appears. */
  lemma SameEditAfterSwitch(db: Db.State, step: Db.Step)
    requires |db.version.levels| == NUM_LEVELS && HasEdit(step) && db.imm.None? && Db.Enabled(db, step)
    ensures Db.Enabled(db.(imm := Some(db.mem), mem := []), step)
    ensures Db.Next(db.(imm := Some(db.mem), mem := []), step).version == Db.Next(db, step).version
    ensures Db.Next(db, step).imm.None? && Db.Next(db.(imm := Some(db.mem), mem := []), step).imm.Some?
    ensures !step.Flush?
  {
    hide Db.OutputFiles, InputSelection.ValidPick, InputSelection.Unmet, Db.KeptBy, Install, Db.Above;
  }

  lemma NewLogKeeps(r: Running)
    requires RunningInvariant(r) && RunningEnabled(r, NewLog)
    ensures Invariant(RunningNext(r, NewLog))
  {
    hide Db.Invariant, PartsOk, Stored, StoredFile, Db.NumbersOk, ReplayLogs, Db.Next, Db.Enabled;
    SwitchedState(r.db);
    Db.StepKeepsInvariant(r.db, Db.SwitchMemtable);
    SwitchKeepsParts(r.db, r.immFrom, r.memFrom);
    ReplayNewLog(r.disk.logs, r.disk.descriptor.logNumber, r.disk.logEnd, r.next);
    if r.job.Logged? { SameEditAfterSwitch(r.db, r.job.step); }
    if r.job.TableBuilt? { FlushNeedsMemtable(r.db, r.job.level, r.job.file); }
    LaterNumbers(r);
    var r' := RunningNext(r, NewLog).r;
    assert r'.InLog() == r.InLog() == r.db.ops;
  }

  lemma FlushNeedsMemtable(db: Db.State, level: nat, file: File)
    requires |db.version.levels| == NUM_LEVELS && Db.Enabled(db, Db.Flush(level, file))
    ensures db.imm.Some?
  {
  }

  /** Giving out a number takes nothing away. */
  lemma StoredLater(tables: map<nat, seq<Entry>>, next: nat, later: nat, v: Version)
    requires Stored(tables, next, v) && next <= later
    ensures Stored(tables, later, v)
  {
    forall l, f | 0 <= l < |v.levels| && f in v.levels[l] ensures StoredFile(tables, later, f) {
      assert StoredFile(tables, next, f);
    }
  }

  lemma LaterNumbers(r: Running)
    requires OutsOk(r) && HeldOk(r)
    ensures HeldOk(r.(next := r.next + 1)) && OutsOk(r.(next := r.next + 1))
  {
    hide Db.Built, Db.Unused, Stored;
    StoredLater(r.disk.tables, r.next, r.next + 1, r.db.version);
    if r.db.running.Some? { StoredLater(r.disk.tables, r.next, r.next + 1, r.db.running.value.base); }
    forall v | v in r.pinned ensures Stored(r.disk.tables, r.next + 1, v) {
      StoredLater(r.disk.tables, r.next, r.next + 1, v);
    }
  }

  /** A table written under a new number overwrites none that is needed. */
  lemma StoredBesideNew(tables: map<nat, seq<Entry>>, next: nat, number: nat, es: seq<Entry>, v: Version)
    requires Stored(tables, next, v) && number >= next
    ensures Stored(tables[number := es], next, v) && Stored(tables[number := es], number + 1, v)
  {
    forall l, f | 0 <= l < |v.levels| && f in v.levels[l]
      ensures StoredFile(tables[number := es], next, f) && StoredFile(tables[number := es], number + 1, f)
    {
      assert StoredFile(tables, next, f);
    }
  }

  lemma TableKeepsHeld(r: Running, es: seq<Entry>)
    requires OutsOk(r) && HeldOk(r)
    ensures var r' := r.(disk := r.disk.(tables := r.disk.tables[r.next := es]), next := r.next + 1);
            OutsOk(r') && HeldOk(r')
  {
    hide Db.Built, Db.Unused, Stored;
    var tables := r.disk.tables[r.next := es];
    StoredBesideNew(r.disk.tables, r.next, r.next, es, r.db.version);
    if r.db.running.Some? { StoredBesideNew(r.disk.tables, r.next, r.next, es, r.db.running.value.base); }
    forall v | v in r.pinned ensures Stored(tables, r.next + 1, v) {
      StoredBesideNew(r.disk.tables, r.next, r.next, es, v);
    }
  }

  lemma BuildTableKeeps(r: Running, level: nat, file: File)
    requires RunningInvariant(r) && RunningEnabled(r, BuildTable(level, file))
    ensures Invariant(RunningNext(r, BuildTable(level, file)))
  {
    hide Db.Invariant, PartsOk, Stored, Db.NumbersOk, ReplayLogs, Holds, Db.Next, Db.Built, InputSelection.Unmet;
    StoredBesideNew(r.disk.tables, r.disk.descriptor.nextFile, r.next, file.entries, r.disk.descriptor.version);
    TableKeepsHeld(r, file.entries);
    assert RunningNext(r, BuildTable(level, file)).r.InLog() == r.InLog();
  }

  lemma BuildOutputKeeps(r: Running, file: File)
    requires RunningInvariant(r) && RunningEnabled(r, BuildOutput(file))
    ensures Invariant(RunningNext(r, BuildOutput(file)))
  {
    hide Db.Invariant, PartsOk, Stored, Db.NumbersOk, ReplayLogs, Holds, Db.Next, Db.Built, Db.Enabled;
    StoredBesideNew(r.disk.tables, r.disk.descriptor.nextFile, r.next, file.entries, r.disk.descriptor.version);
    TableKeepsHeld(r, file.entries);
    NewNumberIsUnused(r.disk.tables, r.next, r.db.version);
    assert RunningNext(r, BuildOutput(file)).r.InLog() == r.InLog();
  }

  lemma NewNumberIsUnused(tables: map<nat, seq<Entry>>, next: nat, v: Version)
    requires Stored(tables, next, v)
    ensures Db.Unused(v, next)
  {
    forall l, f | 0 <= l < |v.levels| && f in v.levels[l] ensures f.number != next {
      assert StoredFile(tables, next, f);
    }
  }

  lemma PinKeeps(r: Running, act: Act)
    requires RunningInvariant(r) && (act.Pin? || act.Unpin?) && RunningEnabled(r, act)
    ensures Invariant(RunningNext(r, act))
  {
    hide Db.Invariant, PartsOk, Stored, StoredFile, Db.NumbersOk, ReplayLogs, Holds, Db.Next, Db.Enabled;
    var r' := RunningNext(r, act).r;
    assert r'.InLog() == r.InLog();
    if act.Unpin? {
      assert forall v :: v in r'.pinned ==> v in r.pinned;
    }
  }

  lemma BackgroundState(db: Db.State, step: Db.Step)
    requires |db.version.levels| == NUM_LEVELS && Db.Enabled(db, step)
    requires step.TakeSnapshot? || step.ReleaseSnapshot? || step.StartCompaction?
    ensures Db.Next(db, step) == db.(snapshots := Db.Next(db, step).snapshots, running := Db.Next(db, step).running)
    ensures if step.StartCompaction? then db.running.None? && Db.Next(db, step).running == Some(step.pick)
            && step.pick.base == db.version
            else Db.Next(db, step).running == db.running
  {
    hide InputSelection.ValidPick;
  }

  lemma BackgroundKeeps(r: Running, step: Db.Step)
    requires RunningInvariant(r) && RunningEnabled(r, Background(step))
    ensures Invariant(RunningNext(r, Background(step)))
  {
    hide Db.Invariant, Stored, StoredFile, Db.NumbersOk, ReplayLogs, Holds, Db.Next, Db.Enabled, Contents, Slice;
    Db.StepKeepsInvariant(r.db, step);
    BackgroundState(r.db, step);
    var r' := RunningNext(r, Background(step)).r;
    assert r'.InLog() == r.InLog();
    if r.job.Logged? { SameEdit(r.db, r'.db, r.job.step); }
    if r.job.TableBuilt? { SameEdit(r.db, r'.db, Db.Flush(r.job.level, r.job.file)); }
  }

  // ---------------------------------------------------------- manifest edits

  /** An edit that is ready to be logged is one the engine can make. */
  lemma ReadyIsEnabled(r: Running, step: Db.Step)
    requires |r.db.version.levels| == NUM_LEVELS && OutsOk(r) && JobOk(r) && EditReady(r, step)
    ensures HasEdit(step) && Db.Enabled(r.db, step) && EditVersion(r.db, step) == Db.Next(r.db, step).version
    ensures step.Flush? ==> StoredFile(r.disk.tables, r.next, step.file) && NotAmong(r.outs, step.file.number)
    ensures step.FinishCompaction? ==> step.outs == r.outs
  {
    hide Install, Db.Concatenated, Db.KeptBy, Db.Built, InputSelection.ValidPick, InputSelection.Unmet, DistinctNumbers;
    if step.FinishCompaction? {
      forall i | 0 <= i < |step.outs| ensures Db.Built(step.outs[i]) {
        assert step.outs[i] in r.outs;
      }
    }
  }

  lemma {:induction false} AboveIsBelow(nextFile: nat, outs: seq<File>, next: nat)
    requires nextFile <= next && forall f :: f in outs ==> f.number < next
    ensures Db.Above(nextFile, outs) <= next
  {
    if outs != [] {
      assert outs[0] in outs;
      AboveIsBelow(nextFile, outs[1..], next);
    }
  }

  lemma NumbersLater(v: Version, nextFile: nat, next: nat)
    requires Db.NumbersOk(v, nextFile) && nextFile <= next
    ensures Db.NumbersOk(v, next)
  {
  }

  /** Every file of the new version is a file of the old one or one that the step wrote. */
  lemma NewVersionFiles(db: Db.State, step: Db.Step, l: nat, f: File)
    requires Db.Invariant(db) && HasEdit(step) && Db.Enabled(db, step)
    requires l < |Db.Next(db, step).version.levels| && f in Db.Next(db, step).version.levels[l]
    ensures (exists k: nat :: k < NUM_LEVELS && f in db.version.levels[k])
            || (step.Flush? && f == step.file) || (step.FinishCompaction? && f in step.outs)
  {
    if step.Flush? {
      Db.FlushedTable(db, step.level, step.file);
      FlushChanges(db.version, step.level, step.file, Db.Next(db, step).version, l);
    } else if step.FinishCompaction? {
      FinishedFiles(db, step.input, step.outs, l, f);
    } else if step.TrivialMove? {
      MovedFiles(db, step.fromLevel, step.moved, l, f);
    } else {
      assert f in db.version.levels[l];
    }
  }

  lemma FinishedFiles(db: Db.State, input: seq<Entry>, outs: seq<File>, l: nat, f: File)
    requires Db.Invariant(db) && Db.Enabled(db, Db.FinishCompaction(input, outs)) && l < NUM_LEVELS
    requires var p := db.running.value; var w := Install(db.version, [Move(p.level, p.in0, p.in1, outs).ToEdit()]);
             l < |w.levels| && f in w.levels[l]
    ensures f in db.version.levels[l] || f in outs
  {
    hide Db.Invariant, Db.OutputFiles, Db.KeptBy, MoveOk, Install;
    var p := db.running.value;
    Db.OutputsAreOk(db, input, outs);
    Installable(db);
    MovedFilesAre(db.version, Move(p.level, p.in0, p.in1, outs), l, f);
  }

  lemma MovedFilesAre(v: Version, m: Move, l: nat, f: File)
    requires Installed(v) && MoveOk(v, m) && l < NUM_LEVELS
    requires var w := Install(v, [m.ToEdit()]); l < |w.levels| && f in w.levels[l]
    ensures f in v.levels[l] || (l == m.level + 1 && f in m.outs)
  {
    hide Install, InputSelection.ValidPick;
    PickIsChosen(v, m);
    MoveMakes(m, v, l);
  }

  lemma MovedFiles(db: Db.State, level: nat, file: File, l: nat, f: File)
    requires Db.Invariant(db) && Db.Enabled(db, Db.TrivialMove(level, file)) && l < NUM_LEVELS
    requires var w := Install(db.version, [Move(level, [file], [], [file]).ToEdit()]);
             l < |w.levels| && f in w.levels[l]
    ensures exists k: nat :: k < NUM_LEVELS && f in db.version.levels[k]
  {
    hide Install;
    var m := Move(level, [file], [], [file]);
    Db.MovedFileIsOk(db, level, file);
    PickIsChosen(db.version, m);
    MoveMakes(m, db.version, l);
    assert file in [file];
    assert file in db.version.levels[level];
    assert f in db.version.levels[l] || f == file;
  }

  lemma NewVersionStored(r: Running, step: Db.Step)
    requires Db.Invariant(r.db) && OutsOk(r) && HeldOk(r) && HasEdit(step) && Db.Enabled(r.db, step)
    requires step.Flush? ==> StoredFile(r.disk.tables, r.next, step.file)
    requires step.FinishCompaction? ==> step.outs == r.outs
    ensures Stored(r.disk.tables, r.next, Db.Next(r.db, step).version)
  {
    hide Db.Next, Db.Enabled, Db.Built, Db.Unused;
    var w := Db.Next(r.db, step).version;
    forall l, f | 0 <= l < |w.levels| && f in w.levels[l] ensures StoredFile(r.disk.tables, r.next, f) {
      NewVersionFiles(r.db, step, l, f);
      if k: nat :| k < NUM_LEVELS && f in r.db.version.levels[k] {
        assert StoredFile(r.disk.tables, r.next, f);
      }
    }
  }

  /** Once the edit is installed, the tables hold at most what was before the memtables. */
  lemma ViewParts(db: Db.State, step: Db.Step, immFrom: nat, memFrom: nat)
    requires Db.Invariant(db) && HasEdit(step) && Db.Enabled(db, step) && PartsOk(db, immFrom, memFrom)
    ensures |Db.Next(db, step).version.levels| == NUM_LEVELS && PartsOk(Db.Next(db, step), immFrom, memFrom)
  {
    hide Slice, Contents, Install;
    if step.Flush? {
      FlushedParts(db, step.level, step.file, immFrom, memFrom);
    } else if step.FinishCompaction? {
      Db.FinishShrinksContents(db, step.input, step.outs);
    } else if step.TrivialMove? {
      Db.MovedVersion(db, step.fromLevel, step.moved);
    }
  }

  lemma FlushedParts(db: Db.State, level: nat, file: File, immFrom: nat, memFrom: nat)
    requires Db.Invariant(db) && Db.Enabled(db, Db.Flush(level, file)) && PartsOk(db, immFrom, memFrom)
    ensures var w := Install(db.version, [FlushEdit(level, file)]);
            |w.levels| == NUM_LEVELS && Db.UpTo(Contents(w), memFrom)
  {
    hide Contents, Install, InputSelection.Unmet;
    Db.FlushedTable(db, level, file);
    FlushKeepsInvariant(db.version, level, file);
    assert Db.UpTo(Slice(db.ops, immFrom, memFrom), memFrom);
  }

  lemma ViewOps(db: Db.State, step: Db.Step)
    requires |db.version.levels| == NUM_LEVELS && HasEdit(step) && Db.Enabled(db, step)
    ensures var w := Db.Next(db, step);
            && w.ops == db.ops && w.mem == db.mem && w.snapshots == db.snapshots
            && w.imm == (if step.Flush? || step.DropEmptyMemtable? then None else db.imm)
            && w.running == (if step.FinishCompaction? then None else db.running)
            && (step.Flush? || step.DropEmptyMemtable? ==> db.imm.Some?)
  {
    hide Install, Db.Above, Db.OutputFiles, Db.KeptBy, InputSelection.ValidPick, InputSelection.Unmet;
  }

  lemma ViewNumbers(r: Running, step: Db.Step)
    requires |r.db.version.levels| == NUM_LEVELS && HasEdit(step) && Db.Enabled(r.db, step) && OutsOk(r)
             && r.db.nextFile <= r.next
    requires step.Flush? ==> StoredFile(r.disk.tables, r.next, step.file)
    requires step.FinishCompaction? ==> step.outs == r.outs
    ensures Db.Next(r.db, step).nextFile <= r.next
  {
    hide Install, Db.OutputFiles, Db.KeptBy, InputSelection.ValidPick, InputSelection.Unmet, Db.Built, Db.Unused,
         DistinctNumbers;
    if step.FinishCompaction? {
      forall f | f in r.outs ensures f.number < r.next {
        assert StoredFile(r.disk.tables, r.next, f);
      }
      AboveIsBelow(r.db.nextFile, r.outs, r.next);
    }
  }

  lemma ReplayOne(logs: map<nat, seq<Group>>, n: nat)
    requires n in logs
    ensures ReplayLogs(logs, n, n + 1) == logs[n]
  {
    assert ReplayLogs(logs, n, n) == [];
  }

  lemma LogEditKeeps(r: Running, step: Db.Step)
    requires RunningInvariant(r) && RunningEnabled(r, LogEdit(step))
    ensures Invariant(RunningNext(r, LogEdit(step)))
  {
    hide Db.Invariant, Stored, StoredFile, Db.NumbersOk, ReplayLogs, Holds, Db.Next, Db.Enabled, EditReady,
         EditVersion, Contents;
    assert EditReady(r, step);
    ReadyIsEnabled(r, step);
    Db.StepKeepsInvariant(r.db, step);
    NewVersionStored(r, step);
    ViewOps(r.db, step);
    ViewNumbers(r, step);
    NextNumbersOk(r.db, step, r.next);
    ReplayOne(r.disk.logs, r.logFile);
    HeldIsOrdered(r.disk.logs[r.logFile], r.InLog(), r.memFrom, |r.InLog()|);
    NotLogged(r, step);
    var r' := RunningNext(r, LogEdit(step)).r;
    assert r'.View() == Db.Next(r.db, step) && r'.InLog() == r.InLog();
  }

  lemma NotLogged(r: Running, step: Db.Step)
    requires |r.db.version.levels| == NUM_LEVELS && EditReady(r, step)
    ensures !r.job.Logged?
  {
  }

  lemma NextNumbersOk(db: Db.State, step: Db.Step, next: nat)
    requires |db.version.levels| == NUM_LEVELS && Db.Enabled(db, step) && Db.Invariant(Db.Next(db, step))
             && Db.Next(db, step).nextFile <= next
    ensures Db.NumbersOk(Db.Next(db, step).version, next) && |Db.Next(db, step).version.levels| == NUM_LEVELS
  {
    hide Db.Next, Db.Enabled;
    NumbersLater(Db.Next(db, step).version, Db.Next(db, step).nextFile, next);
  }

  lemma OutsStayUnused(r: Running, step: Db.Step)
    requires Db.Invariant(r.db) && OutsOk(r) && HasEdit(step) && Db.Enabled(r.db, step) && !step.FinishCompaction?
    requires step.Flush? ==> NotAmong(r.outs, step.file.number)
    ensures forall f :: f in r.outs ==> Db.Unused(Db.Next(r.db, step).version, f.number)
  {
    hide Db.Next, Db.Enabled, Db.Built, StoredFile;
    var w := Db.Next(r.db, step).version;
    forall f, l, g | f in r.outs && 0 <= l < |w.levels| && g in w.levels[l] ensures g.number != f.number {
      NewVersionFiles(r.db, step, l, g);
      if k: nat :| k < NUM_LEVELS && g in r.db.version.levels[k] {
        assert Db.Unused(r.db.version, f.number);
      }
    }
  }

  lemma InstallEditKeeps(r: Running)
    requires RunningInvariant(r) && RunningEnabled(r, InstallEdit)
    ensures Invariant(RunningNext(r, InstallEdit))
  {
    hide Db.Invariant, Stored, StoredFile, Db.NumbersOk, ReplayLogs, Holds, Db.Next, Db.Enabled, Contents, Slice,
         PartsOk;
    var step := r.job.step;
    Db.StepKeepsInvariant(r.db, step);
    ViewParts(r.db, step, r.immFrom, r.memFrom);
    NewVersionStored(r, step);
    ViewOps(r.db, step);
    ViewNumbers(r, step);
    if !step.FinishCompaction? { OutsStayUnused(r, step); }
    assert RunningNext(r, InstallEdit).r.InLog() == r.InLog();
  }

  /** An edit that is in the manifest can always be installed. */
  lemma LoggedEditInstalls(r: Running)
    requires RunningInvariant(r) && r.job.Logged?
    ensures RunningEnabled(r, InstallEdit) && RunningNext(r, InstallEdit).r.db == r.View()
  {
  }

  // -------------------------------------------------------- garbage collection

  lemma StaysStored(r: Running, next: nat, v: Version)
    requires Stored(r.disk.tables, next, v) && forall n :: InVersion(v, n) ==> Live(r, n)
    ensures Stored(Collected(r).tables, next, v)
  {
    hide Live;
    forall l, f | 0 <= l < |v.levels| && f in v.levels[l] ensures StoredFile(Collected(r).tables, next, f) {
      assert StoredFile(r.disk.tables, next, f);
      assert InVersion(v, f.number);
    }
  }

  /** Collection deletes no table of a listed version, no output of the running compaction,
      and no log record that recovery would read. */
  lemma CollectionIsSafe(r: Running)
    requires RunningInvariant(r) && RunningEnabled(r, Collect)
    ensures Needed(Collected(r)) == Needed(r.disk) && r.logFile in Collected(r).logs
    ensures Stored(Collected(r).tables, r.next, r.db.version)
    ensures Stored(Collected(r).tables, r.disk.descriptor.nextFile, r.disk.descriptor.version)
    ensures r.db.running.Some? ==> Stored(Collected(r).tables, r.next, r.db.running.value.base)
    ensures forall v :: v in r.pinned ==> Stored(Collected(r).tables, r.next, v)
    ensures forall f :: f in r.outs ==> StoredFile(Collected(r).tables, r.next, f)
  {
    hide Db.Invariant, Db.NumbersOk, ReplayLogs, Holds, Db.Next, Db.Enabled, PartsOk, Stored, InVersion, Db.Built,
         Db.Unused;
    ReplayChanges(r.disk.logs, Collected(r).logs, r.disk.descriptor.logNumber, r.disk.logEnd);
    StaysStored(r, r.next, r.db.version);
    StaysStored(r, r.disk.descriptor.nextFile, r.disk.descriptor.version);
    if r.db.running.Some? { StaysStored(r, r.next, r.db.running.value.base); }
    forall v | v in r.pinned ensures Stored(Collected(r).tables, r.next, v) {
      StaysStored(r, r.next, v);
    }
    forall f | f in r.outs ensures StoredFile(Collected(r).tables, r.next, f) {
      assert StoredFile(r.disk.tables, r.next, f) && Live(r, f.number);
    }
  }

  lemma CollectKeeps(r: Running)
    requires RunningInvariant(r) && RunningEnabled(r, Collect)
    ensures Invariant(RunningNext(r, Collect))
  {
    hide Db.Invariant, Db.NumbersOk, ReplayLogs, Holds, Db.Next, Db.Enabled, PartsOk, Stored, StoredFile, Live;
    CollectionIsSafe(r);
    assert RunningNext(r, Collect).r.InLog() == r.InLog();
  }

  // ---------------------------------------------------------- crash, recovery

  lemma PartsAreData(db: Db.State, immFrom: nat, memFrom: nat)
    requires |db.version.levels| == NUM_LEVELS && PartsOk(db, immFrom, memFrom)
    ensures var start := Start(db, immFrom, memFrom);
            start <= |db.ops| && db.Data() == Contents(db.version) + Slice(db.ops, start, |db.ops|)
  {
    hide Contents, Slice;
    if db.imm.Some? { SliceSplits(db.ops, immFrom, memFrom, |db.ops|); }
  }

  lemma CrashKeeps(r: Running)
    requires RunningInvariant(r) && RunningEnabled(r, Crash)
    ensures Invariant(RunningNext(r, Crash))
  {
    hide Db.Invariant, Stored, StoredFile, Db.NumbersOk, ReplayLogs, Holds, Db.Next, Db.Enabled, Contents, Slice;
    if r.job.Logged? {
      Db.StepKeepsInvariant(r.db, r.job.step);
      ViewParts(r.db, r.job.step, r.immFrom, r.memFrom);
      ViewOps(r.db, r.job.step);
    }
    PartsAreData(r.View(), r.immFrom, r.memFrom);
    assert r.View().ops == r.db.ops;
  }

  lemma RebuildTableKeeps(n: Node, file: File)
    requires Invariant(n) && n.Down? && Enabled(n, RebuildTable(file))
    ensures Invariant(Next(n, RebuildTable(file)))
  {
    hide Db.Invariant, Stored, StoredFile, Db.NumbersOk, ReplayLogs, Holds, Contents, Slice;
    var d := n.disk.descriptor;
    StoredBesideNew(n.disk.tables, d.nextFile, file.number, file.entries, d.version);
  }

  lemma MakeLogKeeps(n: Node, number: nat)
    requires Invariant(n) && n.Down? && Enabled(n, MakeLog(number))
    ensures Invariant(Next(n, MakeLog(number)))
  {
    hide Db.Invariant, Stored, StoredFile, Db.NumbersOk, ReplayLogs, Holds, Contents, Slice;
    ReplayNewLog(n.disk.logs, n.disk.descriptor.logNumber, n.disk.logEnd, number);
  }

  // -------------------------------------------------- what recovery rebuilds

  function OpCount(groups: seq<Group>): nat {
    if groups == [] then 0 else OpCount(groups[..|groups| - 1]) + |groups[|groups| - 1].ops|
  }

  lemma {:induction false} HoldsParts(x: seq<Group>, y: seq<Group>, ops: seq<Db.Op>, a: nat, b: nat)
    requires b <= |ops| && Holds(x + y, ops, a, b)
    ensures OpCount(y) <= b && Holds(x, ops, a, b - OpCount(y)) && Holds(y, ops, b - OpCount(y), b)
  {
    if y == [] {
      assert x + y == x;
    } else {
      var n := |y| - 1;
      assert (x + y)[..|x + y| - 1] == x + y[..n] && (x + y)[|x + y| - 1] == y[n];
      HoldsParts(x, y[..n], ops, a, b - |y[n].ops|);
      HoldsWithin(y[..n], ops, b - |y[n].ops|, b - OpCount(y));
    }
  }

  lemma HoldsWithin(y: seq<Group>, ops: seq<Db.Op>, b: nat, m: nat)
    requires b <= |ops| && Holds(y, ops, m, b)
    ensures m <= b
  {
    HeldIsOrdered(y, ops, m, b);
  }

  lemma {:induction false} SequenceIsRecovered(groups: seq<Group>, ops: seq<Db.Op>, a: nat, b: nat)
    requires b <= |ops| && Holds(groups, ops, a, b)
    ensures if groups == [] then a == b else MaxSequence(groups) == b
  {
    if groups != [] {
      var n := |groups| - 1;
      SequenceIsRecovered(groups[..n], ops, a, b - |groups[n].ops|);
    }
  }

  /** LastSequence ends exactly at the last recovered operation. */
  lemma LastSequenceIsRecovered(disk: Disk, ops: seq<Db.Op>, v: Version, start: nat)
    requires DiskOk(disk, ops, v, start)
    ensures RecoveredSequence(disk) == |ops|
  {
    hide Stored, Db.NumbersOk, ReplayLogs;
    SequenceIsRecovered(Needed(disk), ops, start, |ops|);
  }

  /** The tables added one at a time, oldest first. */
  function FlushAll(v: Version, files: seq<File>): Version {
    if files == [] then v else Install(FlushAll(v, files[..|files| - 1]), [FlushEdit(0, files[|files| - 1])])
  }

  /** Level 0 gets the tables, the other levels stay. */
  ghost predicate GainsFiles(v: Version, w: Version, files: seq<File>, l: nat)
    requires |v.levels| == |w.levels| == NUM_LEVELS && l < NUM_LEVELS
  {
    && SortedBySmallest(w.levels[l])
    && forall g :: g in w.levels[l] <==> g in v.levels[l] || (l == 0 && g in files)
  }

  lemma RebuiltTable(f: File, ops: seq<Db.Op>, a: nat, b: nat, w: Version)
    requires |w.levels| == NUM_LEVELS && Db.UpTo(Contents(w), a) && b <= |ops| < MAX_SEQUENCE
    requires Sorted(f.entries) && Db.Built(f) && SetOf(f.entries) == Slice(ops, a, b)
    requires forall g :: g in w.levels[0] ==> g.number < f.number
    ensures FlushOk(w, 0, f)
  {
    forall i | 0 <= i < |f.entries| ensures f.entries[i].key.sequence <= MAX_SEQUENCE {
      assert f.entries[i] in SetOf(f.entries);
    }
    assert forall e :: e in Slice(ops, a, b) ==> e.key.sequence > a;
  }

  lemma AddedTable(v: Version, w: Version, files: seq<File>, f: File)
    requires Installed(w) && |v.levels| == NUM_LEVELS && FlushOk(w, 0, f)
    requires forall l: nat :: l < NUM_LEVELS ==> GainsFiles(v, w, files, l)
    ensures var x := Install(w, [FlushEdit(0, f)]);
            && |x.levels| == NUM_LEVELS && Installed(x) && Contents(x) == Contents(w) + SetOf(f.entries)
            && forall l: nat :: l < NUM_LEVELS ==> GainsFiles(v, x, files + [f], l)
  {
    hide Install, Contents;
    var x := Install(w, [FlushEdit(0, f)]);
    FlushKeepsInvariant(w, 0, f);
    forall l: nat | l < NUM_LEVELS ensures GainsFiles(v, x, files + [f], l) {
      FlushChanges(w, 0, f, x, l);
      assert GainsFiles(v, w, files, l);
    }
  }

  /** `w` is `v` with these files added to level 0, which hold the operations from `a` to `b`. */
  ghost predicate Grown(v: Version, w: Version, files: seq<File>, ops: seq<Db.Op>, a: nat, b: nat) {
    && |v.levels| == |w.levels| == NUM_LEVELS && Installed(w)
    && Contents(w) == Contents(v) + Slice(ops, a, b) && Db.UpTo(Contents(w), b)
    && forall l: nat :: l < NUM_LEVELS ==> GainsFiles(v, w, files, l)
  }

  lemma GrownByNothing(v: Version, ops: seq<Db.Op>, a: nat)
    requires |v.levels| == NUM_LEVELS && Installed(v) && Db.UpTo(Contents(v), a)
    ensures Grown(v, v, [], ops, a, a)
  {
    hide Installed, Contents, Slice;
    EmptySlice(ops, a);
    GainsNothing(v);
  }

  lemma GrownByEmpty(v: Version, w: Version, files: seq<File>, ops: seq<Db.Op>, a: nat, m: nat, b: nat)
    requires Grown(v, w, files, ops, a, m) && a <= m <= b && Slice(ops, m, b) == iset{}
    ensures Grown(v, w, files, ops, a, b)
  {
    hide Installed, Contents, Slice, GainsFiles;
    SliceSplits(ops, a, m, b);
  }

  lemma GrownByTable(v: Version, next: nat, w: Version, files: seq<File>, f: File, ops: seq<Db.Op>, a: nat, m: nat,
                     b: nat)
    requires Grown(v, w, files, ops, a, m) && a <= m <= b <= |ops| < MAX_SEQUENCE
    requires Db.NumbersOk(v, next) && Ascending(files + [f], next)
    requires Sorted(f.entries) && Db.Built(f) && SetOf(f.entries) == Slice(ops, m, b)
    ensures Grown(v, Install(w, [FlushEdit(0, f)]), files + [f], ops, a, b)
  {
    hide Installed, Contents, Install, Slice, Db.NumbersOk, Sorted, Db.Built, GainsFiles, FlushOk;
    NumberIsHighest(v, w, next, files, f);
    RebuiltTable(f, ops, m, b, w);
    AddedTable(v, w, files, f);
    SliceSplits(ops, a, m, b);
    SliceUpTo(ops, m, b);
  }

  /** The tables written while replaying hold the replayed operations and fit on level 0. */
  lemma {:induction false} RebuiltVersion(v: Version, next: nat, chunks: seq<seq<Group>>, files: seq<File>,
                                          ops: seq<Db.Op>, a: nat, b: nat)
    requires |v.levels| == NUM_LEVELS && Installed(v) && Db.NumbersOk(v, next)
    requires Db.UpTo(Contents(v), a) && b <= |ops| < MAX_SEQUENCE
    requires Holds(Flat(chunks), ops, a, b) && Rebuilt(chunks, files) && Ascending(files, next)
    ensures Grown(v, FlushAll(v, files), files, ops, a, b)
    decreases |chunks|
  {
    hide Installed, Contents, Install, Slice, EntriesIn, Db.NumbersOk, Sorted, Db.Built, Grown, Db.UpTo;
    if chunks == [] {
      GrownByNothing(v, ops, a);
    } else {
      var n, groups := |chunks| - 1, chunks[|chunks| - 1];
      HoldsParts(Flat(chunks[..n]), groups, ops, a, b);
      var m := b - OpCount(groups);
      HeldEntries(groups, ops, m, b);
      HeldIsOrdered(Flat(chunks[..n]), ops, a, m);
      if EntriesIn(groups) == iset{} {
        RebuiltVersion(v, next, chunks[..n], files, ops, a, m);
        GrownByEmpty(v, FlushAll(v, files), files, ops, a, m, b);
      } else {
        var k := |files| - 1;
        RebuiltVersion(v, next, chunks[..n], files[..k], ops, a, m);
        assert files[..k] + [files[k]] == files;
        GrownByTable(v, next, FlushAll(v, files[..k]), files[..k], files[k], ops, a, m, b);
      }
    }
  }

  lemma GainsNothing(v: Version)
    requires Installed(v)
    ensures |v.levels| == NUM_LEVELS && forall l: nat :: l < NUM_LEVELS ==> GainsFiles(v, v, [], l)
  {
    forall l: nat | l < NUM_LEVELS ensures GainsFiles(v, v, [], l) {
      SortedLevels(v, l);
    }
  }

  lemma SliceUpTo(ops: seq<Db.Op>, m: nat, b: nat)
    requires m <= b
    ensures Db.UpTo(Slice(ops, m, b), b)
  {
  }

  lemma NumberIsHighest(v: Version, w: Version, next: nat, before: seq<File>, f: File)
    requires Ascending(before + [f], next) && Db.NumbersOk(v, next) && |v.levels| == |w.levels| == NUM_LEVELS
    requires forall l: nat :: l < NUM_LEVELS ==> GainsFiles(v, w, before, l)
    ensures forall g :: g in w.levels[0] ==> g.number < f.number
  {
    var all := before + [f];
    assert all[|before|] == f && forall i :: 0 <= i < |before| ==> all[i] == before[i];
    assert GainsFiles(v, w, before, 0);
  }

  /** Recovery's one edit makes the version that adding its tables one by one makes. */
  lemma OneEditAddsAll(v: Version, next: nat, files: seq<File>, w: Version)
    requires Installed(v) && Db.NumbersOk(v, next) && Ascending(files, next) && |w.levels| == NUM_LEVELS
    requires forall l: nat :: l < NUM_LEVELS ==> GainsFiles(v, w, files, l)
    ensures Install(v, [RecoveryEdit(files)]) == w
  {
    hide Install;
    var edit := RecoveryEdit(files);
    var x := Install(v, [edit]);
    FreshFiles(v, next, files);
    LevelsOfInstall(v, [edit]);
    forall l | 0 <= l < NUM_LEVELS ensures x.levels[l] == w.levels[l] {
      AddsOfList(l, 0, edit.added, files);
      assert GainsFiles(v, w, files, l);
      OneEdit(v, edit, l);
      SortedIsUnique(x.levels[l], w.levels[l]);
    }
    assert x.levels == w.levels;
  }

  lemma FreshFiles(v: Version, next: nat, files: seq<File>)
    requires Db.NumbersOk(v, next) && Ascending(files, next) && |v.levels| == NUM_LEVELS
    ensures FreshAdds(v.levels[0], files) && forall l :: 0 < l < NUM_LEVELS ==> FreshAdds(v.levels[l], [])
  {
    forall f, g | f in v.levels[0] && g in files ensures f.number != g.number {
      var i :| 0 <= i < |files| && files[i] == g;
    }
  }

  lemma RecoveredNumbers(v: Version, w: Version, files: seq<File>, from: nat, next: nat)
    requires |v.levels| == |w.levels| == NUM_LEVELS && Db.NumbersOk(v, from) && Ascending(files, from) && from <= next
    requires forall l: nat :: l < NUM_LEVELS ==> GainsFiles(v, w, files, l)
    requires forall f :: f in files ==> f.number < next
    ensures Db.NumbersOk(w, next)
  {
    forall l: nat, k: nat, f, g | l < k < NUM_LEVELS && f in w.levels[l] && g in w.levels[k]
      ensures f.number != g.number
    {
      assert GainsFiles(v, w, files, l) && GainsFiles(v, w, files, k);
      if f !in v.levels[l] {
        var i :| 0 <= i < |files| && files[i] == f;
      }
    }
    forall l: nat, f | l < NUM_LEVELS && f in w.levels[l] ensures f.number < next {
      assert GainsFiles(v, w, files, l);
    }
  }

  lemma RecoveredStored(tables: map<nat, seq<Entry>>, v: Version, w: Version, files: seq<File>, from: nat, next: nat)
    requires |v.levels| == |w.levels| == NUM_LEVELS && Stored(tables, from, v) && from <= next
    requires forall l: nat :: l < NUM_LEVELS ==> GainsFiles(v, w, files, l)
    requires forall f :: f in files ==> StoredFile(tables, next, f)
    ensures Stored(tables, next, w)
  {
    forall l: nat, f | l < NUM_LEVELS && f in w.levels[l] ensures StoredFile(tables, next, f) {
      assert GainsFiles(v, w, files, l);
      if f in v.levels[l] { assert StoredFile(tables, from, f); }
    }
  }

  /** What reopening finds: the version that the recovered tables make of the manifest's. */
  lemma RecoveredVersion(n: Node, chunks: seq<seq<Group>>, files: seq<File>)
    requires Invariant(n) && n.Down? && Enabled(n, Reopen(chunks, files))
    ensures var r, ops := Reopened(n, files), n.view.ops + n.tail;
            && |r.db.version.levels| == NUM_LEVELS && Installed(r.db.version) && Db.NumbersOk(r.db.version, r.next)
            && Contents(r.db.version) == Contents(n.view.version) + Slice(ops, n.start, |ops|)
            && Db.UpTo(Contents(r.db.version), |ops|)
            && Stored(r.disk.tables, r.next, r.db.version)
            && n.disk.descriptor.nextFile <= r.next && n.disk.logEnd <= r.next
  {
    hide Installed, Contents, Install, Slice, Holds, Rebuilt, GainsFiles;
    var d, ops := n.disk.descriptor, n.view.ops + n.tail;
    var w := FlushAll(d.version, files);
    Installable(n.view);
    RebuiltVersion(d.version, d.nextFile, chunks, files, ops, n.start, |ops|);
    OneEditAddsAll(d.version, d.nextFile, files, w);
    var next := Reopened(n, files).next;
    Db.AboveCovers(Db.Max(d.nextFile, n.disk.logEnd), files);
    RecoveredNumbers(d.version, w, files, d.nextFile, next);
    RecoveredStored(n.disk.tables, d.version, w, files, d.nextFile, next);
  }

  lemma Installable(db: Db.State)
    requires Db.Invariant(db)
    ensures Installed(db.version) && db.floor <= |db.ops|
  {
  }

  /** The recovered engine state. */
  lemma RecoveredEngine(n: Node, chunks: seq<seq<Group>>, files: seq<File>)
    requires Invariant(n) && n.Down? && Enabled(n, Reopen(chunks, files))
    ensures var db := Reopened(n, files).db;
            && |db.version.levels| == NUM_LEVELS && Db.Invariant(db)
            && db.Data() == n.view.Data() + Db.BatchEntries(n.tail, |n.view.ops|)
  {
    hide Installed, Contents, Install, Slice, Holds, Rebuilt, Stored, Db.NumbersOk, Db.BatchEntries, Db.History;
    var r, ops := Reopened(n, files), n.view.ops + n.tail;
    RecoveredVersion(n, chunks, files);
    Installable(n.view);
    SliceSplits(ops, n.start, |n.view.ops|, |ops|);
    SliceGrows(n.view.ops, n.tail, n.start, |n.view.ops|);
    SliceOfBatch(n.view.ops, n.tail);
    Db.HistoryGrows(n.view.ops, n.tail);
    DataWasWritten(n.view);
    assert SetOf([]) == iset{};
  }

  lemma DataWasWritten(db: Db.State)
    requires Db.Invariant(db)
    ensures db.Data() <= Db.History(db.ops)
  {
  }

  lemma ReopenKeeps(n: Node, chunks: seq<seq<Group>>, files: seq<File>)
    requires Invariant(n) && n.Down? && Enabled(n, Reopen(chunks, files))
    ensures Invariant(Next(n, Reopen(chunks, files)))
  {
    hide Db.Invariant, Installed, Contents, Install, Stored, Db.NumbersOk, Rebuilt, Flat, Slice;
    var r, ops := Reopened(n, files), n.view.ops + n.tail;
    RecoveredVersion(n, chunks, files);
    RecoveredEngine(n, chunks, files);
    LastSequenceIsRecovered(n.disk, ops, n.view.version, n.start);
    ReplayOne(r.disk.logs, r.logFile);
    EmptySlice(ops, |ops|);
    assert SetOf([]) == iset{};
    assert r.InLog() == ops;
  }

  // -------------------------------------------------------- steps and runs

  /** Every step, crash and recovery included, keeps what recovery needs. */
  lemma StepKeepsInvariant(n: Node, act: Act)
    requires Invariant(n) && Enabled(n, act)
    ensures Invariant(Next(n, act))
  {
    hide RunningInvariant, RunningEnabled, Db.Invariant, Reopened;
    if n.Down? {
      match act
      case RebuildTable(file) => RebuildTableKeeps(n, file);
      case MakeLog(number) => MakeLogKeeps(n, number);
      case Reopen(chunks, files) => ReopenKeeps(n, chunks, files);
      case _ =>
    } else {
      RunningStepKeeps(n.r, act);
    }
  }

  lemma RunningStepKeeps(r: Running, act: Act)
    requires RunningInvariant(r) && RunningEnabled(r, act)
    ensures Invariant(RunningNext(r, act))
  {
    hide RunningInvariant, RunningNext;
    match act
    case AppendRecord(batch) => AppendKeeps(r, batch);
    case Commit(newMem) => CommitKeeps(r, newMem);
    case SyncFails => SyncFailsKeeps(r);
    case NewLog => NewLogKeeps(r);
    case BuildTable(level, file) => BuildTableKeeps(r, level, file);
    case LogEdit(step) => LogEditKeeps(r, step);
    case InstallEdit => InstallEditKeeps(r);
    case BuildOutput(file) => BuildOutputKeeps(r, file);
    case Background(step) => BackgroundKeeps(r, step);
    case Pin => PinKeeps(r, act);
    case Unpin(index) => PinKeeps(r, act);
    case Collect => CollectKeeps(r);
    case Crash => CrashKeeps(r);
    case _ =>
  }

  /** DBImpl::NewDB has written the first manifest. */
  ghost function NewDb(): Node {
    var empty := EmptyVersion(NUM_LEVELS);
    Down(Disk(Descriptor(empty, 0, 2, 0), map[], 1, map[]), Db.State([], [], None, empty, 2, [], None, 0), [], 0)
  }

  lemma NewDbOk()
    ensures Invariant(NewDb())
  {
    Db.InitOk(NewDb().view);
    EmptySlice([], 0);
    assert Contents(EmptyVersion(NUM_LEVELS)) == iset{};
    assert NewDb().view.ops + NewDb().tail == [];
    assert ReplayLogs(map[], 0, 0) == [];
  }

  /** A run: from a new database, through any number of crashes and recoveries. */
  ghost predicate IsRun(nodes: seq<Node>, acts: seq<Act>) {
    && |nodes| == |acts| + 1
    && nodes[0] == NewDb()
    && forall i :: 0 <= i < |acts| ==> Enabled(nodes[i], acts[i]) && nodes[i + 1] == Next(nodes[i], acts[i])
  }

  lemma {:induction false} RunKeepsInvariant(nodes: seq<Node>, acts: seq<Act>, i: nat)
    requires IsRun(nodes, acts) && i < |nodes|
    ensures Invariant(nodes[i])
  {
    hide Invariant, Enabled, Next;
    if i == 0 {
      NewDbOk();
    } else {
      RunKeepsInvariant(nodes, acts, i - 1);
      StepKeepsInvariant(nodes[i - 1], acts[i - 1]);
    }
  }

  // --------------------------------------------- nothing acknowledged is lost

  /** The operations acknowledged so far, and those that recovery brought back. */
  function Ops(n: Node): seq<Db.Op> {
    match n
    case Up(r) => r.db.ops
    case Down(_, view, _, _) => view.ops
  }

  /** The one group whose writer had not been answered; recovery finds all of it or, if its
      record was never completed, none. */
  function Unanswered(n: Node): seq<Db.Op> {
    match n
    case Up(r) => if r.inflight.Some? then r.inflight.value else []
    case Down(_, _, tail, _) => tail
  }

  /** Only a commit and a recovery add operations, and each adds exactly the unanswered group. */
  lemma OpsOnlyGrow(n: Node, act: Act)
    requires Invariant(n) && Enabled(n, act)
    ensures Ops(Next(n, act)) == if act.Commit? || act.Reopen? then Ops(n) + Unanswered(n) else Ops(n)
    ensures act.Crash? ==> Unanswered(Next(n, act)) == Unanswered(n)
  {
    hide Db.Invariant, PartsOk, Stored, StoredFile, Db.NumbersOk, ReplayLogs, Holds, Db.Enabled, Contents, Db.Next;
    if n.Up? && RunningNext(n.r, act).Up? {
      OpsOfStep(n.r, act);
    }
    if act.Crash? && n.r.job.Logged? {
      ViewOps(n.r.db, n.r.job.step);
    }
  }

  lemma OpsOfStep(r: Running, act: Act)
    requires |r.db.version.levels| == NUM_LEVELS && JobOk(r) && RunningEnabled(r, act) && !act.Crash?
    ensures RunningNext(r, act).r.db.ops == if act.Commit? then r.db.ops + r.inflight.value else r.db.ops
  {
    hide Install, Db.OutputFiles, Db.KeptBy, InputSelection.ValidPick, InputSelection.Unmet, EditReady;
  }

  /** Whatever had been acknowledged at some point of a run is still there at every later one. */
  lemma {:induction false} AcknowledgedStays(nodes: seq<Node>, acts: seq<Act>, i: nat, j: nat)
    requires IsRun(nodes, acts) && i <= j < |nodes|
    ensures Ops(nodes[i]) <= Ops(nodes[j])
    decreases j
  {
    hide Invariant, Enabled, Next, Ops;
    if i < j {
      AcknowledgedStays(nodes, acts, i, j - 1);
      RunKeepsInvariant(nodes, acts, j - 1);
      OpsOnlyGrow(nodes[j - 1], acts[j - 1]);
    }
  }

  /** Recovery ends with the sequence number of the last operation it brought back. */
  lemma RecoveryIsExact(n: Node, chunks: seq<seq<Group>>, files: seq<File>)
    requires Invariant(n) && n.Down? && Enabled(n, Reopen(chunks, files))
    ensures var r := Next(n, Reopen(chunks, files)).r;
            && |r.db.version.levels| == NUM_LEVELS
            && r.db.ops == n.view.ops + n.tail
            && r.db.Data() == n.view.Data() + Db.BatchEntries(n.tail, |n.view.ops|)
            && r.disk.descriptor.lastSequence == |r.db.ops|
  {
    hide Db.Invariant, Stored, Db.NumbersOk, Rebuilt, Flat, Slice, Contents, Db.BatchEntries, Install;
    RecoveredEngine(n, chunks, files);
    LastSequenceIsRecovered(n.disk, n.view.ops + n.tail, n.view.version, n.start);
  }
}
