/** Reads over runs with crashes: every live snapshot, and the present, shows the map that the
    acknowledged and recovered operations built. */
module DurableReads {
  import opened DbFormat
  import opened Versions
  import opened VersionBuilder
  import opened LevelOrderKept
  import InputSelection
  import Db = Engine
  import opened Durability

  /** What a read depends on. */
  ghost predicate SameReads(a: Db.State, b: Db.State) {
    a.mem == b.mem && a.imm == b.imm && a.version == b.version && a.ops == b.ops && a.floor == b.floor
  }

  lemma SameReadsRight(a: Db.State, b: Db.State)
    requires |a.version.levels| == NUM_LEVELS && SameReads(a, b) && Db.ReadsRight(a)
    ensures Db.ReadsRight(b)
  {
    assert a.Data() == b.Data();
  }

  /** Reads are right now, and stay right when the edit in the manifest is installed. */
  ghost predicate NodeReadsRight(n: Node) {
    match n
    case Up(r) => |r.db.version.levels| == NUM_LEVELS && |r.View().version.levels| == NUM_LEVELS
                  && Db.ReadsRight(r.db) && Db.ReadsRight(r.View())
    case Down(_, view, _, _) => |view.version.levels| == NUM_LEVELS && Db.ReadsRight(view)
  }

  /** A logged compaction must uncover nothing. */
  ghost predicate Safe(n: Node, act: Act) {
    (&& n.Up? && act.LogEdit? && act.step.FinishCompaction? && |n.r.db.version.levels| == NUM_LEVELS
     && n.r.db.running.Some? && n.r.db.running.value.level + 1 < NUM_LEVELS
        && |n.r.db.running.value.base.levels| == NUM_LEVELS)
    ==> !Db.Uncovers(n.r.db, act.step.input, act.step.outs)
  }

  lemma StepIsSafe(r: Running, step: Db.Step)
    requires RunningInvariant(r) && EditReady(r, step) && Safe(Up(r), LogEdit(step))
    ensures Db.Enabled(r.db, step) && Db.Safe(r.db, step)
  {
    hide Install, Db.Concatenated, Db.KeptBy, Db.Built, InputSelection.ValidPick, InputSelection.Unmet,
         DistinctNumbers, Db.Uncovers, DiskOk, PartsOk, LogFileOk, HeldOk;
    ReadyIsEnabled(r, step);
  }

  /** Writing and installing an edit commute. */
  lemma WriteThenEdit(db: Db.State, w: Db.Step, step: Db.Step)
    requires |db.version.levels| == NUM_LEVELS && w.Write? && Db.Enabled(db, w) && HasEdit(step) && Db.Enabled(db, step)
    ensures Db.Enabled(Db.Next(db, w), step)
    ensures |Db.Next(db, step).version.levels| == NUM_LEVELS ==>
              Db.Enabled(Db.Next(db, step), w) && Db.Next(Db.Next(db, w), step) == Db.Next(Db.Next(db, step), w)
  {
    hide Install, Db.OutputFiles, Db.KeptBy, InputSelection.ValidPick, InputSelection.Unmet, Db.Above, Db.Built,
         Db.BatchEntries, Sorted;
  }

  lemma SwitchThenEdit(db: Db.State, step: Db.Step)
    requires |db.version.levels| == NUM_LEVELS && db.imm.None? && HasEdit(step) && Db.Enabled(db, step)
    ensures Db.Enabled(Db.Next(db, Db.SwitchMemtable), step)
    ensures |Db.Next(db, step).version.levels| == NUM_LEVELS ==>
              Db.Next(db, step).imm.None?
              && Db.Next(Db.Next(db, Db.SwitchMemtable), step) == Db.Next(Db.Next(db, step), Db.SwitchMemtable)
  {
    hide Install, Db.OutputFiles, Db.KeptBy, InputSelection.ValidPick, InputSelection.Unmet, Db.Above, Db.Built, Sorted;
  }

  lemma BackgroundThenEdit(db: Db.State, step: Db.Step, edit: Db.Step)
    requires |db.version.levels| == NUM_LEVELS && Db.Enabled(db, step) && (step.TakeSnapshot? || step.ReleaseSnapshot?)
    requires HasEdit(edit) && Db.Enabled(db, edit)
    ensures Db.Enabled(Db.Next(db, step), edit) && SameReads(Db.Next(Db.Next(db, step), edit), Db.Next(db, edit))
  {
    hide Install, Db.OutputFiles, Db.KeptBy, InputSelection.ValidPick, InputSelection.Unmet, Db.Above, Db.Built, Sorted;
  }

  lemma CommitKeepsReads(r: Running, newMem: seq<Entry>)
    requires RunningInvariant(r) && RunningEnabled(r, Commit(newMem)) && NodeReadsRight(Up(r))
    ensures NodeReadsRight(RunningNext(r, Commit(newMem)))
  {
    hide Db.Invariant, Db.ReadsRight, Db.Next, Db.Enabled, DiskOk, PartsOk, LogFileOk, HeldOk, OutsOk;
    var w := Db.Write(r.inflight.value, newMem);
    Db.WriteKeepsReads(r.db, w);
    var r' := RunningNext(r, Commit(newMem)).r;
    if r.job.Logged? {
      var view := r.View();
      WriteThenEdit(r.db, w, r.job.step);
      Db.StepKeepsInvariant(r.db, r.job.step);
      Db.WriteKeepsReads(view, w);
      assert r'.View() == Db.Next(view, w);
    }
  }

  lemma NewLogKeepsReads(r: Running)
    requires RunningInvariant(r) && RunningEnabled(r, NewLog) && NodeReadsRight(Up(r))
    ensures NodeReadsRight(RunningNext(r, NewLog))
  {
    hide Db.Invariant, Db.ReadsRight, Db.Next, Db.Enabled, DiskOk, PartsOk, LogFileOk, HeldOk, OutsOk;
    SwitchedState(r.db);
    Db.StepKeepsReads(r.db, Db.SwitchMemtable);
    var r' := RunningNext(r, NewLog).r;
    if r.job.Logged? {
      var view := r.View();
      SwitchThenEdit(r.db, r.job.step);
      SwitchedState(view);
      Db.StepKeepsInvariant(r.db, r.job.step);
      Db.StepKeepsReads(view, Db.SwitchMemtable);
      assert r'.View() == Db.Next(view, Db.SwitchMemtable);
    }
  }

  lemma LogEditKeepsReads(r: Running, step: Db.Step)
    requires RunningInvariant(r) && RunningEnabled(r, LogEdit(step)) && NodeReadsRight(Up(r))
             && Safe(Up(r), LogEdit(step))
    ensures NodeReadsRight(RunningNext(r, LogEdit(step)))
  {
    hide Db.Invariant, Db.ReadsRight, Db.Next, Db.Enabled, DiskOk, PartsOk, LogFileOk, HeldOk, OutsOk, EditReady;
    assert EditReady(r, step);
    StepIsSafe(r, step);
    Db.StepKeepsReads(r.db, step);
    assert RunningNext(r, LogEdit(step)).r.View() == Db.Next(r.db, step);
  }

  lemma BackgroundKeepsReads(r: Running, step: Db.Step)
    requires RunningInvariant(r) && RunningEnabled(r, Background(step)) && NodeReadsRight(Up(r))
    ensures NodeReadsRight(RunningNext(r, Background(step)))
  {
    hide Db.Invariant, Db.ReadsRight, Db.Next, Db.Enabled, DiskOk, PartsOk, LogFileOk, HeldOk, OutsOk;
    BackgroundState(r.db, step);
    var r' := RunningNext(r, Background(step)).r;
    SameReadsRight(r.db, r'.db);
    if r.job.Logged? {
      BackgroundThenEdit(r.db, step, r.job.step);
      SameReadsRight(r.View(), r'.View());
    }
  }

  lemma ReopenKeepsReads(n: Node, chunks: seq<seq<Group>>, files: seq<File>)
    requires Invariant(n) && n.Down? && Enabled(n, Reopen(chunks, files)) && NodeReadsRight(n)
    ensures NodeReadsRight(Next(n, Reopen(chunks, files)))
  {
    hide Contents, Slice, Stored, Db.NumbersOk, Rebuilt, Flat, Install, DiskOk, Db.BatchEntries, Db.History, Db.UpTo;
    var db := Reopened(n, files).db;
    RecoveredEngine(n, chunks, files);
    HistoryUpTo(n.view);
    Db.HistoryGrows(n.view.ops, n.tail);
    Db.HistoryUnambiguous(n.view.ops);
    Db.HistoryUnambiguous(db.ops);
    Db.DataUnambiguous(n.view);
    Db.DataUnambiguous(db);
    forall user, q | q >= db.floor ensures Read(db.Data(), user, q) == Read(Db.History(db.ops), user, q) {
      Db.BatchReads(n.view.Data(), Db.History(n.view.ops), n.tail, |n.view.ops|, user, q);
    }
  }

  lemma HistoryUpTo(db: Db.State)
    requires Db.Invariant(db)
    ensures Db.UpTo(Db.History(db.ops), |db.ops|) && Db.UpTo(db.Data(), |db.ops|)
  {
    DataWasWritten(db);
  }

  lemma StepKeepsReads(n: Node, act: Act)
    requires Invariant(n) && Enabled(n, act) && NodeReadsRight(n) && Safe(n, act)
    ensures NodeReadsRight(Next(n, act))
  {
    hide Db.Invariant, Db.ReadsRight, Db.Next, Db.Enabled, DiskOk, PartsOk, LogFileOk, HeldOk, OutsOk, EditReady,
         Reopened;
    if n.Down? {
      if act.Reopen? { ReopenKeepsReads(n, act.chunks, act.files); }
    } else {
      match act
      case Commit(newMem) => CommitKeepsReads(n.r, newMem);
      case NewLog => NewLogKeepsReads(n.r);
      case LogEdit(step) => LogEditKeepsReads(n.r, step);
      case Background(step) => BackgroundKeepsReads(n.r, step);
      case BuildTable(level, file) => assert !RunningNext(n.r, act).r.job.Logged?;
      case _ =>
    }
  }

  ghost predicate IsSafeRun(nodes: seq<Node>, acts: seq<Act>) {
    IsRun(nodes, acts) && forall i :: 0 <= i < |acts| ==> Safe(nodes[i], acts[i])
  }

  lemma {:induction false} RunReadsRight(nodes: seq<Node>, acts: seq<Act>, i: nat)
    requires IsSafeRun(nodes, acts) && i < |nodes|
    ensures NodeReadsRight(nodes[i])
  {
    hide Invariant, Enabled, Next, Safe, NodeReadsRight;
    if i == 0 {
      NewDbReads();
    } else {
      RunReadsRight(nodes, acts, i - 1);
      RunKeepsInvariant(nodes, acts, i - 1);
      StepKeepsReads(nodes[i - 1], acts[i - 1]);
    }
  }

  lemma NewDbReads()
    ensures NodeReadsRight(NewDb())
  {
    assert NewDb().view.Data() == Db.History([]);
  }

  /** After any run with crashes and recoveries, a running database shows at every live snapshot,
      and at present, the map that the operations acknowledged or recovered up to it built. */
  lemma DurableMap(nodes: seq<Node>, acts: seq<Act>, i: nat, q: nat, user: UserKey)
    requires IsSafeRun(nodes, acts) && i < |nodes| && nodes[i].Up?
    requires q in nodes[i].r.db.snapshots || q == |Ops(nodes[i])|
    ensures |nodes[i].r.db.version.levels| == NUM_LEVELS && q <= |Ops(nodes[i])|
    ensures Read(nodes[i].r.db.Data(), user, q) == Db.Find(Db.Replay(Ops(nodes[i])[..q]), user)
  {
    hide Db.Invariant, DiskOk, PartsOk, LogFileOk, HeldOk, OutsOk, JobOk;
    RunKeepsInvariant(nodes, acts, i);
    RunReadsRight(nodes, acts, i);
    SnapshotBounds(nodes[i].r.db, q);
    Db.HistoryIsReplay(Ops(nodes[i]), user, q);
  }

  lemma SnapshotBounds(db: Db.State, q: nat)
    requires Db.Invariant(db) && (q in db.snapshots || q == |db.ops|)
    ensures db.floor <= q <= |db.ops|
  {
  }
}
