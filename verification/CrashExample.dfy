/** A run that crashes between logging a write and answering its writer: the write is recovered
    (db/db_impl.cc:182-212, 280-489, 1474-1503). */
module CrashExample {
  import opened DbFormat
  import opened Versions
  import opened VersionBuilder
  import Db = Engine
  import opened Durability
  import DurableReads

  const WRITE: Db.Op := Db.Put(1, [65])
  const ENTRY := Entry(InternalKey(1, 1, TypeValue), [65])
  const TABLE := File(5, 100, ENTRY.key, ENTRY.key, [ENTRY])
  const GROUP := Group(0, [WRITE])

  ghost const N0 := NewDb()
  ghost const N1 := Down(N0.disk.(logs := map[3 := []], logEnd := 4), N0.view, [], 0)

  /** Creating the database: the first log is made, and there is nothing to replay. */
  lemma Created()
    ensures Enabled(N0, MakeLog(3)) && Next(N0, MakeLog(3)) == N1
    ensures Enabled(N1, Reopen([], []))
  {
    assert N0.disk.logs[3 := []] == map[3 := []];
    assert ReplayLogs(N1.disk.logs, 0, 1) == [] by { assert ReplayLogs(N1.disk.logs, 0, 0) == []; }
    assert ReplayLogs(N1.disk.logs, 0, 2) == [] && ReplayLogs(N1.disk.logs, 0, 3) == [];
    assert Needed(N1.disk) == [];
  }

  /** A database is up until it crashes, and down until it is reopened. */
  lemma UpOrDown(n: Node, act: Act)
    requires Enabled(n, act)
    ensures Next(n, act).Up? <==> (n.Up? && !act.Crash?) || act.Reopen?
  {
    hide Db.Next, Db.Enabled;
  }

  ghost function Opened(): (n: Node)
    ensures n.Up?
  {
    Created();
    UpOrDown(N1, Reopen([], []));
    Next(N1, Reopen([], []))
  }

  ghost predicate IsOpen(r: Running) {
    && r.inflight.None? && !r.failed && r.logFile == 3 && r.job.Idle? && r.disk.logs == map[3 := []]
    && r.disk.descriptor.logNumber == 3 && r.disk.logEnd == 4 && r.disk.descriptor.nextFile == 4
  }

  /** What is needed of the open database to go on. */
  lemma OpenedIs()
    ensures Invariant(Opened()) && Opened().Up? && Ops(Opened()) == []
    ensures IsOpen(Opened().r)
    ensures |Opened().r.db.version.levels| == NUM_LEVELS && Enabled(Opened(), AppendRecord([WRITE]))
  {
    hide Install, Invariant;
    Created();
    NewDbOk();
    StepKeepsInvariant(N0, MakeLog(3));
    StepKeepsInvariant(N1, Reopen([], []));
    OpenedVersion();
  }

  lemma OpenedVersion()
    ensures |Opened().r.db.version.levels| == NUM_LEVELS
  {
    hide Invariant;
    Created();
  }

  ghost function Logged(): (n: Node)
    ensures n.Up?
  {
    OpenedIs();
    UpOrDown(Opened(), AppendRecord([WRITE]));
    Next(Opened(), AppendRecord([WRITE]))
  }

  lemma LoggedIs()
    ensures Invariant(Logged()) && Enabled(Logged(), Crash) && Ops(Logged()) == [] && Unanswered(Logged()) == [WRITE]
    ensures Logged().r.disk == Opened().r.disk.(logs := map[3 := [GROUP]])
  {
    hide Invariant, Opened;
    OpenedIs();
    StepKeepsInvariant(Opened(), AppendRecord([WRITE]));
    var r := Opened().r;
    assert r.db.ops == [];
    assert r.disk.logs[3] + [GROUP] == [GROUP];
    assert r.disk.logs[3 := [GROUP]] == map[3 := [GROUP]];
    assert Logged() == Up(r.(disk := r.disk.(logs := map[3 := [GROUP]]), inflight := Some([WRITE])));
  }

  ghost predicate IsCrashed(n: Node) {
    && n.Down? && n.tail == [WRITE] && n.view.ops == [] && n.disk.logs == map[3 := [GROUP]]
    && n.disk.descriptor.logNumber == 3 && n.disk.logEnd == 4 && n.disk.descriptor.nextFile == 4
  }

  ghost function Crashed(): (n: Node)
    ensures n.Down?
  {
    LoggedIs();
    UpOrDown(Logged(), Crash);
    Next(Logged(), Crash)
  }

  ghost function Rebuilding(): (n: Node)
    ensures n.Down?
  {
    CrashedIs();
    UpOrDown(Crashed(), RebuildTable(TABLE));
    Next(Crashed(), RebuildTable(TABLE))
  }

  /** A crash leaves the disk as it is. */
  lemma AfterCrash(n: Node)
    requires Enabled(n, Crash)
    ensures n.Up? && Next(n, Crash).Down? && Next(n, Crash).disk == n.r.disk
    ensures Next(n, Crash).tail == Unanswered(n)
  {
    hide Db.Next, Db.Enabled;
  }

  lemma CrashedIs()
    ensures Invariant(Crashed()) && IsCrashed(Crashed()) && Enabled(Crashed(), RebuildTable(TABLE))
  {
    hide Invariant, Next, Logged, Opened;
    OpenedIs();
    LoggedIs();
    AfterCrash(Logged());
    StepKeepsInvariant(Logged(), Crash);
    OpsOnlyGrow(Logged(), Crash);
  }

  ghost function Ready(): Node
  {
    RebuildingIs();
    Next(Rebuilding(), MakeLog(6))
  }

  lemma RebuildingIs()
    ensures Invariant(Rebuilding()) && IsCrashed(Rebuilding()) && Enabled(Rebuilding(), MakeLog(6))
    ensures Rebuilding().disk.tables == Crashed().disk.tables[5 := [ENTRY]]
  {
    hide Invariant, Crashed;
    CrashedIs();
    StepKeepsInvariant(Crashed(), RebuildTable(TABLE));
  }

  lemma OneTable()
    ensures Flat([[GROUP]]) == [GROUP] && Rebuilt([[GROUP]], [TABLE]) && Ascending([TABLE], 4)
  {
    assert [[GROUP]][..0] == [] && [TABLE][..0] == [];
    assert Flat([]) == [] && Rebuilt([], []);
    assert GROUP in [GROUP] && Db.EntryOf(GROUP.ops[0], 0) == ENTRY;
    assert EntriesIn([GROUP]) == iset{ENTRY} && SetOf(TABLE.entries) == iset{ENTRY};
    assert ENTRY in EntriesIn([GROUP]);
  }

  lemma NeededNow(logs: map<nat, seq<Group>>)
    requires logs == map[3 := [GROUP], 6 := []]
    ensures ReplayLogs(logs, 3, 7) == [GROUP]
  {
    assert ReplayLogs(logs, 3, 3) == [];
    assert ReplayLogs(logs, 3, 4) == [GROUP];
    assert ReplayLogs(logs, 3, 5) == [GROUP];
    assert ReplayLogs(logs, 3, 6) == [GROUP];
  }

  lemma ReadyIs()
    ensures Invariant(Ready()) && Ready().Down? && Enabled(Ready(), Reopen([[GROUP]], [TABLE]))
    ensures Ops(Ready()) == [] && Unanswered(Ready()) == [WRITE]
  {
    hide Invariant, Rebuilt, Flat, Ascending, ReplayLogs;
    OpenedIs();
    CrashedIs();
    RebuildingIs();
    StepKeepsInvariant(Rebuilding(), MakeLog(6));
    assert map[3 := [GROUP]][6 := []] == map[3 := [GROUP], 6 := []];
    NeededNow(Ready().disk.logs);
    OneTable();
  }

  ghost const ACTS := [MakeLog(3), Reopen([], []), AppendRecord([WRITE]), Crash, RebuildTable(TABLE), MakeLog(6),
      Reopen([[GROUP]], [TABLE])]

  ghost function Recovered(): Node
  {
    ReadyIs();
    Next(Ready(), Reopen([[GROUP]], [TABLE]))
  }

  ghost function Nodes(): seq<Node> {
    [N0, N1, Opened(), Logged(), Crashed(), Rebuilding(), Ready(), Recovered()]
  }

  lemma Takes(i: nat)
    requires i < 7
    ensures Enabled(Nodes()[i], ACTS[i]) && Nodes()[i + 1] == Next(Nodes()[i], ACTS[i])
  {
    hide Enabled, Next, Invariant;
    if i == 0 { Created(); }
    else if i == 1 { Created(); }
    else if i == 2 { OpenedIs(); }
    else if i == 3 { LoggedIs(); }
    else if i == 4 { CrashedIs(); }
    else if i == 5 { RebuildingIs(); }
    else { ReadyIs(); }
  }

  /** The run is one the machine can take, no compaction is involved, and at its end the write
      whose writer was never answered is there: a read of its key finds it. */
  lemma UnansweredWriteIsRecovered()
    ensures DurableReads.IsSafeRun(Nodes(), ACTS)
    ensures Nodes()[7].Up? && Ops(Nodes()[7]) == [WRITE]
    ensures |Nodes()[7].r.db.version.levels| == NUM_LEVELS && Read(Nodes()[7].r.db.Data(), 1, 1) == Some([65])
  {
    hide Enabled, Next, Invariant, Db.Replay;
    forall i | 0 <= i < 7 ensures Enabled(Nodes()[i], ACTS[i]) && Nodes()[i + 1] == Next(Nodes()[i], ACTS[i]) {
      Takes(i);
    }
    assert |Nodes()| == |ACTS| + 1 && forall i :: 0 <= i < 7 ==> !ACTS[i].LogEdit?;
    ReadyIs();
    OpsOnlyGrow(Ready(), ACTS[6]);
    RecoveredIsUp();
    DurableReads.DurableMap(Nodes(), ACTS, 7, 1, 1);
    MapOfOne();
  }

  lemma RecoveredIsUp()
    ensures Recovered().Up?
  {
    hide Invariant, Rebuilt, Flat, ReplayLogs;
    ReadyIs();
  }

  lemma MapOfOne()
    ensures [WRITE][..1] == [WRITE] && Db.Replay([WRITE]) == map[1 := [65]]
  {
    assert [WRITE][..0] == [] && Db.Replay([]) == map[];
  }
}
