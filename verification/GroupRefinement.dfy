/** The writer queue drives the durability machine: what a run of group commit logs, publishes and
    fails to sync are steps of that machine, and what writers are told succeeded is what it has
    acknowledged (db/db_impl.cc:1185-1256). */
module GroupRefinement {
  import opened DbFormat
  import opened Versions
  import InputSelection
  import VersionBuilder
  import Db = Engine
  import opened Durability
  import Recovery
  import Queue = GroupCommit

  /** The two machines agree: on the operations that succeeded, on what is in the log, on the group
      that is in the log but not answered, and on LastSequence. `base` was there at the start. */
  ghost predicate Agree(base: seq<Db.Op>, s: Queue.State, r: Running) {
    && r.db.ops == base + Queue.Applied(s.finished)
    && r.InLog() == base + Queue.LogOps(s.log)
    && r.failed == s.failed
    && r.LastSequence() == |base| + s.lastSequence
    && (if Recorded(s) then r.inflight == Some(Queue.Active(s).value.ops) else r.inflight.Some? == s.failed)
  }

  /** The leader's record is in the log. */
  predicate Recorded(s: Queue.State) {
    Queue.Active(s).Some? && !Queue.Active(s).value.stage.ToAppend?
  }

  /** The step of the durability machine that a step of the queue is; most are none. */
  function ActOf(s: Queue.State, step: Queue.Step, newMem: seq<Entry>): Option<Act> {
    match step
    case Append(id) => if Queue.Leads(s, id) then Some(AppendRecord(s.threads[id].ops)) else None
    case Publish(id) =>
      if !Queue.Leads(s, id) then None
      else if s.threads[id].stage.SyncFailed? then Some(SyncFails)
      else Some(Commit(newMem))
    case _ => None
  }

  /** What inserting a published group makes of the memtable. */
  ghost predicate Inserts(r: Running, act: Act) {
    act.Commit? && r.inflight.Some? ==>
      && Sorted(act.newMem)
      && SetOf(act.newMem) == SetOf(r.db.mem) + Db.BatchEntries(r.inflight.value, |r.db.ops|)
  }

  /** The database can take the step, and then agrees with the queue. */
  ghost predicate Takes(base: seq<Db.Op>, s: Queue.State, r: Running, act: Act) {
    && |r.db.version.levels| == NUM_LEVELS && RunningEnabled(r, act)
    && RunningNext(r, act).Up? && Agree(base, s, RunningNext(r, act).r)
  }

  // -------------------------------------------------------------- one step

  lemma LogOpsGrow(log: seq<Queue.Record>, record: Queue.Record, base: seq<Db.Op>)
    ensures base + Queue.LogOps(log + [record]) == base + Queue.LogOps(log) + record.ops
  {
    Queue.LogOpsOneMore(log, record);
  }

  lemma LeaderIsLeading(s: Queue.State, step: Queue.Step)
    requires Queue.Enabled(s, step) && (step.Append? || step.Publish?)
    ensures Queue.Leads(s, step.id)
  {
  }

  lemma AppendRefines(base: seq<Db.Op>, s: Queue.State, id: nat, r: Running, batch: seq<Db.Op>)
    requires Queue.Invariant(s) && Queue.Enabled(s, Queue.Append(id)) && Agree(base, s, r) && RunningInvariant(r)
    requires ActOf(s, Queue.Append(id), []) == Some(AppendRecord(batch)) && |r.db.ops| + |batch| < MAX_SEQUENCE
    ensures Takes(base, Queue.Next(s, Queue.Append(id)), r, AppendRecord(batch))
  {
    hide Queue.LogOps, Queue.RecordsOf, Queue.Applied, Queue.LoggedCount, Queue.Numbered, Queue.WritersOf,
         Queue.GroupOps, Queue.SyncedOk, Queue.RangesOk, Queue.QueueOk, Queue.LeaderOk, Db.Invariant, PartsOk, JobOk,
         OutsOk, HeldOk, DiskOk;
    Queue.LeaderIsFirst(s, id);
    LogOpsGrow(s.log, Queue.Record(s.lastSequence, batch), base);
  }

  lemma AppliedOneMore(finished: seq<Queue.Group>, g: Queue.Group, base: seq<Db.Op>)
    ensures base + Queue.Applied(finished + [g])
         == base + Queue.Applied(finished) + if g.ok && g.logged.Some? then g.logged.value.ops else []
  {
    assert (finished + [g])[..|finished|] == finished;
  }

  lemma CommitState(r: Running, newMem: seq<Entry>)
    requires |r.db.version.levels| == NUM_LEVELS && RunningEnabled(r, Commit(newMem))
    ensures RunningNext(r, Commit(newMem)).Up?
    ensures RunningNext(r, Commit(newMem)).r.db.ops == r.db.ops + r.inflight.value
  {
  }

  /** What a published leader leaves behind. */
  lemma Published(s: Queue.State, id: nat)
    requires Queue.Invariant(s) && Queue.Enabled(s, Queue.Publish(id))
    ensures var s' := Queue.Next(s, Queue.Publish(id));
            var t, ok := s.threads[id], !s.threads[id].stage.SyncFailed?;
            && !s.failed && s'.failed == !ok && s'.log == s.log && s'.lastSequence == s.lastSequence + |t.ops|
            && Queue.Active(s').None? && Queue.Active(s) == Some(t)
            && |s'.finished| == |s.finished| + 1 && s'.finished[..|s.finished|] == s.finished
            && s'.finished[|s.finished|].ok == ok
            && s'.finished[|s.finished|].logged == Some(Queue.Record(s.lastSequence, t.ops))
  {
    hide Queue.LogOps, Queue.RecordsOf, Queue.Applied, Queue.LoggedCount, Queue.Numbered, Queue.WritersOf,
         Queue.GroupOps, Queue.SyncedOk, Queue.RangesOk, Queue.QueueOk, Queue.Through, Queue.Answer;
    Queue.LeaderIsFirst(s, id);
    var t, s' := s.threads[id], Queue.Next(s, Queue.Publish(id));
    var n: nat :| Queue.IsPrefixGroup(s.queue, n, t);
    Queue.GroupPopped(s, t, n);
    Queue.AnswerIs(s.threads, s.queue[..n], !t.stage.SyncFailed?);
    Queue.StepKeepsInvariant(s, Queue.Publish(id));
    OthersAreNotAnswered(s, n);
    Queue.NextIsWaiting(s, s', n);
  }

  lemma OthersAreNotAnswered(s: Queue.State, n: nat)
    requires Queue.QueueOk(s.arrived, s.queue, s.finished, s.threads) && n <= |s.queue|
    ensures forall i :: n <= i < |s.queue| ==> forall w :: w in s.queue[..n] ==> w.id != s.queue[i].id
  {
    hide Queue.WritersOf;
    Queue.QueueIdsDiffer(s);
  }

  lemma PublishRefines(base: seq<Db.Op>, s: Queue.State, id: nat, r: Running, newMem: seq<Entry>, act: Act)
    requires Queue.Invariant(s) && Queue.Enabled(s, Queue.Publish(id)) && Agree(base, s, r) && RunningInvariant(r)
    requires ActOf(s, Queue.Publish(id), newMem) == Some(act) && Inserts(r, act)
    ensures Takes(base, Queue.Next(s, Queue.Publish(id)), r, act)
  {
    hide Queue.Invariant, Queue.Next, Queue.LogOps, Queue.Applied, Db.Invariant, PartsOk, JobOk, OutsOk, HeldOk,
         LogFileOk, Db.Next, Db.BatchEntries;
    Published(s, id);
    var t, s' := s.threads[id], Queue.Next(s, Queue.Publish(id));
    var g := s'.finished[|s.finished|];
    assert s'.finished == s.finished + [g];
    AppliedOneMore(s.finished, g, base);
    PublishedRunning(r, newMem, t.stage.SyncFailed?);
  }

  lemma PublishedRunning(r: Running, newMem: seq<Entry>, failed: bool)
    requires RunningInvariant(r) && r.inflight.Some? && !r.failed
    requires !failed ==>
             Sorted(newMem) && SetOf(newMem) == SetOf(r.db.mem) + Db.BatchEntries(r.inflight.value, |r.db.ops|)
    ensures var act := if failed then SyncFails else Commit(newMem);
            && RunningEnabled(r, act) && RunningNext(r, act).Up?
            && var r' := RunningNext(r, act).r;
               && r'.InLog() == r.InLog() && r'.failed == failed
               && r'.inflight == (if failed then r.inflight else None)
               && r'.db.ops == if failed then r.db.ops else r.db.ops + r.inflight.value
  {
    hide Db.Invariant, PartsOk, JobOk, OutsOk, HeldOk, LogFileOk, Db.BatchEntries, ReplayLogs, Holds, Db.NumbersOk,
         Stored;
  }

  /** Arriving, being refused, leading, syncing and inserting are nothing to the machine. */
  lemma SilentRefines(base: seq<Db.Op>, s: Queue.State, step: Queue.Step, r: Running)
    requires Queue.Invariant(s) && Queue.Enabled(s, step) && Agree(base, s, r) && !step.Append? && !step.Publish?
    ensures Agree(base, Queue.Next(s, step), r)
  {
    hide Queue.LogOps, Queue.RecordsOf, Queue.Applied, Queue.LoggedCount, Queue.Numbered, Queue.WritersOf,
         Queue.GroupOps, Queue.SyncedOk, Queue.RangesOk, Queue.LeaderOk, Queue.IsGroup;
    var s' := Queue.Next(s, step);
    match step
    case Arrive(batch, sync) =>
      Queue.ArrivalQueue(s.arrived, s.queue, s.finished, s.threads, Queue.Writer(|s.arrived|, batch, sync));
      assert Queue.Active(s') == Queue.Active(s);
    case Refuse(id) => Popped(base, s, step);
    case Force(id) => Popped(base, s, step);
    case Lead(id, n) => Queue.NobodyActive(s);
    case Sync(id, ok) => Queue.LeaderIsFirst(s, id);
    case Insert(id) => Queue.LeaderIsFirst(s, id);
  }

  lemma Popped(base: seq<Db.Op>, s: Queue.State, step: Queue.Step)
    requires Queue.Invariant(s) && Queue.Enabled(s, step) && (step.Refuse? || step.Force?)
    ensures var s' := Queue.Next(s, step);
            && base + Queue.Applied(s'.finished) == base + Queue.Applied(s.finished)
            && Queue.Active(s').None? && Queue.Active(s).None?
            && s'.log == s.log && s'.failed == s.failed && s'.lastSequence == s.lastSequence
  {
    hide Queue.LogOps, Queue.RecordsOf, Queue.Applied, Queue.LoggedCount, Queue.Numbered, Queue.WritersOf,
         Queue.GroupOps, Queue.SyncedOk, Queue.RangesOk, Queue.LeaderOk, Queue.IsGroup, Queue.QueueOk;
    var s' := Queue.Next(s, step);
    AppliedOneMore(s.finished, s'.finished[|s.finished|], base);
    assert base + Queue.Applied(s.finished) + [] == base + Queue.Applied(s.finished);
    Queue.StepKeepsInvariant(s, step);
    Queue.QueueIdsDiffer(s);
    Queue.NextIsWaiting(s, s', 1);
  }

  // ------------------------------------------- what an insertion makes of a memtable

  lemma {:induction false} Placed(mem: seq<Entry>, e: Entry) returns (after: seq<Entry>)
    requires Sorted(mem) && forall o :: o in mem ==> o.key.user != e.key.user || o.key.sequence != e.key.sequence
    ensures Sorted(after) && SetOf(after) == SetOf(mem) + iset{e}
  {
    var n := |mem| - 1;
    if mem == [] || Less(mem[n].key, e.key) {
      after := mem + [e];
    } else {
      assert mem[n] in mem;
      var rest := Placed(mem[..n], e);
      after := rest + [mem[n]];
      forall o | o in rest ensures Less(o.key, mem[n].key) {
        assert o in SetOf(rest);
      }
      assert mem == mem[..n] + [mem[n]];
    }
  }

  lemma {:induction false} Filled(mem: seq<Entry>, batch: seq<Db.Op>, n: nat) returns (after: seq<Entry>)
    requires Sorted(mem) && forall e :: e in mem ==> e.key.sequence <= n
    ensures Sorted(after) && SetOf(after) == SetOf(mem) + Db.BatchEntries(batch, n)
    ensures forall e :: e in after ==> e.key.sequence <= n + |batch|
  {
    if batch == [] {
      after := mem;
      assert Db.BatchEntries(batch, n) == iset{};
    } else {
      var m := |batch| - 1;
      var e := Db.EntryOf(batch[m], n + m);
      var rest := Filled(mem, batch[..m], n);
      after := Placed(rest, e);
      BatchOneMore(batch, n);
      Recovery.AddedUpTo(rest, after, e, n + |batch|);
    }
  }

  lemma BatchOneMore(batch: seq<Db.Op>, n: nat)
    requires batch != []
    ensures var m := |batch| - 1;
            Db.BatchEntries(batch, n) == Db.BatchEntries(batch[..m], n) + iset{Db.EntryOf(batch[m], n + m)}
  {
  }

  lemma MemIsOld(r: Running)
    requires RunningInvariant(r)
    ensures Sorted(r.db.mem) && forall e :: e in r.db.mem ==> e.key.sequence <= |r.db.ops|
  {
    hide JobOk, OutsOk, HeldOk, DiskOk, LogFileOk;
    forall e | e in r.db.mem ensures e.key.sequence <= |r.db.ops| {
      assert e in Slice(r.db.ops, r.memFrom, |r.db.ops|);
    }
  }

  // ------------------------------------------------------- both machines at once

  datatype Joint = Joint(writers: Queue.State, node: Running)

  /** A step of the writer queue together with what it does to the database, or a step of the
      database that is no write: a new log, a flush, a compaction, a snapshot, a collection. */
  datatype Move =
    | Writers(step: Queue.Step, newMem: seq<Entry>)
    | Elsewhere(act: Act)

  ghost predicate CanMove(j: Joint, move: Move) {
    && |j.node.db.version.levels| == NUM_LEVELS
    && match move
       case Writers(step, newMem) =>
         && Queue.Enabled(j.writers, step)
         && (ActOf(j.writers, step, newMem).Some? ==> RunningEnabled(j.node, ActOf(j.writers, step, newMem).value))
       case Elsewhere(act) =>
         && !act.AppendRecord? && !act.Commit? && !act.SyncFails? && !act.Crash?
         && RunningEnabled(j.node, act)
  }

  ghost function Moved(j: Joint, move: Move): Joint
    requires CanMove(j, move)
  {
    match move
    case Writers(step, newMem) =>
      var act := ActOf(j.writers, step, newMem);
      Joint(Queue.Next(j.writers, step), if act.Some? then RunningNext(j.node, act.value).r else j.node)
    case Elsewhere(act) => j.(node := RunningNext(j.node, act).r)
  }

  /** Every group that was logged and succeeded has all earlier operations before it: a group
      fails only as the last one. */
  ghost predicate InPlace(groups: seq<Queue.Group>) {
    forall i :: 0 <= i < |groups| && groups[i].ok && groups[i].logged.Some?
      ==> |Queue.Applied(groups[..i])| == groups[i].logged.value.before
  }

  ghost predicate Agreed(base: seq<Db.Op>, j: Joint) {
    && Queue.Invariant(j.writers) && RunningInvariant(j.node) && InPlace(j.writers.finished)
    && Agree(base, j.writers, j.node)
  }

  lemma InPlaceOneMore(groups: seq<Queue.Group>, g: Queue.Group)
    requires InPlace(groups) && (g.ok && g.logged.Some? ==> |Queue.Applied(groups)| == g.logged.value.before)
    ensures InPlace(groups + [g])
  {
    hide Queue.Applied;
    assert forall i :: 0 <= i < |groups| ==> (groups + [g])[..i] == groups[..i];
    assert (groups + [g])[..|groups|] == groups;
  }

  lemma QueueStepInPlace(s: Queue.State, step: Queue.Step)
    requires Queue.Invariant(s) && Queue.Enabled(s, step) && InPlace(s.finished)
    ensures InPlace(Queue.Next(s, step).finished)
  {
    hide Queue.LogOps, Queue.RecordsOf, Queue.Applied, Queue.LoggedCount, Queue.Numbered, Queue.WritersOf,
         Queue.GroupOps, Queue.SyncedOk, Queue.RangesOk, Queue.QueueOk, Queue.LeaderOk, Queue.IsGroup, InPlace;
    var s' := Queue.Next(s, step);
    if step.Publish? {
      Published(s, step.id);
    }
    if |s'.finished| == |s.finished| + 1 {
      assert s'.finished == s.finished + [s'.finished[|s.finished|]];
      InPlaceOneMore(s.finished, s'.finished[|s.finished|]);
    }
  }

  /** What the database asks of an act that a writer makes it take. */
  lemma WriterActFits(r: Running, act: Act)
    requires |r.db.version.levels| == NUM_LEVELS && RunningEnabled(r, act)
    ensures Inserts(r, act) && (act.AppendRecord? ==> |r.db.ops| + |act.batch| < MAX_SEQUENCE)
  {
  }

  lemma WriterMoveAgrees(base: seq<Db.Op>, j: Joint, step: Queue.Step, newMem: seq<Entry>)
    requires Agreed(base, j) && CanMove(j, Writers(step, newMem))
    ensures Agree(base, Moved(j, Writers(step, newMem)).writers, Moved(j, Writers(step, newMem)).node)
  {
    hide Queue.Invariant, Queue.Next, RunningInvariant, Agree, InPlace, RunningNext, RunningEnabled, Queue.Enabled,
         Inserts;
    var act := ActOf(j.writers, step, newMem);
    if act.Some? {
      WriterActFits(j.node, act.value);
    }
    if step.Append? || step.Publish? {
      LeaderIsLeading(j.writers, step);
    }
    match step
    case Append(id) => AppendRefines(base, j.writers, id, j.node, act.value.batch);
    case Publish(id) => PublishRefines(base, j.writers, id, j.node, newMem, act.value);
    case _ => SilentRefines(base, j.writers, step, j.node);
  }

  lemma OtherMoveAgrees(base: seq<Db.Op>, j: Joint, act: Act)
    requires Agreed(base, j) && CanMove(j, Elsewhere(act))
    ensures Agree(base, Moved(j, Elsewhere(act)).writers, Moved(j, Elsewhere(act)).node)
  {
    hide Queue.Invariant, InPlace, Queue.Applied, Queue.LogOps, Db.Invariant, PartsOk, OutsOk, HeldOk, DiskOk,
         LogFileOk, Db.Enabled, Db.Next, JobOk, EditReady, EditVersion, Collected;
    OpsOfStep(j.node, act);
    var r, r' := j.node, RunningNext(j.node, act).r;
    assert r'.inflight == r.inflight && r'.failed == r.failed;
    assert r'.db.ops == r.db.ops;
    assert r'.InLog() == r.InLog();
  }

  lemma NodeStays(r: Running, act: Act)
    requires RunningInvariant(r) && |r.db.version.levels| == NUM_LEVELS && RunningEnabled(r, act) && !act.Crash?
    ensures RunningNext(r, act).Up? && RunningInvariant(RunningNext(r, act).r)
  {
    hide RunningInvariant, Db.Next, Db.Enabled, Collected;
    StepKeepsInvariant(Up(r), act);
  }

  lemma MoveKeepsAgreement(base: seq<Db.Op>, j: Joint, move: Move)
    requires Agreed(base, j) && CanMove(j, move)
    ensures Agreed(base, Moved(j, move))
  {
    hide Queue.Invariant, Queue.Next, RunningInvariant, Agree, InPlace, RunningEnabled, RunningNext, Queue.Enabled;
    match move
    case Writers(step, newMem) =>
      WriterMoveAgrees(base, j, step, newMem);
      Queue.StepKeepsInvariant(j.writers, step);
      QueueStepInPlace(j.writers, step);
      if ActOf(j.writers, step, newMem).Some? {
        NodeStays(j.node, ActOf(j.writers, step, newMem).value);
      }
    case Elsewhere(act) =>
      OtherMoveAgrees(base, j, act);
      NodeStays(j.node, act);
  }

  // -------------------------------------------------------------- whole runs

  /** No writer has arrived yet, and the log of the database holds nothing unanswered. */
  ghost predicate Starts(j: Joint) {
    Queue.Init(j.writers) && RunningInvariant(j.node) && j.node.inflight.None? && !j.node.failed
  }

  lemma StartAgrees(j: Joint)
    requires Starts(j)
    ensures Agreed(j.node.db.ops, j)
  {
    hide RunningInvariant;
    Queue.InitOk(j.writers);
    assert Queue.Applied([]) == [] && Queue.LogOps([]) == [];
    assert j.node.db.ops + [] == j.node.db.ops;
  }

  ghost predicate IsJointRun(js: seq<Joint>, moves: seq<Move>) {
    && |js| == |moves| + 1
    && Starts(js[0])
    && forall i :: 0 <= i < |moves| ==> CanMove(js[i], moves[i]) && js[i + 1] == Moved(js[i], moves[i])
  }

  /** At every point of a run, what writers were told and what the database holds agree. */
  lemma {:induction false} RunAgrees(js: seq<Joint>, moves: seq<Move>, i: nat)
    requires IsJointRun(js, moves) && i < |js|
    ensures Agreed(js[0].node.db.ops, js[i])
  {
    hide Starts, Agreed, CanMove, Moved;
    if i == 0 {
      StartAgrees(js[0]);
    } else {
      RunAgrees(js, moves, i - 1);
      MoveKeepsAgreement(js[0].node.db.ops, js[i - 1], moves[i - 1]);
    }
  }

  /** The operations that a step of the queue puts into the log. */
  function Adds(s: Queue.State, step: Queue.Step): nat {
    if step.Append? && Queue.Leads(s, step.id) then |s.threads[step.id].ops| else 0
  }

  /** The database never holds a writer up: whatever the queue does next, it can follow. */
  lemma WritersCanMove(base: seq<Db.Op>, j: Joint, step: Queue.Step) returns (newMem: seq<Entry>)
    requires Agreed(base, j) && Queue.Enabled(j.writers, step)
    requires |base| + |Queue.LogOps(j.writers.log)| + Adds(j.writers, step) < MAX_SEQUENCE
    ensures CanMove(j, Writers(step, newMem))
  {
    hide Queue.Invariant, RunningInvariant, InPlace, Queue.LogOps, Queue.Applied, Queue.Enabled, RunningEnabled, Agree;
    newMem := [];
    if j.node.inflight.Some? {
      MemIsOld(j.node);
      newMem := Filled(j.node.db.mem, j.node.inflight.value, |j.node.db.ops|);
    }
    HasLevels(j.node);
    match step
    case Append(id) =>
      LogHoldsAll(base, j);
      LeaderIsLeading(j.writers, step);
      AppendRefines(base, j.writers, id, j.node, j.writers.threads[id].ops);
    case Publish(id) =>
      LeaderIsLeading(j.writers, step);
      PublishRefines(base, j.writers, id, j.node, newMem, ActOf(j.writers, step, newMem).value);
    case _ =>
  }

  lemma HasLevels(r: Running)
    requires RunningInvariant(r)
    ensures |r.db.version.levels| == NUM_LEVELS
  {
  }

  lemma LogHoldsAll(base: seq<Db.Op>, j: Joint)
    requires Agree(base, j.writers, j.node)
    ensures |j.node.db.ops| <= |base| + |Queue.LogOps(j.writers.log)|
  {
    hide Queue.LogOps, Queue.Applied;
    assert |j.node.db.ops| <= |j.node.InLog()|;
  }

  lemma LogGrows(s: Queue.State, step: Queue.Step)
    requires Queue.Enabled(s, step)
    ensures |Queue.LogOps(Queue.Next(s, step).log)| == |Queue.LogOps(s.log)| + Adds(s, step)
  {
    hide Queue.LogOps, Queue.IsGroup, Queue.Through, Queue.Answer, Queue.GroupOps;
    if step.Append? {
      Queue.LogOpsOneMore(s.log, Queue.Record(s.lastSequence, s.threads[step.id].ops));
    }
  }

  /** The queue's part of a joint run. */
  ghost predicate Follows(js: seq<Joint>, moves: seq<Move>, states: seq<Queue.State>, steps: seq<Queue.Step>) {
    && |js| == |states| && |moves| == |steps|
    && (forall i :: 0 <= i < |js| ==> js[i].writers == states[i])
    && forall i :: 0 <= i < |moves| ==> moves[i].Writers? && moves[i].step == steps[i]
  }

  /** Group commit refines the durability machine: every run of the queue is the queue's side of a run
      of both, as long as the sequence numbers last. */
  lemma {:induction false} QueueRunIsFollowed(states: seq<Queue.State>, steps: seq<Queue.Step>, r: Running)
    returns (js: seq<Joint>, moves: seq<Move>)
    requires Queue.IsRun(states, steps) && RunningInvariant(r) && r.inflight.None? && !r.failed
    requires |r.db.ops| + |Queue.LogOps(states[|steps|].log)| < MAX_SEQUENCE
    ensures IsJointRun(js, moves) && js[0].node == r && Follows(js, moves, states, steps)
    decreases |steps|
  {
    hide RunningInvariant, Queue.Enabled, Queue.Next, Queue.Init, CanMove, Moved, Agreed, Queue.LogOps;
    if steps == [] {
      js, moves := [Joint(states[0], r)], [];
    } else {
      var n := |steps| - 1;
      LogGrows(states[n], steps[n]);
      js, moves := QueueRunIsFollowed(states[..n + 1], steps[..n], r);
      RunAgrees(js, moves, n);
      var newMem := WritersCanMove(r.db.ops, js[n], steps[n]);
      var move := Writers(steps[n], newMem);
      MovedWriters(js[n], steps[n], newMem);
      js, moves := js + [Moved(js[n], move)], moves + [move];
    }
  }

  lemma MovedWriters(j: Joint, step: Queue.Step, newMem: seq<Entry>)
    requires CanMove(j, Writers(step, newMem))
    ensures Moved(j, Writers(step, newMem)).writers == Queue.Next(j.writers, step)
  {
    hide Queue.Next, Queue.Enabled, RunningNext, RunningEnabled, ActOf;
  }

  // ------------------------------------------------- what was answered stays

  /** Steps of the database from one node to another, crashes and recoveries included. */
  ghost predicate IsPath(nodes: seq<Node>, acts: seq<Act>) {
    && |nodes| == |acts| + 1
    && forall i :: 0 <= i < |acts| ==> Enabled(nodes[i], acts[i]) && nodes[i + 1] == Next(nodes[i], acts[i])
  }

  lemma {:induction false} PathKeepsOps(nodes: seq<Node>, acts: seq<Act>, k: nat)
    requires IsPath(nodes, acts) && Invariant(nodes[0]) && k < |nodes|
    ensures Invariant(nodes[k]) && Ops(nodes[0]) <= Ops(nodes[k])
  {
    hide Invariant, Enabled, Next, Ops;
    if k > 0 {
      PathKeepsOps(nodes, acts, k - 1);
      StepKeepsInvariant(nodes[k - 1], acts[k - 1]);
      OpsOnlyGrow(nodes[k - 1], acts[k - 1]);
    }
  }

  lemma {:induction false} AppliedAt(groups: seq<Queue.Group>, i: nat)
    requires i < |groups| && groups[i].ok && groups[i].logged.Some?
    ensures Queue.Applied(groups[..i]) + groups[i].logged.value.ops <= Queue.Applied(groups)
    decreases |groups|
  {
    var n := |groups| - 1;
    if i < n {
      AppliedAt(groups[..n], i);
      assert groups[..n][..i] == groups[..i];
    }
  }

  /** A write that was answered with success is in the database, whole and under the sequence numbers
      its group was given, and stays there through any steps, crashes and recoveries that follow. */
  lemma AnsweredWritesStay(js: seq<Joint>, moves: seq<Move>, i: nat, g: nat, nodes: seq<Node>, acts: seq<Act>, k: nat)
    requires IsJointRun(js, moves) && i < |js|
    requires g < |js[i].writers.finished| && js[i].writers.finished[g].ok && js[i].writers.finished[g].logged.Some?
    requires IsPath(nodes, acts) && nodes[0] == Up(js[i].node) && k < |nodes|
    ensures var group := js[i].writers.finished[g];
            var at := |js[0].node.db.ops| + group.logged.value.before;
            && group.logged.value.ops == Queue.GroupOps(group.writers)
            && at + |group.logged.value.ops| <= |Ops(nodes[k])|
            && Ops(nodes[k])[at..at + |group.logged.value.ops|] == group.logged.value.ops
  {
    hide IsJointRun, IsPath, Agreed, Invariant, Queue.GroupOps;
    RunAgrees(js, moves, i);
    NodeIsUp(js[0].node.db.ops, js[i]);
    PathKeepsOps(nodes, acts, k);
    AnsweredIsThere(js[0].node.db.ops, js[i], g);
    var group, at := js[i].writers.finished[g], |js[0].node.db.ops| + js[i].writers.finished[g].logged.value.before;
    assert Ops(nodes[k])[..|js[i].node.db.ops|] == js[i].node.db.ops;
    assert Ops(nodes[k])[at..at + |group.logged.value.ops|] == js[i].node.db.ops[at..at + |group.logged.value.ops|];
  }

  lemma NodeIsUp(base: seq<Db.Op>, j: Joint)
    requires Agreed(base, j)
    ensures Invariant(Up(j.node))
  {
    hide RunningInvariant, Queue.Invariant, Agree, InPlace;
  }

  /** A group that succeeded is in the database where its sequence numbers say. */
  lemma AnsweredIsThere(base: seq<Db.Op>, j: Joint, g: nat)
    requires Agreed(base, j)
    requires g < |j.writers.finished| && j.writers.finished[g].ok && j.writers.finished[g].logged.Some?
    ensures var group := j.writers.finished[g];
            var at := |base| + group.logged.value.before;
            && group.logged.value.ops == Queue.GroupOps(group.writers)
            && at + |group.logged.value.ops| <= |j.node.db.ops|
            && j.node.db.ops[at..at + |group.logged.value.ops|] == group.logged.value.ops
  {
    hide RunningInvariant, Queue.Applied, Queue.GroupOps, Queue.QueueOk, Queue.LeaderOk, Queue.LogOps, Queue.Active,
         Queue.Numbered, Queue.ActiveEntries, Queue.ActiveRecord, Queue.RangesOk, Queue.SyncedOk;
    var s := j.writers;
    AppliedAt(s.finished, g);
    assert Queue.GroupOk(s.finished[g]);
    var ops, before := s.finished[g].logged.value.ops, Queue.Applied(s.finished[..g]);
    var rest := Queue.Applied(s.finished)[|before + ops|..];
    assert j.node.db.ops == base + before + ops + rest;
  }
}
