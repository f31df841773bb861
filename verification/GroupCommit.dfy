/** The writer queue and group commit, interleaved step by step
    (db/db_impl.cc:1185-1306; db/write_batch.cc:42-80, 116-147). */
module GroupCommit {
  import opened DbFormat
  import Db = Engine

  /** A WriteBatch; `size` is the length of its representation. */
  datatype Batch = Batch(ops: seq<Db.Op>, size: nat)

  /** A writer without a batch only asks for the memtable to be switched. */
  datatype Writer = Writer(id: nat, batch: Option<Batch>, sync: bool)

  const MAX_GROUP: nat := 0x10_0000
  const SMALL_WRITE: nat := 0x2_0000

  // -------------------------------------------------------- building a group

  function MaxSize(first: nat): nat {
    if first <= SMALL_WRITE then first + SMALL_WRITE else MAX_GROUP
  }

  function OpsOf(w: Writer): seq<Db.Op> {
    if w.batch.None? then [] else w.batch.value.ops
  }

  function SizeOf(w: Writer): nat {
    if w.batch.None? then 0 else w.batch.value.size
  }

  function GroupOps(writers: seq<Writer>): seq<Db.Op> {
    if writers == [] then [] else GroupOps(writers[..|writers| - 1]) + OpsOf(writers[|writers| - 1])
  }

  function GroupSize(writers: seq<Writer>): nat {
    if writers == [] then 0 else GroupSize(writers[..|writers| - 1]) + SizeOf(writers[|writers| - 1])
  }

  /** Whether the writer at `i` may join the group of the writers before it. */
  predicate Joins(queue: seq<Writer>, i: nat)
    requires 0 < i < |queue|
  {
    && !(queue[i].sync && !queue[0].sync)
    && (queue[i].batch.Some? ==> GroupSize(queue[..i + 1]) <= MaxSize(SizeOf(queue[0])))
  }

  /** The first `n` writers are the group: each joins, and the next one, if any, may not. */
  ghost predicate IsGroup(queue: seq<Writer>, n: nat) {
    && 0 < n <= |queue|
    && (forall i :: 0 < i < n ==> Joins(queue, i))
    && (n < |queue| ==> !Joins(queue, n))
  }

  method BuildBatchGroup(queue: seq<Writer>) returns (n: nat, ops: seq<Db.Op>)
    requires queue != [] && queue[0].batch.Some?
    ensures IsGroup(queue, n) && ops == GroupOps(queue[..n])
  {
    hide GroupOps, GroupSize;
    ops := queue[0].batch.value.ops;
    var size := queue[0].batch.value.size;
    var maxSize := MaxSize(size);
    n := 1;
    FirstWriter(queue);
    while n < |queue|
      invariant 0 < n <= |queue| && ops == GroupOps(queue[..n]) && size == GroupSize(queue[..n])
      invariant forall i :: 0 < i < n ==> Joins(queue, i)
    {
      var w := queue[n];
      NextWriter(queue, n);
      if w.sync && !queue[0].sync {
        return;
      }
      if w.batch.Some? {
        size := size + w.batch.value.size;
        if size > maxSize {
          return;
        }
        ops := ops + w.batch.value.ops;
      }
      n := n + 1;
    }
  }

  lemma NextWriter(queue: seq<Writer>, n: nat)
    requires n < |queue|
    ensures GroupOps(queue[..n + 1]) == GroupOps(queue[..n]) + OpsOf(queue[n])
    ensures GroupSize(queue[..n + 1]) == GroupSize(queue[..n]) + SizeOf(queue[n])
  {
    assert queue[..n + 1][..n] == queue[..n];
  }

  lemma FirstWriter(queue: seq<Writer>)
    requires queue != []
    ensures GroupOps(queue[..1]) == OpsOf(queue[0]) && GroupSize(queue[..1]) == SizeOf(queue[0])
  {
    assert queue[..1][..0] == [];
  }

  lemma GroupIsUnique(queue: seq<Writer>, m: nat, n: nat)
    requires IsGroup(queue, m) && IsGroup(queue, n)
    ensures m == n
  {
  }

  /** A sync write is never in the group of a leader that does not sync. */
  lemma SyncRule(queue: seq<Writer>, n: nat, i: nat)
    requires IsGroup(queue, n) && i < n && queue[i].sync
    ensures queue[0].sync
  {
    if i > 0 { assert Joins(queue, i); }
  }

  // --------------------------------------------------------------- the queue

  datatype Stage = ToAppend | ToSync | Inserting(done: nat) | SyncFailed

  /** Where the thread of a writer is. */
  datatype Thread =
    | Waiting
    | Leading(last: nat, ops: seq<Db.Op>, stage: Stage)   // outside the lock, writing the group up to `last`
    | Answered(ok: bool)

  datatype Record = Record(before: nat, ops: seq<Db.Op>)

  /** A group whose writers have been answered; `logged` is its record in the log. */
  datatype Group = Group(writers: seq<Writer>, logged: Option<Record>, synced: bool, ok: bool)

  datatype State = State(
    arrived: seq<Writer>,           // every writer, in the order of arrival
    queue: seq<Writer>,             // writers_
    threads: map<nat, Thread>,
    log: seq<Record>,
    synced: nat,                    // how many records are known to be on disk
    mem: seq<(nat, Db.Op)>,         // what has been inserted, with sequence numbers
    lastSequence: nat,
    failed: bool,                   // bg_error_
    finished: seq<Group>)

  datatype Step =
    | Arrive(batch: Option<Batch>, sync: bool)
    | Refuse(id: nat)
    | Force(id: nat)
    | Lead(id: nat, n: nat)
    | Append(id: nat)
    | Sync(id: nat, ok: bool)
    | Insert(id: nat)
    | Publish(id: nat)

  ghost predicate Init(s: State) {
    s == State([], [], map[], [], 0, [], 0, false, [])
  }

  predicate AtFront(s: State, id: nat) {
    s.queue != [] && s.queue[0].id == id
  }

  predicate Leads(s: State, id: nat) {
    id in s.threads && s.threads[id].Leading?
  }

  ghost predicate Enabled(s: State, step: Step) {
    match step
    case Arrive(batch, sync) => true
    case Refuse(id) => AtFront(s, id) && id in s.threads && s.threads[id].Waiting? && s.failed
    case Force(id) => AtFront(s, id) && id in s.threads && s.threads[id].Waiting? && !s.failed && s.queue[0].batch.None?
    case Lead(id, n) =>
      && AtFront(s, id) && id in s.threads && s.threads[id].Waiting? && !s.failed
      && s.queue[0].batch.Some? && IsGroup(s.queue, n)
    case Append(id) => Leads(s, id) && s.threads[id].stage.ToAppend?
    case Sync(id, ok) => Leads(s, id) && s.threads[id].stage.ToSync?
    case Insert(id) => Leads(s, id) && s.threads[id].stage.Inserting? && s.threads[id].stage.done < |s.threads[id].ops|
    case Publish(id) =>
      && Leads(s, id)
      && (s.threads[id].stage.SyncFailed? || s.threads[id].stage == Inserting(|s.threads[id].ops|))
  }

  /** How many writers the leader pops: through the last one of its group. */
  function Through(queue: seq<Writer>, last: nat): nat {
    if queue == [] then 0 else if queue[0].id == last then 1 else 1 + Through(queue[1..], last)
  }

  lemma ThroughIsShort(queue: seq<Writer>, last: nat)
    ensures Through(queue, last) <= |queue|
  {
  }

  function Answer(threads: map<nat, Thread>, writers: seq<Writer>, ok: bool): map<nat, Thread> {
    threads + map w | w in writers :: w.id := Answered(ok)
  }

  function SyncOf(s: State, id: nat): bool {
    s.queue != [] && s.queue[0].sync
  }

  ghost function Next(s: State, step: Step): State
    requires Enabled(s, step)
  {
    match step
    case Arrive(batch, sync) =>
      var w := Writer(|s.arrived|, batch, sync);
      s.(arrived := s.arrived + [w], queue := s.queue + [w], threads := s.threads[w.id := Waiting])
    case Refuse(id) =>
      s.(queue := s.queue[1..], threads := s.threads[id := Answered(false)],
         finished := s.finished + [Group([s.queue[0]], None, false, false)])
    case Force(id) =>
      s.(queue := s.queue[1..], threads := s.threads[id := Answered(true)],
         finished := s.finished + [Group([s.queue[0]], None, false, true)])
    case Lead(id, n) =>
      s.(threads := s.threads[id := Leading(s.queue[n - 1].id, GroupOps(s.queue[..n]), ToAppend)])
    case Append(id) =>
      var t := s.threads[id];
      s.(log := s.log + [Record(s.lastSequence, t.ops)],
         threads := s.threads[id := t.(stage := if SyncOf(s, id) then ToSync else Inserting(0))])
    case Sync(id, ok) =>
      var t := s.threads[id];
      s.(synced := if ok then |s.log| else s.synced,
         threads := s.threads[id := t.(stage := if ok then Inserting(0) else SyncFailed)])
    case Insert(id) =>
      var t := s.threads[id];
      var i := t.stage.done;
      s.(mem := s.mem + [(s.lastSequence + i + 1, t.ops[i])], threads := s.threads[id := t.(stage := Inserting(i + 1))])
    case Publish(id) =>
      var t := s.threads[id];
      ThroughIsShort(s.queue, t.last);
      var group := s.queue[..Through(s.queue, t.last)];
      var ok := !t.stage.SyncFailed?;
      s.(queue := s.queue[|group|..], threads := Answer(s.threads, group, ok),
         lastSequence := s.lastSequence + |t.ops|, failed := s.failed || !ok,
         finished := s.finished + [Group(group, Some(Record(s.lastSequence, t.ops)), SyncOf(s, id), ok)])
  }

  // -------------------------------------------------------------- invariant

  function WritersOf(groups: seq<Group>): seq<Writer> {
    if groups == [] then [] else WritersOf(groups[..|groups| - 1]) + groups[|groups| - 1].writers
  }

  function RecordsOf(groups: seq<Group>): seq<Record> {
    if groups == [] then []
    else
      var g := groups[|groups| - 1];
      RecordsOf(groups[..|groups| - 1]) + if g.logged.Some? then [g.logged.value] else []
  }

  /** The operations of the groups that succeeded. */
  function Applied(groups: seq<Group>): seq<Db.Op> {
    if groups == [] then []
    else
      var g := groups[|groups| - 1];
      Applied(groups[..|groups| - 1]) + if g.ok && g.logged.Some? then g.logged.value.ops else []
  }

  function LoggedCount(groups: seq<Group>): nat {
    if groups == [] then 0
    else
      var g := groups[|groups| - 1];
      LoggedCount(groups[..|groups| - 1]) + if g.logged.Some? then |g.logged.value.ops| else 0
  }

  /** The groups got consecutive sequence ranges when they were logged. */
  ghost predicate RangesOk(groups: seq<Group>) {
    forall i :: 0 <= i < |groups| && groups[i].logged.Some?
        ==> groups[i].logged.value.before == LoggedCount(groups[..i])
  }

  /** The operations under consecutive sequence numbers. */
  function Numbered(ops: seq<Db.Op>, before: nat): seq<(nat, Db.Op)> {
    seq(|ops|, i requires 0 <= i < |ops| => (before + i + 1, ops[i]))
  }

  ghost predicate QueueOk(arrived: seq<Writer>, queue: seq<Writer>, finished: seq<Group>, threads: map<nat, Thread>) {
    && arrived == WritersOf(finished) + queue
    && (forall i :: 0 <= i < |arrived| ==> arrived[i].id == i)
    && (forall id: nat :: id in threads <==> id < |arrived|)
    && (forall i :: 0 < i < |queue| ==> queue[i].id in threads && threads[queue[i].id].Waiting?)
    && (queue != [] ==> queue[0].id in threads && !threads[queue[0].id].Answered?)
    && forall g, w :: g in finished && w in g.writers ==> w.id in threads && threads[w.id] == Answered(g.ok)
  }

  /** The leader's group is still at the head of the queue, whoever has arrived since. */
  ghost predicate LeaderOk(queue: seq<Writer>, t: Thread)
    requires t.Leading?
  {
    exists n: nat :: IsPrefixGroup(queue, n, t)
  }

  ghost predicate IsPrefixGroup(queue: seq<Writer>, n: nat, t: Thread)
    requires t.Leading?
  {
    && 0 < n <= |queue| && queue[n - 1].id == t.last && t.ops == GroupOps(queue[..n])
    && (forall i :: 0 < i < n && queue[i].sync ==> queue[0].sync)
  }

  /** Each answered group: its record holds its writers' batches, and a sync write was synced. */
  ghost predicate GroupOk(g: Group) {
    g.logged.Some? ==>
      && g.logged.value.ops == GroupOps(g.writers)
      && forall w :: w in g.writers && w.sync ==> g.synced
  }

  ghost predicate SyncedOk(finished: seq<Group>, synced: nat) {
    forall i :: 0 <= i < |finished| && finished[i].ok && finished[i].synced ==> |RecordsOf(finished[..i + 1])| <= synced
  }

  /** The thread at the head of the queue, if it is writing. */
  function Active(s: State): Option<Thread> {
    if s.queue != [] && s.queue[0].id in s.threads && s.threads[s.queue[0].id].Leading?
        then Some(s.threads[s.queue[0].id])
    else None
  }

  function ActiveRecord(s: State): seq<Record> {
    if Active(s).Some? && !Active(s).value.stage.ToAppend? then [Record(s.lastSequence, Active(s).value.ops)] else []
  }

  function ActiveEntries(s: State): seq<(nat, Db.Op)> {
    if Active(s).Some? && Active(s).value.stage.Inserting? && Active(s).value.stage.done <= |Active(s).value.ops| then
      Numbered(Active(s).value.ops[..Active(s).value.stage.done], s.lastSequence)
    else []
  }

  ghost predicate Invariant(s: State) {
    && QueueOk(s.arrived, s.queue, s.finished, s.threads)
    && (forall g :: g in s.finished ==> GroupOk(g))
    && s.log == RecordsOf(s.finished) + ActiveRecord(s)
    && s.lastSequence == LoggedCount(s.finished) && RangesOk(s.finished)
    && s.mem == Numbered(Applied(s.finished), 0) + ActiveEntries(s)
    && (!s.failed ==> |Applied(s.finished)| == s.lastSequence)
    && |Applied(s.finished)| <= s.lastSequence
    && s.synced <= |s.log| && SyncedOk(s.finished, s.synced)
    && (Active(s).Some? ==>
          && !s.failed && LeaderOk(s.queue, Active(s).value)
          && (Active(s).value.stage.Inserting? ==>
                Active(s).value.stage.done <= |Active(s).value.ops| && (s.queue[0].sync ==> s.synced == |s.log|)))
  }

  lemma InitOk(s: State)
    requires Init(s)
    ensures Invariant(s)
  {
    assert WritersOf([]) == [] && RecordsOf([]) == [] && Applied([]) == [] && Numbered([], 0) == [];
    assert Active(s).None?;
  }

  lemma ArrivalQueue(arrived: seq<Writer>, queue: seq<Writer>, finished: seq<Group>, threads: map<nat, Thread>,
                     w: Writer)
    requires QueueOk(arrived, queue, finished, threads) && w.id == |arrived|
    ensures QueueOk(arrived + [w], queue + [w], finished, threads[w.id := Waiting])
    ensures queue != [] ==> queue[0].id != w.id
  {
    hide WritersOf;
    assert arrived + [w] == WritersOf(finished) + (queue + [w]);
    assert w.id !in threads;
    forall i | 0 <= i < |queue| ensures queue[i].id != w.id {
      assert i > 0 ==> queue[i].id in threads;
    }
  }

  lemma ArriveKeeps(s: State, batch: Option<Batch>, sync: bool)
    requires Invariant(s)
    ensures Invariant(Next(s, Arrive(batch, sync)))
  {
    hide GroupOps, RecordsOf, Applied, LoggedCount, Numbered, WritersOf;
    var w := Writer(|s.arrived|, batch, sync);
    var s' := Next(s, Arrive(batch, sync));
    ArrivalQueue(s.arrived, s.queue, s.finished, s.threads, w);
    assert Active(s') == Active(s);
    if Active(s).Some? {
      var n: nat :| IsPrefixGroup(s.queue, n, Active(s).value);
      assert s'.queue[..n] == s.queue[..n];
      assert IsPrefixGroup(s'.queue, n, Active(s).value);
    }
  }

  /** The first writers of the queue are answered and leave it. */
  lemma AnsweredQueue(arrived: seq<Writer>, queue: seq<Writer>, finished: seq<Group>, threads: map<nat, Thread>,
                      g: Group, after: map<nat, Thread>)
    requires QueueOk(arrived, queue, finished, threads)
    requires 0 < |g.writers| <= |queue| && g.writers == queue[..|g.writers|]
    requires after.Keys == threads.Keys
    requires forall w :: w in g.writers ==> w.id in after && after[w.id] == Answered(g.ok)
    requires forall id :: id in threads && (forall w :: w in g.writers ==> w.id != id) ==> after[id] == threads[id]
    ensures QueueOk(arrived, queue[|g.writers|..], finished + [g], after)
  {
    hide WritersOf;
    var n := |g.writers|;
    WritersOfOneMore(finished, g);
    QueueIds(arrived, queue, finished, threads);
    assert arrived == WritersOf(finished) + g.writers + queue[n..];
    forall i | n <= i < |queue|
      ensures queue[i].id in threads && threads[queue[i].id].Waiting?
              && after[queue[i].id].Waiting?
    {
      forall w | w in g.writers ensures w.id != queue[i].id {
        var j :| 0 <= j < n && g.writers[j] == w;
        assert queue[j] == w;
      }
    }
    forall h, w | h in finished && w in h.writers ensures w.id in after && after[w.id] == Answered(h.ok) {
      AnsweredIsBefore(arrived, queue, finished, threads, h, w);
      forall o | o in g.writers ensures o.id != w.id {
        var j :| 0 <= j < n && g.writers[j] == o;
        assert queue[j] == o;
      }
    }
  }

  lemma WritersOfOneMore(finished: seq<Group>, g: Group)
    ensures WritersOf(finished + [g]) == WritersOf(finished) + g.writers
  {
    assert (finished + [g])[..|finished|] == finished;
  }

  /** Ids in the queue follow those of the answered writers. */
  lemma QueueIds(arrived: seq<Writer>, queue: seq<Writer>, finished: seq<Group>, threads: map<nat, Thread>)
    requires QueueOk(arrived, queue, finished, threads)
    ensures forall i :: 0 <= i < |queue| ==> queue[i].id == |WritersOf(finished)| + i
  {
    hide WritersOf;
    forall i | 0 <= i < |queue| ensures queue[i].id == |WritersOf(finished)| + i {
      assert arrived[|WritersOf(finished)| + i] == queue[i];
    }
  }

  lemma {:induction false} MemberOfWriters(finished: seq<Group>, h: Group, w: Writer)
    requires h in finished && w in h.writers
    ensures w in WritersOf(finished)
  {
    var n := |finished| - 1;
    if h != finished[n] {
      assert h in finished[..n];
      MemberOfWriters(finished[..n], h, w);
    }
  }

  lemma AnsweredIsBefore(arrived: seq<Writer>, queue: seq<Writer>, finished: seq<Group>, threads: map<nat, Thread>,
                         h: Group, w: Writer)
    requires QueueOk(arrived, queue, finished, threads) && h in finished && w in h.writers
    ensures w.id < |WritersOf(finished)|
  {
    hide WritersOf;
    MemberOfWriters(finished, h, w);
    var i :| 0 <= i < |WritersOf(finished)| && WritersOf(finished)[i] == w;
    assert arrived[i] == w;
  }

  lemma OneMoreGroup(finished: seq<Group>, g: Group)
    ensures RecordsOf(finished + [g]) == RecordsOf(finished) + if g.logged.Some? then [g.logged.value] else []
    ensures Applied(finished + [g]) == Applied(finished) + if g.ok && g.logged.Some? then g.logged.value.ops else []
    ensures LoggedCount(finished + [g]) == LoggedCount(finished) + if g.logged.Some? then |g.logged.value.ops| else 0
  {
    assert (finished + [g])[..|finished|] == finished;
  }

  lemma SyncedOneMore(finished: seq<Group>, g: Group, synced: nat, later: nat)
    requires SyncedOk(finished, synced) && synced <= later
    requires g.ok && g.synced ==> |RecordsOf(finished + [g])| <= later
    ensures SyncedOk(finished + [g], later)
  {
    hide RecordsOf;
    var all := finished + [g];
    forall i | 0 <= i < |all| && all[i].ok && all[i].synced ensures |RecordsOf(all[..i + 1])| <= later {
      if i < |finished| {
        assert all[..i + 1] == finished[..i + 1];
      } else {
        assert all[..i + 1] == all;
      }
    }
  }

  lemma RangesOneMore(finished: seq<Group>, g: Group)
    requires RangesOk(finished) && (g.logged.Some? ==> g.logged.value.before == LoggedCount(finished))
    ensures RangesOk(finished + [g])
  {
    hide LoggedCount;
    var all := finished + [g];
    forall i | 0 <= i < |all| && all[i].logged.Some? ensures all[i].logged.value.before == LoggedCount(all[..i]) {
      assert i < |finished| ==> all[..i] == finished[..i];
      assert i == |finished| ==> all[..i] == finished;
    }
  }

  lemma NobodyActive(s: State)
    requires QueueOk(s.arrived, s.queue, s.finished, s.threads)
    ensures Active(s).Some? ==> s.queue != [] && Leads(s, s.queue[0].id)
    ensures Active(s).None? && s.queue != [] ==> s.threads[s.queue[0].id].Waiting?
  {
  }

  /** Popping a writer that leaves no record: an error, or a switch that was only asked for. */
  lemma PopKeeps(s: State, step: Step)
    requires Invariant(s) && (step.Refuse? || step.Force?) && Enabled(s, step)
    ensures Invariant(Next(s, step))
  {
    hide GroupOps, RecordsOf, Applied, LoggedCount, Numbered, WritersOf, QueueOk, SyncedOk;
    var s' := Next(s, step);
    var g := Group([s.queue[0]], None, false, step.Force?);
    QueueHead(s);
    AnsweredQueue(s.arrived, s.queue, s.finished, s.threads, g, s'.threads);
    OneMoreGroup(s.finished, g);
    SyncedOneMore(s.finished, g, s.synced, s.synced);
    RangesOneMore(s.finished, g);
    NobodyActive(s);
    NobodyActive(s');
    NextIsWaiting(s, s', 1);
    assert Applied(s'.finished) == Applied(s.finished);
  }

  lemma QueueHead(s: State)
    requires QueueOk(s.arrived, s.queue, s.finished, s.threads) && s.queue != []
    ensures s.queue[0].id in s.threads && forall i :: 0 < i < |s.queue| ==> s.queue[i].id != s.queue[0].id
  {
    hide WritersOf;
    QueueIds(s.arrived, s.queue, s.finished, s.threads);
  }

  /** After some writers left, the new head of the queue is waiting. */
  lemma NextIsWaiting(s: State, s': State, n: nat)
    requires QueueOk(s.arrived, s.queue, s.finished, s.threads)
             && QueueOk(s'.arrived, s'.queue, s'.finished, s'.threads)
    requires 0 < n <= |s.queue| && s'.queue == s.queue[n..]
    requires forall i :: n <= i < |s.queue| && s.queue[i].id in s.threads && s.queue[i].id in s'.threads
               ==> s'.threads[s.queue[i].id] == s.threads[s.queue[i].id]
    ensures Active(s').None?
  {
    hide WritersOf;
  }

  // -------------------------------------------------- the leader's own steps

  lemma LeadKeeps(s: State, id: nat, n: nat)
    requires Invariant(s) && Enabled(s, Lead(id, n))
    ensures Invariant(Next(s, Lead(id, n)))
  {
    hide GroupOps, RecordsOf, Applied, LoggedCount, Numbered, WritersOf, SyncedOk, RangesOk;
    QueueHead(s);
    NobodyActive(s);
    var s' := Next(s, Lead(id, n));
    LeaderThread(s.arrived, s.queue, s.finished, s.threads, s'.threads[id]);
    forall i | 0 < i < n && s.queue[i].sync ensures s.queue[0].sync { SyncRule(s.queue, n, i); }
    assert IsPrefixGroup(s.queue, n, s'.threads[id]);
  }

  /** Only the thread at the head of the queue changes. */
  lemma LeaderThread(arrived: seq<Writer>, queue: seq<Writer>, finished: seq<Group>, threads: map<nat, Thread>,
                     t: Thread)
    requires QueueOk(arrived, queue, finished, threads) && queue != [] && !t.Answered?
    ensures QueueOk(arrived, queue, finished, threads[queue[0].id := t])
  {
    hide WritersOf;
    QueueIds(arrived, queue, finished, threads);
    forall h, w | h in finished && w in h.writers ensures w.id != queue[0].id {
      AnsweredIsBefore(arrived, queue, finished, threads, h, w);
    }
  }

  /** Whoever leads is at the head of the queue. */
  lemma LeaderIsFirst(s: State, id: nat)
    requires QueueOk(s.arrived, s.queue, s.finished, s.threads) && Leads(s, id)
    ensures s.queue != [] && s.queue[0].id == id && Active(s) == Some(s.threads[id])
  {
    assert id < |s.arrived|;
    var k := |WritersOf(s.finished)|;
    if id < k {
      assert s.arrived[id] == WritersOf(s.finished)[id];
      var g := WriterOfGroup(s.finished, id);
    } else {
      assert s.arrived[id] == s.queue[id - k];
    }
  }

  lemma {:induction false} WriterOfGroup(finished: seq<Group>, i: nat) returns (g: Group)
    requires i < |WritersOf(finished)|
    ensures g in finished && WritersOf(finished)[i] in g.writers
  {
    var n := |finished| - 1;
    if i < |WritersOf(finished[..n])| {
      g := WriterOfGroup(finished[..n], i);
    } else {
      g := finished[n];
    }
  }

  lemma AppendKeeps(s: State, id: nat)
    requires Invariant(s) && Enabled(s, Append(id))
    ensures Invariant(Next(s, Append(id)))
  {
    hide GroupOps, RecordsOf, Applied, LoggedCount, WritersOf, SyncedOk, RangesOk;
    LeaderIsFirst(s, id);
    var s' := Next(s, Append(id));
    LeaderThread(s.arrived, s.queue, s.finished, s.threads, s'.threads[id]);
    var n: nat :| IsPrefixGroup(s.queue, n, s.threads[id]);
    assert IsPrefixGroup(s'.queue, n, s'.threads[id]);
  }

  lemma SyncKeeps(s: State, id: nat, ok: bool)
    requires Invariant(s) && Enabled(s, Sync(id, ok))
    ensures Invariant(Next(s, Sync(id, ok)))
  {
    hide GroupOps, RecordsOf, Applied, LoggedCount, WritersOf;
    LeaderIsFirst(s, id);
    var s' := Next(s, Sync(id, ok));
    LeaderThread(s.arrived, s.queue, s.finished, s.threads, s'.threads[id]);
    var n: nat :| IsPrefixGroup(s.queue, n, s.threads[id]);
    assert IsPrefixGroup(s'.queue, n, s'.threads[id]);
  }

  lemma NumberedOneMore(ops: seq<Db.Op>, i: nat, before: nat)
    requires i < |ops|
    ensures Numbered(ops[..i + 1], before) == Numbered(ops[..i], before) + [(before + i + 1, ops[i])]
  {
  }

  lemma InsertKeeps(s: State, id: nat)
    requires Invariant(s) && Enabled(s, Insert(id))
    ensures Invariant(Next(s, Insert(id)))
  {
    hide GroupOps, RecordsOf, Applied, LoggedCount, WritersOf, Numbered, SyncedOk, RangesOk;
    LeaderIsFirst(s, id);
    var s' := Next(s, Insert(id));
    LeaderThread(s.arrived, s.queue, s.finished, s.threads, s'.threads[id]);
    NumberedOneMore(s.threads[id].ops, s.threads[id].stage.done, s.lastSequence);
    var n: nat :| IsPrefixGroup(s.queue, n, s.threads[id]);
    assert IsPrefixGroup(s'.queue, n, s'.threads[id]);
  }

  lemma {:induction false} ThroughIs(queue: seq<Writer>, n: nat)
    requires 0 < n <= |queue| && forall i, j :: 0 <= i < j < |queue| ==> queue[i].id != queue[j].id
    ensures Through(queue, queue[n - 1].id) == n
  {
    if n > 1 { ThroughIs(queue[1..], n - 1); }
  }

  lemma NumberedJoins(a: seq<Db.Op>, b: seq<Db.Op>)
    ensures Numbered(a + b, 0) == Numbered(a, 0) + Numbered(b, |a|)
  {
  }

  lemma PublishKeeps(s: State, id: nat)
    requires Invariant(s) && Enabled(s, Publish(id))
    ensures Invariant(Next(s, Publish(id)))
  {
    hide GroupOps, RecordsOf, Applied, LoggedCount, WritersOf, Numbered, SyncedOk, QueueOk, RangesOk, Through, Answer,
         GroupOk;
    LeaderIsFirst(s, id);
    var t, s' := s.threads[id], Next(s, Publish(id));
    var n: nat :| IsPrefixGroup(s.queue, n, t);
    GroupPopped(s, t, n);
    var g := s'.finished[|s.finished|];
    assert g.writers == s.queue[..n];
    AnswerIs(s.threads, g.writers, g.ok);
    assert forall w :: w in g.writers ==> w.id in s.threads by { WritersHaveThreads(s, n); }
    AnsweredQueue(s.arrived, s.queue, s.finished, s.threads, g, s'.threads);
    OneMoreGroup(s.finished, g);
    SyncedOneMore(s.finished, g, s.synced, s.synced);
    RangesOneMore(s.finished, g);
    NumberedJoins(Applied(s.finished), t.ops);
    QueueIdsDiffer(s);
    NextIsWaiting(s, s', n);
    assert t.ops[..|t.ops|] == t.ops;
    assert Applied(s.finished) + [] == Applied(s.finished);
    PublishedGroup(s, n, t, g);
  }

  lemma PublishedGroup(s: State, n: nat, t: Thread, g: Group)
    requires t.Leading? && IsPrefixGroup(s.queue, n, t) && g.writers == s.queue[..n]
    requires g.logged == Some(Record(s.lastSequence, t.ops)) && g.synced == s.queue[0].sync
    ensures GroupOk(g)
  {
    hide GroupOps;
    forall w | w in g.writers && w.sync ensures g.synced {
      var i :| 0 <= i < n && s.queue[i] == w;
    }
  }

  lemma QueueIdsDiffer(s: State)
    requires QueueOk(s.arrived, s.queue, s.finished, s.threads)
    ensures forall i, j :: 0 <= i < j < |s.queue| ==> s.queue[i].id != s.queue[j].id
  {
    hide WritersOf;
    QueueIds(s.arrived, s.queue, s.finished, s.threads);
  }

  lemma GroupPopped(s: State, t: Thread, n: nat)
    requires QueueOk(s.arrived, s.queue, s.finished, s.threads) && t.Leading? && IsPrefixGroup(s.queue, n, t)
    ensures Through(s.queue, t.last) == n
  {
    hide GroupOps, WritersOf;
    QueueIdsDiffer(s);
    ThroughIs(s.queue, n);
  }

  lemma WritersHaveThreads(s: State, n: nat)
    requires QueueOk(s.arrived, s.queue, s.finished, s.threads) && n <= |s.queue|
    ensures forall w :: w in s.queue[..n] ==> w.id in s.threads
  {
    hide WritersOf;
    forall w | w in s.queue[..n] ensures w.id in s.threads {
      var i :| 0 <= i < n && s.queue[i] == w;
    }
  }

  lemma AnswerIs(threads: map<nat, Thread>, writers: seq<Writer>, ok: bool)
    ensures forall w :: w in writers ==>
            w.id in Answer(threads, writers, ok) && Answer(threads, writers, ok)[w.id] == Answered(ok)
    ensures forall id :: id in threads && (forall w :: w in writers ==> w.id != id) ==>
              id in Answer(threads, writers, ok) && Answer(threads, writers, ok)[id] == threads[id]
    ensures (forall w :: w in writers ==> w.id in threads) ==> Answer(threads, writers, ok).Keys == threads.Keys
  {
    assert forall w :: w in writers ==> w.id in map w | w in writers :: w.id := Answered(ok);
  }

  // -------------------------------------------------------------- whole runs

  lemma StepKeepsInvariant(s: State, step: Step)
    requires Invariant(s) && Enabled(s, step)
    ensures Invariant(Next(s, step))
  {
    hide Invariant, Next;
    match step
    case Arrive(batch, sync) => ArriveKeeps(s, batch, sync);
    case Refuse(id) => PopKeeps(s, step);
    case Force(id) => PopKeeps(s, step);
    case Lead(id, n) => LeadKeeps(s, id, n);
    case Append(id) => AppendKeeps(s, id);
    case Sync(id, ok) => SyncKeeps(s, id, ok);
    case Insert(id) => InsertKeeps(s, id);
    case Publish(id) => PublishKeeps(s, id);
  }

  ghost predicate IsRun(states: seq<State>, steps: seq<Step>) {
    && |states| == |steps| + 1
    && Init(states[0])
    && forall i :: 0 <= i < |steps| ==> Enabled(states[i], steps[i]) && states[i + 1] == Next(states[i], steps[i])
  }

  lemma {:induction false} RunKeepsInvariant(states: seq<State>, steps: seq<Step>, i: nat)
    requires IsRun(states, steps) && i < |states|
    ensures Invariant(states[i])
  {
    hide Invariant, Enabled, Next;
    if i == 0 {
      InitOk(states[0]);
    } else {
      RunKeepsInvariant(states, steps, i - 1);
      StepKeepsInvariant(states[i - 1], steps[i - 1]);
    }
  }

  /** At most one writer is in the unlocked section. */
  lemma OneAtATime(s: State, a: nat, b: nat)
    requires Invariant(s) && Leads(s, a) && Leads(s, b)
    ensures a == b
  {
    hide WritersOf, RecordsOf, Applied, LoggedCount, Numbered, SyncedOk, GroupOps;
    LeaderIsFirst(s, a);
    LeaderIsFirst(s, b);
  }

  /** Every writer is in exactly one answered group or in the queue, in the order of arrival,
      and an answered writer has the status of its group. */
  lemma EachInOneGroup(s: State, i: nat)
    requires Invariant(s) && i < |s.arrived|
    ensures s.arrived == WritersOf(s.finished) + s.queue
    ensures i in s.threads
    ensures s.threads[i].Answered? <==> i < |WritersOf(s.finished)|
    ensures s.threads[i].Answered? ==>
              exists g :: g in s.finished && s.arrived[i] in g.writers && s.threads[i] == Answered(g.ok)
  {
    hide WritersOf, RecordsOf, Applied, LoggedCount, Numbered, SyncedOk, GroupOps;
    var k := |WritersOf(s.finished)|;
    if i < k {
      assert s.arrived[i] == WritersOf(s.finished)[i];
      var g := WriterOfGroup(s.finished, i);
      assert s.arrived[i].id == i;
    } else {
      assert s.arrived[i] == s.queue[i - k];
    }
  }

  /** The operations of the records, in order. */
  function LogOps(records: seq<Record>): seq<Db.Op> {
    if records == [] then [] else LogOps(records[..|records| - 1]) + records[|records| - 1].ops
  }

  /** Each record starts right after the one before it. */
  ghost predicate Consecutive(records: seq<Record>) {
    forall i :: 0 <= i < |records| ==> records[i].before == |LogOps(records[..i])|
  }

  /** The writers whose batches were logged, group by group. */
  function LoggedWriters(groups: seq<Group>): seq<Writer> {
    if groups == [] then []
    else
      var g := groups[|groups| - 1];
      LoggedWriters(groups[..|groups| - 1]) + if g.logged.Some? then g.writers else []
  }

  lemma {:induction false} GroupOpsOfBoth(a: seq<Writer>, b: seq<Writer>)
    ensures GroupOps(a + b) == GroupOps(a) + GroupOps(b)
  {
    hide GroupOps;
    EmptyGroup();
    if b == [] {
      assert a + b == a;
    } else {
      var n := |b| - 1;
      GroupOpsOfBoth(a, b[..n]);
      assert a + b == (a + b[..n]) + [b[n]] && b == b[..n] + [b[n]];
      GroupOpsOneMore(a + b[..n], b[n]);
      GroupOpsOneMore(b[..n], b[n]);
    }
  }

  lemma GroupOpsOneMore(a: seq<Writer>, w: Writer)
    ensures GroupOps(a + [w]) == GroupOps(a) + OpsOf(w)
  {
    assert (a + [w])[..|a|] == a;
  }

  lemma LogOpsOneMore(records: seq<Record>, r: Record)
    ensures LogOps(records + [r]) == LogOps(records) + r.ops
  {
    assert (records + [r])[..|records|] == records;
  }

  /** Every logged batch is in the log exactly once, in queue order. */
  lemma {:induction false} LoggedOnce(groups: seq<Group>)
    requires forall g :: g in groups ==> GroupOk(g)
    ensures LogOps(RecordsOf(groups)) == GroupOps(LoggedWriters(groups))
            && LoggedCount(groups) == |LogOps(RecordsOf(groups))|
  {
    hide GroupOps, LogOps;
    EmptyGroup();
    if groups != [] {
      var n := |groups| - 1;
      var g := groups[n];
      assert g in groups && GroupOk(g);
      LoggedOnce(groups[..n]);
      if g.logged.Some? {
        LogOpsOneMore(RecordsOf(groups[..n]), g.logged.value);
        GroupOpsOfBoth(LoggedWriters(groups[..n]), g.writers);
      } else {
        assert RecordsOf(groups) == RecordsOf(groups[..n]);
        assert LoggedWriters(groups) == LoggedWriters(groups[..n]);
      }
    }
  }

  /** The sequence ranges of the records follow each other without gap or overlap. */
  lemma {:induction false} RangesFollow(groups: seq<Group>)
    requires RangesOk(groups) && forall g :: g in groups ==> GroupOk(g)
    ensures Consecutive(RecordsOf(groups))
  {
    hide GroupOps, LogOps, LoggedCount;
    if groups != [] {
      var n := |groups| - 1;
      var g := groups[n];
      assert forall i :: 0 <= i < n ==> groups[..n][..i] == groups[..i];
      RangesFollow(groups[..n]);
      LoggedOnce(groups[..n]);
      var before := RecordsOf(groups[..n]);
      if g.logged.Some? {
        assert RecordsOf(groups) == before + [g.logged.value];
        forall i | 0 <= i <= |before| ensures (before + [g.logged.value])[..i] == before[..i] {
        }
        assert before[..|before|] == before;
      } else {
        assert RecordsOf(groups) == before;
      }
    }
  }

  lemma EmptyGroup()
    ensures GroupOps([]) == [] && LogOps([]) == []
  {
  }

  /** A reader at LastSequence sees exactly the groups that succeeded, each of them whole; what
      a leader is inserting is above LastSequence. */
  lemma ReadersSeeWholeGroups(s: State, i: nat)
    requires Invariant(s) && i < |s.mem|
    ensures |Applied(s.finished)| <= |s.mem| && s.mem[..|Applied(s.finished)|] == Numbered(Applied(s.finished), 0)
    ensures s.mem[i].0 <= s.lastSequence <==> i < |Applied(s.finished)|
  {
    hide WritersOf, RecordsOf, Applied, LoggedCount, SyncedOk, GroupOps, QueueOk;
  }

  /** A sync write that succeeded was on disk before it was answered. */
  lemma SyncedWritesAreDurable(s: State, i: nat, w: Writer)
    requires Invariant(s) && i < |s.finished| && w in s.finished[i].writers && w.sync
    requires s.finished[i].ok && s.finished[i].logged.Some?
    ensures |RecordsOf(s.finished[..i + 1])| <= s.synced <= |s.log|
    ensures RecordsOf(s.finished[..i + 1]) <= s.log
  {
    hide WritersOf, Applied, LoggedCount, GroupOps, QueueOk, Numbered;
    assert GroupOk(s.finished[i]);
    RecordsPrefix(s.finished, i + 1);
  }

  lemma {:induction false} RecordsPrefix(groups: seq<Group>, n: nat)
    requires n <= |groups|
    ensures RecordsOf(groups[..n]) <= RecordsOf(groups)
  {
    if n < |groups| {
      var m := |groups| - 1;
      RecordsPrefix(groups[..m], n);
      assert groups[..m][..n] == groups[..n];
    } else {
      assert groups[..n] == groups;
    }
  }
}
