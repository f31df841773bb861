/** Reads and scans that go on while the database goes on: what was pinned at one moment of a
    run still shows the map of its snapshot at every later moment, until a crash
    (db/db_impl.cc:1045-1145). */
module PinnedReads {
  import opened DbFormat
  import opened Versions
  import InputSelection
  import VersionBuilder
  import Db = Engine
  import opened Durability
  import opened DurableReads
  import opened DbIter

  /** The database stays up from the i-th node of the run to the j-th. */
  ghost predicate StaysUp(nodes: seq<Node>, i: nat, j: nat) {
    i <= j < |nodes| && forall k :: i <= k <= j ==> nodes[k].Up?
  }

  /** Whether the memtable of the i-th node is still the one that is written to. */
  predicate StillWritten(acts: seq<Act>, i: nat, j: nat)
    requires i <= j <= |acts|
  {
    forall k :: i <= k < j ==> !acts[k].NewLog?
  }

  /** What the memtable that the i-th node writes to holds at the j-th node. */
  ghost function MemAt(nodes: seq<Node>, acts: seq<Act>, i: nat, j: nat): seq<Entry>
    requires |nodes| == |acts| + 1 && StaysUp(nodes, i, j)
  {
    if i == j then nodes[i].r.db.mem
    else if acts[j - 1].Commit? && StillWritten(acts, i, j - 1) then nodes[j].r.db.mem
    else MemAt(nodes, acts, i, j - 1)
  }

  /** What a reader that began at the i-th node sees at the j-th: the memtables and the version of
      the i-th node, the memtable with what has been written to it since. */
  ghost function Seen(nodes: seq<Node>, acts: seq<Act>, i: nat, j: nat): iset<Entry>
    requires |nodes| == |acts| + 1 && StaysUp(nodes, i, j) && |nodes[i].r.db.version.levels| == NUM_LEVELS
  {
    Everything(MemAt(nodes, acts, i, j), nodes[i].r.db.imm, nodes[i].r.db.version)
  }

  // ------------------------------------------------------------ what one step does

  /** Only a commit writes to the memtable, and only a switch replaces it. */
  lemma MemOfStep(r: Running, act: Act)
    requires RunningInvariant(r) && RunningEnabled(r, act) && RunningNext(r, act).Up?
    ensures |r.db.version.levels| == NUM_LEVELS && r.db.ops <= RunningNext(r, act).r.db.ops
    ensures !act.Commit? && !act.NewLog? ==> RunningNext(r, act).r.db.mem == r.db.mem
    ensures act.Commit? ==> r.inflight.Some?
    ensures act.Commit? ==>
              && SetOf(RunningNext(r, act).r.db.mem) == SetOf(r.db.mem) + Db.BatchEntries(r.inflight.value, |r.db.ops|)
              && RunningNext(r, act).r.db.ops == r.db.ops + r.inflight.value
  {
    hide Db.Invariant, PartsOk, LogFileOk, OutsOk, HeldOk, DiskOk, Db.BatchEntries, InputSelection.ValidPick,
         InputSelection.Unmet, EditReady, VersionBuilder.Install, Db.OutputFiles, Db.KeptBy, Db.Above;
    OpsOfStep(r, act);
  }

  /** What was there stays, and what is added is newer than everything that was written before. */
  ghost predicate GrownFrom(mem: seq<Entry>, more: seq<Entry>, n: nat, ops: seq<Db.Op>) {
    && (forall e :: e in mem ==> e in more)
    && forall e :: e in more ==> e in mem || (e in Db.History(ops) && e.key.sequence > n)
  }

  lemma BatchIsLater(ops: seq<Db.Op>, batch: seq<Db.Op>, n: nat)
    requires n <= |ops|
    ensures forall e :: e in Db.BatchEntries(batch, |ops|) ==> e in Db.History(ops + batch) && e.key.sequence > n
    ensures forall e :: e in Db.History(ops) ==> e in Db.History(ops + batch)
  {
    Db.HistoryGrows(ops, batch);
  }

  lemma HistoryOfPrefix(ops: seq<Db.Op>, all: seq<Db.Op>)
    requires ops <= all
    ensures Db.History(ops) <= Db.History(all)
  {
    assert all == ops + all[|ops|..];
    Db.HistoryGrows(ops, all[|ops|..]);
  }

  lemma NothingGrown(mem: seq<Entry>, n: nat, ops: seq<Db.Op>)
    ensures GrownFrom(mem, mem, n, ops)
  {
  }

  lemma GrownLater(mem: seq<Entry>, more: seq<Entry>, n: nat, ops: seq<Db.Op>, later: seq<Db.Op>)
    requires GrownFrom(mem, more, n, ops) && ops <= later
    ensures GrownFrom(mem, more, n, later)
  {
    hide Db.History;
    HistoryOfPrefix(ops, later);
  }

  lemma {:induction false} MemGrows(nodes: seq<Node>, acts: seq<Act>, i: nat, j: nat)
    requires IsRun(nodes, acts) && StaysUp(nodes, i, j)
    ensures Ops(nodes[i]) <= Ops(nodes[j])
    ensures GrownFrom(nodes[i].r.db.mem, MemAt(nodes, acts, i, j), |Ops(nodes[i])|, Ops(nodes[j]))
    ensures StillWritten(acts, i, j) ==> MemAt(nodes, acts, i, j) == nodes[j].r.db.mem
    decreases j
  {
    hide RunningInvariant, RunningEnabled, RunningNext, Db.History, Db.BatchEntries, GrownFrom;
    if i == j {
      NothingGrown(nodes[i].r.db.mem, |Ops(nodes[i])|, Ops(nodes[i]));
    } else {
      var r := nodes[j - 1].r;
      MemGrows(nodes, acts, i, j - 1);
      RunKeepsInvariant(nodes, acts, j - 1);
      assert nodes[j] == Durability.Next(nodes[j - 1], acts[j - 1]) == RunningNext(r, acts[j - 1]);
      MemOfStep(r, acts[j - 1]);
      GrownLater(nodes[i].r.db.mem, MemAt(nodes, acts, i, j - 1), |Ops(nodes[i])|, Ops(nodes[j - 1]), Ops(nodes[j]));
      if acts[j - 1].Commit? && StillWritten(acts, i, j - 1) {
        CommittedMem(nodes[i].r.db.mem, r.db.mem, nodes[j].r.db.mem, r.inflight.value, r.db.ops, |Ops(nodes[i])|);
      }
    }
  }

  lemma CommittedMem(mem: seq<Entry>, was: seq<Entry>, now: seq<Entry>, batch: seq<Db.Op>, ops: seq<Db.Op>, n: nat)
    requires GrownFrom(mem, was, n, ops) && n <= |ops| && SetOf(now) == SetOf(was) + Db.BatchEntries(batch, |ops|)
    ensures GrownFrom(mem, now, n, ops + batch)
  {
    hide Db.History, Db.BatchEntries;
    BatchIsLater(ops, batch, n);
    forall e | e in now ensures e in was || e in Db.BatchEntries(batch, |ops|) {
      assert e in SetOf(now);
    }
    forall e | e in was ensures e in now {
      assert e in SetOf(was);
    }
  }

  // ------------------------------------------------------------------------ reads

  /** Newer entries do not matter to a read. */
  lemma NewerIsInvisible(es: iset<Entry>, more: iset<Entry>, user: UserKey, n: nat, q: nat)
    requires Unambiguous(es) && Unambiguous(more) && es <= more && q <= n
    requires forall e :: e in more && e !in es ==> e.key.sequence > n
    ensures Read(more, user, q) == Read(es, user, q)
  {
    Db.SameNewest(more, es, user, q, q);
  }

  lemma SeenGrows(db: Db.State, mem: seq<Entry>, ops: seq<Db.Op>)
    requires Db.Invariant(db) && db.ops <= ops && GrownFrom(db.mem, mem, |db.ops|, ops)
    ensures db.Data() <= Everything(mem, db.imm, db.version) && Unambiguous(Everything(mem, db.imm, db.version))
    ensures forall e :: e in Everything(mem, db.imm, db.version) && e !in db.Data() ==> e.key.sequence > |db.ops|
  {
    hide Contents, Db.History;
    DataWasWritten(db);
    HistoryOfPrefix(db.ops, ops);
    Db.HistoryUnambiguous(ops);
    forall e | e in Everything(mem, db.imm, db.version) ensures e in Db.History(ops) {
      if e in mem && e in db.mem { assert e in db.Data(); }
      if e !in mem { assert e in db.Data(); }
    }
  }

  /** A read that began at a live snapshot, or at present, shows at every later moment what the
      map of its snapshot holds, whatever compactions finish meanwhile; and as long as its version
      is pinned, all tables of that version are on disk. */
  lemma PinnedRead(nodes: seq<Node>, acts: seq<Act>, i: nat, j: nat, q: nat, user: UserKey)
    requires IsRun(nodes, acts) && StaysUp(nodes, i, j) && NodeReadsRight(nodes[i])
    requires q in nodes[i].r.db.snapshots || q == |Ops(nodes[i])|
    ensures |nodes[i].r.db.version.levels| == NUM_LEVELS && q <= |Ops(nodes[j])|
    ensures Read(Seen(nodes, acts, i, j), user, q) == Db.Find(Db.Replay(Ops(nodes[j])[..q]), user)
    ensures nodes[i].r.db.version in nodes[j].r.pinned ==> Stored(nodes[j].r.disk.tables, nodes[j].r.next,
            nodes[i].r.db.version)
  {
    hide Db.Invariant, Stored, Db.Find, Db.Replay, Db.History, MemAt, GrownFrom, Contents, PartsOk, JobOk, OutsOk,
         LogFileOk, DiskOk;
    RunKeepsInvariant(nodes, acts, i);
    RunKeepsInvariant(nodes, acts, j);
    MemGrows(nodes, acts, i, j);
    var db := nodes[i].r.db;
    SnapshotBounds(db, q);
    SeenGrows(db, MemAt(nodes, acts, i, j), Ops(nodes[j]));
    Db.DataUnambiguous(db) by { StoredData(db); }
    NewerIsInvisible(db.Data(), Seen(nodes, acts, i, j), user, |db.ops|, q);
    Db.HistoryIsReplay(db.ops, user, q);
    assert Ops(nodes[j])[..q] == db.ops[..q];
    PinnedIsStored(nodes[j].r, db.version);
  }

  lemma StoredData(db: Db.State)
    requires Db.Invariant(db)
    ensures |db.version.levels| == NUM_LEVELS && Db.DataOk(db)
  {
  }

  lemma PinnedIsStored(r: Running, v: Version)
    requires RunningInvariant(r)
    ensures v in r.pinned ==> Stored(r.disk.tables, r.next, v)
  {
    hide Stored;
  }

  /** A scan that began there: at every later moment, what the merging iterator yields then is a
      proper source for the iterator, and its live keys are those of the snapshot's map. */
  lemma PinnedScan(nodes: seq<Node>, acts: seq<Act>, i: nat, j: nat, q: nat, es: seq<Entry>)
    requires IsRun(nodes, acts) && StaysUp(nodes, i, j) && NodeReadsRight(nodes[i])
    requires q in nodes[i].r.db.snapshots || q == |Ops(nodes[i])|
    requires |nodes[i].r.db.version.levels| == NUM_LEVELS && Sorted(es) && SetOf(es) == Seen(nodes, acts, i, j)
    ensures Source(es) && q <= |Ops(nodes[j])|
    ensures forall user :: user in LiveKeys(es, q) <==> user in Db.Replay(Ops(nodes[j])[..q])
    ensures forall user :: Read(SetOf(es), user, q) == Db.Find(Db.Replay(Ops(nodes[j])[..q]), user)
  {
    hide Db.Invariant, Db.Replay, Db.History, MemAt, GrownFrom, Contents, Seen, NodeReadsRight;
    RunKeepsInvariant(nodes, acts, i);
    MemGrows(nodes, acts, i, j);
    SeenIsUnambiguous(nodes, acts, i, j);
    PinnedRead(nodes, acts, i, j, q, 0);
    forall user ensures Read(SetOf(es), user, q) == Db.Find(Db.Replay(Ops(nodes[j])[..q]), user)
                 ensures user in LiveKeys(es, q) <==> user in Db.Replay(Ops(nodes[j])[..q])
    {
      PinnedRead(nodes, acts, i, j, q, user);
    }
  }

  lemma SeenIsUnambiguous(nodes: seq<Node>, acts: seq<Act>, i: nat, j: nat)
    requires |nodes| == |acts| + 1 && StaysUp(nodes, i, j) && RunningInvariant(nodes[i].r)
    requires Ops(nodes[i]) <= Ops(nodes[j])
    requires GrownFrom(nodes[i].r.db.mem, MemAt(nodes, acts, i, j), |Ops(nodes[i])|, Ops(nodes[j]))
    ensures |nodes[i].r.db.version.levels| == NUM_LEVELS && Unambiguous(Seen(nodes, acts, i, j))
  {
    hide Db.Invariant, MemAt, GrownFrom;
    SeenGrows(nodes[i].r.db, MemAt(nodes, acts, i, j), Ops(nodes[j]));
  }
}
