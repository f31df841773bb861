/** What an iterator over a running database enumerates (db/db_impl.cc:1045-1083,
    db/db_iter.cc). */
module Scans {
  import opened DbFormat
  import opened Versions
  import Db = Engine
  import opened DbIter

  /** `es` is what the merging iterator over the memtables and all tables yields. */
  ghost predicate MergedView(s: Db.State, es: seq<Entry>)
    requires |s.version.levels| == NUM_LEVELS
  {
    Sorted(es) && SetOf(es) == s.Data()
  }

  /** After any safe run, an iterator at a live snapshot walks over exactly the keys of the map
      that the operations up to the snapshot built, and shows the map's values. */
  lemma IteratorWalksTheMap(states: seq<Db.State>, steps: seq<Db.Step>, n: nat, q: nat, es: seq<Entry>)
    requires Db.IsSafeRun(states, steps) && n < |states|
    requires |states[n].version.levels| == NUM_LEVELS && MergedView(states[n], es)
    requires q in states[n].snapshots || q == |states[n].ops|
    ensures Source(es) && q <= |states[n].ops|
    ensures forall user :: user in LiveKeys(es, q) <==> user in Db.Replay(states[n].ops[..q])
    ensures forall user :: Read(SetOf(es), user, q) == Db.Find(Db.Replay(states[n].ops[..q]), user)
  {
    Db.RunKeepsInvariant(states, steps, n);
    Db.DataUnambiguous(states[n]);
    LiveIsUpToNow(states, steps, n, q);
    forall user ensures Read(SetOf(es), user, q) == Db.Find(Db.Replay(states[n].ops[..q]), user)
                 ensures user in LiveKeys(es, q) <==> user in Db.Replay(states[n].ops[..q])
    {
      Db.SnapshotsShowTheirMap(states, steps, n, q, user);
    }
  }

  lemma LiveIsUpToNow(states: seq<Db.State>, steps: seq<Db.Step>, n: nat, q: nat)
    requires Db.IsSafeRun(states, steps) && n < |states|
    requires q in states[n].snapshots || q == |states[n].ops|
    ensures q <= |states[n].ops|
  {
    Db.SnapshotsShowTheirMap(states, steps, n, q, 0);
  }
}
