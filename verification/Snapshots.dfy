/** The circular, doubly linked list of snapshots (db/snapshot.h). */
module Snapshots {
  class SnapshotImpl {
    const sequenceNumber: nat
    var prev: SnapshotImpl
    var next: SnapshotImpl

    constructor Alone(sequenceNumber: nat)
      ensures this.sequenceNumber == sequenceNumber && prev == this && next == this
    {
      this.sequenceNumber := sequenceNumber;
      prev, next := this, this;
    }
  }

  /** What follows and what precedes the i-th node of a ring. */
  ghost predicate NextIs(ring: seq<SnapshotImpl>, i: nat)
    requires i < |ring|
    reads ring
  {
    ring[i].next == if i + 1 < |ring| then ring[i + 1] else ring[0]
  }

  ghost predicate PrevIs(ring: seq<SnapshotImpl>, i: nat)
    requires i < |ring|
    reads ring
  {
    ring[i].prev == if i > 0 then ring[i - 1] else ring[|ring| - 1]
  }

  ghost predicate RingOk(ring: seq<SnapshotImpl>)
    reads ring
  {
    && ring != []
    && (forall i, j :: 0 <= i < j < |ring| ==> ring[i] != ring[j])
    && forall i :: 0 <= i < |ring| ==> NextIs(ring, i) && PrevIs(ring, i)
  }

  function Without<T>(s: seq<T>, k: nat): (r: seq<T>)
    requires k < |s|
    ensures |r| == |s| - 1 && forall i :: 0 <= i < |r| ==> r[i] == s[if i < k then i else i + 1]
  {
    s[..k] + s[k + 1..]
  }

  lemma TailWithout<T>(s: seq<T>, k: nat)
    requires 0 < k < |s|
    ensures s[1..][k - 1] == s[k] && Without(s, k)[1..] == Without(s[1..], k - 1)
    ensures Without(s, k)[0] == s[0] && forall x :: x in Without(s, k) ==> x in s
  {
  }

  /** A new node between the last one and the head. */
  twostate lemma AppendedIsOk(ring: seq<SnapshotImpl>, new node: SnapshotImpl)
    requires old(RingOk(ring)) && node !in ring
    requires node.next == ring[0] && node.prev == ring[|ring| - 1]
    requires forall o :: o in ring ==> o.next == if o == ring[|ring| - 1] then node else old(o.next)
    requires forall o :: o in ring ==> o.prev == if o == ring[0] then node else old(o.prev)
    ensures RingOk(ring + [node])
  {
    var n, after := |ring|, ring + [node];
    forall i | 0 <= i <= n ensures NextIs(after, i) {
      if i < n { assert old(NextIs(ring, i)) && ring[i] in ring && (i < n - 1 ==> ring[i] != ring[n - 1]); }
    }
    forall i | 0 <= i <= n ensures PrevIs(after, i) {
      if i < n { assert old(PrevIs(ring, i)) && ring[i] in ring && (i > 0 ==> ring[i] != ring[0]); }
    }
  }

  lemma NeighboursOf(ring: seq<SnapshotImpl>, k: nat)
    requires RingOk(ring) && 0 < k < |ring|
    ensures ring[k].prev == ring[k - 1] && ring[k].next == (if k + 1 < |ring| then ring[k + 1] else ring[0])
    ensures ring[k].prev != ring[k] && ring[k].next != ring[k] && ring[k].next in ring
  {
    assert NextIs(ring, k) && PrevIs(ring, k);
  }

  /** Snapshots were taken in order. */
  ghost predicate Ascending(ring: seq<SnapshotImpl>) {
    forall i, j :: 0 < i < j < |ring| ==> ring[i].sequenceNumber <= ring[j].sequenceNumber
  }

  lemma StillAscending(ring: seq<SnapshotImpl>, k: nat)
    requires Ascending(ring) && 0 < k < |ring|
    ensures Ascending(Without(ring, k))
  {
    hide Without;
  }

  class SnapshotList {
    const head: SnapshotImpl
    /** The ring, from the dummy head on: oldest to newest. */
    ghost var ring: seq<SnapshotImpl>

    ghost predicate Valid()
      reads this, ring
    {
      ring != [] && ring[0] == head && RingOk(ring)
    }

    /** The snapshots in the list, oldest first. */
    ghost function Contents(): (r: seq<SnapshotImpl>)
      reads this
      requires ring != []
    {
      ring[1..]
    }

    constructor ()
      ensures Valid() && Ascending(ring) && Contents() == [] && fresh(head)
    {
      head := new SnapshotImpl.Alone(0);
      ring := [head];
    }

    method Empty() returns (empty: bool)
      requires Valid()
      ensures empty <==> Contents() == []
    {
      assert NextIs(ring, 0) && (|ring| > 1 ==> ring[0] != ring[1]);
      empty := head.next == head;
    }

    method Oldest() returns (snapshot: SnapshotImpl)
      requires Valid() && Ascending(ring) && Contents() != []
      ensures snapshot in Contents()
      ensures forall s :: s in Contents() ==> snapshot.sequenceNumber <= s.sequenceNumber
    {
      assert NextIs(ring, 0) && ring[1] == Contents()[0];
      snapshot := head.next;
    }

    method Newest() returns (snapshot: SnapshotImpl)
      requires Valid() && Ascending(ring) && Contents() != []
      ensures snapshot == Contents()[|Contents()| - 1]
      ensures forall s :: s in Contents() ==> s.sequenceNumber <= snapshot.sequenceNumber
    {
      assert PrevIs(ring, 0) && ring[|ring| - 1] == Contents()[|ring| - 2];
      snapshot := head.prev;
    }

    /** Appends a snapshot that is not older than the newest one. */
    method New(sequenceNumber: nat) returns (snapshot: SnapshotImpl)
      requires Valid() && Ascending(ring)
      requires forall s :: s in Contents() ==> s.sequenceNumber <= sequenceNumber
      modifies this, ring
      ensures Valid() && Ascending(ring) && fresh(snapshot) && snapshot.sequenceNumber == sequenceNumber
      ensures Contents() == old(Contents()) + [snapshot]
    {
      ghost var was, n := ring, |ring|;
      assert forall i :: 0 < i < n ==> was[i].sequenceNumber <= sequenceNumber by {
        assert forall i :: 0 < i < n ==> was[i] == Contents()[i - 1];
      }
      assert PrevIs(was, 0) && NextIs(was, n - 1);
      snapshot := new SnapshotImpl.Alone(sequenceNumber);
      snapshot.next := head;
      snapshot.prev := head.prev;
      snapshot.prev.next := snapshot;
      snapshot.next.prev := snapshot;
      ring := ring + [snapshot];
      AppendedIsOk(was, snapshot);
      assert ring[1..] == was[1..] + [snapshot];
    }

    /** Takes one snapshot out, wherever it stands. */
    method Delete(snapshot: SnapshotImpl, ghost i: nat)
      requires Valid() && Ascending(ring) && i < |Contents()| && Contents()[i] == snapshot
      modifies this, ring
      ensures Valid() && Ascending(ring)
      ensures Contents() == old(Without(Contents(), i))
    {
      hide RingOk, Without, Ascending;
      ghost var was, k := ring, i + 1;
      TailWithout(was, k);
      StillAscending(was, k);
      Unlink(snapshot, was, k);
      ring := Without(was, k);
    }

    /** The two stores that take a node out of the ring. */
    static method Unlink(node: SnapshotImpl, ghost ring: seq<SnapshotImpl>, ghost k: nat)
      requires RingOk(ring) && 0 < k < |ring| && ring[k] == node
      modifies ring
      ensures RingOk(Without(ring, k))
    {
      hide Without;
      ghost var after := Without(ring, k);
      assert NextIs(ring, k) && PrevIs(ring, k);
      node.prev.next := node.next;
      node.next.prev := node.prev;
      forall i | 0 <= i < |after| ensures NextIs(after, i) && PrevIs(after, i) {
        var m := if i < k then i else i + 1;
        assert old(NextIs(ring, m) && PrevIs(ring, m)) && after[i] == ring[m];
      }
    }
  }

  /** The smallest snapshot that a compaction must respect. */
  method SmallestSnapshot(snapshots: SnapshotList, lastSequence: nat) returns (smallest: nat)
    requires snapshots.Valid() && Ascending(snapshots.ring)
    requires forall s :: s in snapshots.Contents() ==> s.sequenceNumber <= lastSequence
    ensures smallest <= lastSequence
    ensures forall s :: s in snapshots.Contents() ==> smallest <= s.sequenceNumber
    ensures smallest == lastSequence || exists s :: s in snapshots.Contents() && s.sequenceNumber == smallest
  {
    var empty := snapshots.Empty();
    if empty {
      return lastSequence;
    }
    var oldest := snapshots.Oldest();
    smallest := oldest.sequenceNumber;
  }
}
