/** What the two drop rules of a compaction do to reads: exactly when every read at or above
    the smallest snapshot keeps its answer (db/db_impl.cc:946-960). */
module CompactionMeaning {
  import opened DbFormat
  import opened Versions
  import opened Compactions

  /** The data around one compaction: `above` is newer than the inputs for every user key
      (memtables, smaller levels, files left behind in `level`), `beside` is what stays
      behind in level + 1, `below` is what the deeper levels hold. */
  datatype Scene = Scene(input: seq<Entry>, above: iset<Entry>, beside: iset<Entry>, below: iset<Entry>,
                         v: Version, level: nat)
  {
    ghost predicate Valid() {
      && |v.levels| == NUM_LEVELS
      && Sorted(input)
      && Unambiguous(Before())
      && Newer(above, SetOf(input))
      && (forall e :: e in beside ==> e !in input)
      && forall e :: e in below ==> !IsBaseLevel(v, level, e.key.user)
    }

    ghost function Rest(): iset<Entry> {
      above + beside + below
    }

    ghost function Before(): iset<Entry> {
      Rest() + SetOf(input)
    }

    ghost function After(smallestSnapshot: nat): iset<Entry>
      requires |v.levels| == NUM_LEVELS
    {
      Rest() + SetOf(Kept(input, |input|, smallestSnapshot, v, level))
    }

    /** A newer input entry of the same user key is visible to every snapshot still in use. */
    ghost predicate Hidden(smallestSnapshot: nat, e: Entry) {
      exists p :: p in input && p.key.user == e.key.user && e.key.sequence < p.key.sequence <= smallestSnapshot
    }

    ghost predicate Obsolete(smallestSnapshot: nat, e: Entry)
      requires |v.levels| == NUM_LEVELS
    {
      e.key.kind.TypeDeletion? && e.key.sequence <= smallestSnapshot && IsBaseLevel(v, level, e.key.user)
    }

    /** Dropping the deletion `t` uncovers the value `o`: `t` is what the smallest snapshot
        sees, and `o` is the entry that comes after it among the files left in level + 1. */
    ghost predicate Resurrects(smallestSnapshot: nat, t: Entry, o: Entry)
      requires |v.levels| == NUM_LEVELS
    {
      && t in input && Obsolete(smallestSnapshot, t)
      && IsNewest(Before(), t.key.user, smallestSnapshot, t)
      && o in beside && o.key.user == t.key.user && o.key.kind.TypeValue? && o.key.sequence < t.key.sequence
      && forall p ::
         p in beside && p.key.user == t.key.user && p.key.sequence < t.key.sequence
         ==> p.key.sequence <= o.key.sequence
    }

    ghost predicate ReadsAgree(smallestSnapshot: nat)
      requires |v.levels| == NUM_LEVELS
    {
      forall user, s :: s >= smallestSnapshot ==> Read(Before(), user, s) == Read(After(smallestSnapshot), user, s)
    }
  }

  /** Rule (A) looks only at the entry just before; in a sorted input that is enough. */
  lemma HiddenIs(c: Scene, smallestSnapshot: nat, i: nat)
    requires c.Valid() && i < |c.input| && smallestSnapshot < MAX_SEQUENCE
    ensures LastSequenceForKey(c.input, i) <= smallestSnapshot <==> c.Hidden(smallestSnapshot, c.input[i])
  {
    var e := c.input[i];
    if LastSequenceForKey(c.input, i) <= smallestSnapshot {
      SequencesFall(c, i - 1, i);
      assert c.input[i - 1] in c.input;
    }
    if c.Hidden(smallestSnapshot, e) {
      var p :| p in c.input && p.key.user == e.key.user && e.key.sequence < p.key.sequence <= smallestSnapshot;
      var j :| 0 <= j < |c.input| && c.input[j] == p;
      NewerComesFirst(c, j, i);
      if j < i - 1 {
        assert Less(p.key, c.input[i - 1].key) && Less(c.input[i - 1].key, e.key);
        SequencesFall(c, j, i - 1);
      }
    }
  }

  lemma NewerComesFirst(c: Scene, j: nat, i: nat)
    requires c.Valid() && i < |c.input| && j < |c.input| && c.input[i].key.user == c.input[j].key.user
    requires c.input[j].key.sequence > c.input[i].key.sequence
    ensures j < i
  {
    if j > i {
      SequencesFall(c, i, j);
    }
  }

  lemma SequencesFall(c: Scene, i: nat, j: nat)
    requires c.Valid() && i < j < |c.input| && c.input[i].key.user == c.input[j].key.user
    ensures c.input[i].key.sequence > c.input[j].key.sequence
  {
    var p, e := c.input[i], c.input[j];
    assert p in c.Before() && e in c.Before();
    assert Less(p.key, e.key);
  }

  lemma {:induction false} KeptIs(c: Scene, smallestSnapshot: nat, n: nat)
    requires c.Valid() && n <= |c.input| && smallestSnapshot < MAX_SEQUENCE
    ensures forall e :: e in Kept(c.input, n, smallestSnapshot, c.v, c.level) <==>
              e in c.input[..n] && !c.Hidden(smallestSnapshot, e) && !c.Obsolete(smallestSnapshot, e)
  {
    if n > 0 {
      KeptIs(c, smallestSnapshot, n - 1);
      HiddenIs(c, smallestSnapshot, n - 1);
      assert c.input[..n] == c.input[..n - 1] + [c.input[n - 1]];
    }
  }

  /** The survivors, as a set. */
  lemma AfterIs(c: Scene, smallestSnapshot: nat)
    requires c.Valid() && smallestSnapshot < MAX_SEQUENCE
    ensures forall e :: e in c.After(smallestSnapshot) <==>
              e in c.Rest() || (e in c.input && !c.Hidden(smallestSnapshot, e) && !c.Obsolete(smallestSnapshot, e))
    ensures forall e :: e in c.After(smallestSnapshot) ==> e in c.Before()
  {
    KeptIs(c, smallestSnapshot, |c.input|);
    assert c.input[..|c.input|] == c.input;
  }

  lemma NewestExists(es: iset<Entry>, user: UserKey, s: nat, e: Entry) returns (n: Entry)
    requires e in es && e.key.user == user && e.key.sequence <= s
    ensures IsNewest(es, user, s, n) && n.key.sequence >= e.key.sequence
    decreases s - e.key.sequence
  {
    if o :| o in es && o.key.user == user && e.key.sequence < o.key.sequence <= s {
      n := NewestExists(es, user, s, o);
    } else {
      n := e;
    }
  }

  /** If the newest visible entry itself is dropped, it was an obsolete deletion, and anything
      older that a reader could see now sits beside the compaction. */
  lemma OnlyBesideIsLeft(c: Scene, smallestSnapshot: nat, user: UserKey, s: nat, n: Entry, m: Entry)
    requires c.Valid() && smallestSnapshot < MAX_SEQUENCE && s >= smallestSnapshot
    requires IsNewest(c.Before(), user, s, n) && n !in c.After(smallestSnapshot)
    requires m in c.After(smallestSnapshot) && m.key.user == user && m.key.sequence <= s
    ensures n in c.input && c.Obsolete(smallestSnapshot, n)
    ensures IsNewest(c.Before(), user, smallestSnapshot, n)
    ensures m in c.beside && m.key.sequence < n.key.sequence
  {
    AfterIs(c, smallestSnapshot);
    assert m in c.Before();
    assert m.key.sequence < n.key.sequence;
    if m in c.input && m !in c.Rest() {
      assert c.Hidden(smallestSnapshot, m);
      assert false;
    }
    assert n in SetOf(c.input);
  }

  lemma SafeReadsAgree(c: Scene, smallestSnapshot: nat, user: UserKey, s: nat)
    requires c.Valid() && smallestSnapshot < MAX_SEQUENCE && s >= smallestSnapshot
    requires !exists t, o :: c.Resurrects(smallestSnapshot, t, o)
    ensures Read(c.Before(), user, s) == Read(c.After(smallestSnapshot), user, s)
  {
    var before, after := c.Before(), c.After(smallestSnapshot);
    AfterIs(c, smallestSnapshot);
    if e :| e in before && e.key.user == user && e.key.sequence <= s {
      var n := NewestExists(before, user, s, e);
      ReadIs(before, user, s, n);
      if n in after {
        assert IsNewest(after, user, s, n);
        ReadIs(after, user, s, n);
      } else if x :| x in after && x.key.user == user && x.key.sequence <= s {
        var m := NewestExists(after, user, s, x);
        ReadIs(after, user, s, m);
        OnlyBesideIsLeft(c, smallestSnapshot, user, s, n, m);
        forall p | p in c.beside && p.key.user == user && p.key.sequence < n.key.sequence
          ensures p.key.sequence <= m.key.sequence
        {
          assert p in after;
        }
        assert m.key.kind.TypeValue? ==> c.Resurrects(smallestSnapshot, n, m);
      } else {
        OnlyDeletionsVanish(c, smallestSnapshot, user, s, n);
      }
    }
  }

  lemma OnlyDeletionsVanish(c: Scene, smallestSnapshot: nat, user: UserKey, s: nat, n: Entry)
    requires c.Valid() && smallestSnapshot < MAX_SEQUENCE && s >= smallestSnapshot
    requires IsNewest(c.Before(), user, s, n) && n !in c.After(smallestSnapshot)
    ensures n.key.kind.TypeDeletion?
  {
    AfterIs(c, smallestSnapshot);
  }

  lemma ResurrectedReadDiffers(c: Scene, smallestSnapshot: nat, t: Entry, o: Entry)
    requires c.Valid() && smallestSnapshot < MAX_SEQUENCE && c.Resurrects(smallestSnapshot, t, o)
    ensures Read(c.Before(), t.key.user, smallestSnapshot) == None
    ensures Read(c.After(smallestSnapshot), t.key.user, smallestSnapshot) == Some(o.value)
  {
    var after := c.After(smallestSnapshot);
    AfterIs(c, smallestSnapshot);
    ReadIs(c.Before(), t.key.user, smallestSnapshot, t);
    forall p | p in after && p.key.user == t.key.user && p.key.sequence <= smallestSnapshot
      ensures p.key.sequence <= o.key.sequence
    {
      assert p in c.Before() && p.key.sequence <= t.key.sequence;
      assert t in SetOf(c.input);
      assert p in c.beside;
      assert p.key.sequence != t.key.sequence;
    }
    assert IsNewest(after, t.key.user, smallestSnapshot, o);
    ReadIs(after, t.key.user, smallestSnapshot, o);
  }

  /** A compaction keeps every read at or above its smallest snapshot if and only if no
      dropped deletion uncovers a value among the files left behind in level + 1. */
  lemma CompactionKeepsReads(c: Scene, smallestSnapshot: nat)
    requires c.Valid() && smallestSnapshot < MAX_SEQUENCE
    ensures c.ReadsAgree(smallestSnapshot) <==> !exists t, o :: c.Resurrects(smallestSnapshot, t, o)
  {
    if t, o :| c.Resurrects(smallestSnapshot, t, o) {
      ResurrectedReadDiffers(c, smallestSnapshot, t, o);
    } else {
      forall user, s | s >= smallestSnapshot
        ensures Read(c.Before(), user, s) == Read(c.After(smallestSnapshot), user, s)
      {
        SafeReadsAgree(c, smallestSnapshot, user, s);
      }
    }
  }
}
