/** The two-directional iterator over what a snapshot sees (db/db_iter.cc). */
module DbIter {
  import opened DbFormat

  // ------------------------------------------------------- what it iterates

  /** Sorted internal entries, with overwrites, deletions and entries newer than the snapshot. */
  ghost predicate Source(es: seq<Entry>) {
    Sorted(es) && Unambiguous(SetOf(es))
  }

  predicate Visible(es: seq<Entry>, s: nat, i: nat)
    requires i < |es|
  {
    es[i].key.sequence <= s
  }

  /** Entry `i` is the value that snapshot `s` reads for its user key. */
  ghost predicate LiveAt(es: seq<Entry>, s: nat, i: nat)
    requires i < |es|
  {
    && Visible(es, s, i)
    && es[i].key.kind.TypeValue?
    && forall j :: 0 <= j < i && es[j].key.user == es[i].key.user ==> !Visible(es, s, j)
  }

  /** The keys of the snapshot's map. */
  ghost function LiveKeys(es: seq<Entry>, s: nat): iset<UserKey> {
    iset k: UserKey | Read(SetOf(es), k, s).Some?
  }

  lemma Ascending(es: seq<Entry>, i: nat, j: nat)
    requires Source(es) && i < j < |es|
    ensures es[i].key.user <= es[j].key.user
    ensures es[i].key.user == es[j].key.user ==> es[i].key.sequence > es[j].key.sequence
  {
    assert Less(es[i].key, es[j].key);
    assert es[i] in SetOf(es) && es[j] in SetOf(es);
  }

  lemma LiveEntryIsRead(es: seq<Entry>, s: nat, i: nat)
    requires Source(es) && i < |es| && LiveAt(es, s, i)
    ensures Read(SetOf(es), es[i].key.user, s) == Some(es[i].value)
    ensures es[i].key.user in LiveKeys(es, s)
  {
    var e := es[i];
    forall o | o in SetOf(es) && o.key.user == e.key.user && o.key.sequence <= s
      ensures o.key.sequence <= e.key.sequence
    {
      var j :| 0 <= j < |es| && es[j] == o;
      assert Visible(es, s, j);
      if i < j { Ascending(es, i, j); }
    }
    assert IsNewest(SetOf(es), e.key.user, s, e);
    ReadIs(SetOf(es), e.key.user, s, e);
  }

  lemma LiveKeyHasEntry(es: seq<Entry>, s: nat, k: UserKey) returns (i: nat)
    requires Source(es) && k in LiveKeys(es, s)
    ensures i < |es| && LiveAt(es, s, i) && es[i].key.user == k
  {
    var e :| IsNewest(SetOf(es), k, s, e) && e.key.kind.TypeValue?;
    i :| 0 <= i < |es| && es[i] == e;
    forall j | 0 <= j < i && es[j].key.user == k ensures !Visible(es, s, j) {
      Ascending(es, j, i);
      assert es[j] in SetOf(es);
    }
  }

  // ------------------------------------------------ a cursor over a sorted map

  datatype Op = SeekToFirst | SeekToLast | Seek(target: UserKey) | Next | Prev

  ghost predicate IsLeast(keys: iset<UserKey>, r: Option<UserKey>) {
    match r
    case None => keys == iset{}
    case Some(k) => k in keys && forall j :: j in keys ==> k <= j
  }

  ghost predicate IsGreatest(keys: iset<UserKey>, r: Option<UserKey>) {
    match r
    case None => keys == iset{}
    case Some(k) => k in keys && forall j :: j in keys ==> j <= k
  }

  predicate Precedes(j: UserKey, k: UserKey) { j < k }

  predicate Anywhere(k: UserKey) { true }

  ghost function From(k: UserKey): iset<UserKey> { iset j: UserKey | !Precedes(j, k) }
  ghost function After(k: UserKey): iset<UserKey> { iset j: UserKey | Precedes(k, j) }
  ghost function Before(k: UserKey): iset<UserKey> { iset j: UserKey | Precedes(j, k) }
  ghost function Everywhere(): iset<UserKey> { iset j: UserKey | Anywhere(j) }

  /** Only a cursor that stands on a key may be asked to step. */
  predicate Allowed(at: Option<UserKey>, op: Op) {
    op.Next? || op.Prev? ==> at.Some?
  }

  /** Where a cursor over the sorted set `keys` goes. */
  ghost predicate Moves(keys: iset<UserKey>, at: Option<UserKey>, op: Op, to: Option<UserKey>)
    requires Allowed(at, op)
  {
    match op
    case SeekToFirst => IsLeast(keys, to)
    case SeekToLast => IsGreatest(keys, to)
    case Seek(target) => IsLeast(keys * From(target), to)
    case Next => IsLeast(keys * After(at.value), to)
    case Prev => IsGreatest(keys * Before(at.value), to)
  }

  lemma MovesIsUnique(keys: iset<UserKey>, at: Option<UserKey>, op: Op, a: Option<UserKey>, b: Option<UserKey>)
    requires Allowed(at, op) && Moves(keys, at, op, a) && Moves(keys, at, op, b)
    ensures a == b
  {
    if a.Some? && b.Some? {
      assert a.value <= b.value && b.value <= a.value;
    }
  }

  /** `trail[i]` is where a cursor over the set stands after the first `i` operations. */
  ghost predicate Follows(keys: iset<UserKey>, ops: seq<Op>, trail: seq<Option<UserKey>>) {
    && 0 < |trail| <= |ops| + 1
    && forall i :: 0 <= i < |trail| - 1 ==> Allowed(trail[i], ops[i]) && Moves(keys, trail[i], ops[i], trail[i + 1])
  }

  lemma FollowsOn(keys: iset<UserKey>, ops: seq<Op>, trail: seq<Option<UserKey>>, to: Option<UserKey>)
    requires Follows(keys, ops, trail) && |trail| <= |ops|
    requires Allowed(trail[|trail| - 1], ops[|trail| - 1]) && Moves(keys, trail[|trail| - 1], ops[|trail| - 1], to)
    ensures Follows(keys, ops, trail + [to])
  {
  }

  lemma {:induction false} TrailIsUnique(keys: iset<UserKey>, ops: seq<Op>, a: seq<Option<UserKey>>,
                                         b: seq<Option<UserKey>>, n: nat)
    requires Follows(keys, ops, a) && Follows(keys, ops, b) && a[0] == b[0] && n < |a| && n < |b|
    ensures a[n] == b[n]
  {
    if n > 0 {
      TrailIsUnique(keys, ops, a, b, n - 1);
      MovesIsUnique(keys, a[n - 1], ops[n - 1], a[n], b[n]);
    }
  }

  // ------------------------------------------------------- the forward scan

  predicate Skips(skip: Option<UserKey>, user: UserKey) {
    skip.Some? && user <= skip.value
  }

  /** The forward scan stands at `i`: of the keys in `wanted`, all that is visible before `i`
      is hidden, no live entry is hidden, and what is to come is wanted, hidden or invisible. */
  ghost predicate Scanning(es: seq<Entry>, s: nat, wanted: iset<UserKey>, skip: Option<UserKey>, i: nat) {
    && (forall j ::
       0 <= j < i && j < |es| && Visible(es, s, j) && es[j].key.user in wanted ==> Skips(skip, es[j].key.user))
    && (forall j :: 0 <= j < |es| && LiveAt(es, s, j) && es[j].key.user in wanted ==> !Skips(skip, es[j].key.user))
    && (forall j :: i <= j < |es| && Visible(es, s, j) ==>
          (es[j].key.user in wanted || Skips(skip, es[j].key.user)) && (skip.Some? ==> skip.value <= es[j].key.user))
  }

  lemma DeletionHides(es: seq<Entry>, s: nat, wanted: iset<UserKey>, skip: Option<UserKey>, i: nat)
    requires Source(es) && i < |es| && Scanning(es, s, wanted, skip, i)
    requires Visible(es, s, i) && es[i].key.kind.TypeDeletion?
    ensures Scanning(es, s, wanted, Some(es[i].key.user), i + 1)
  {
    var u := es[i].key.user;
    forall j | 0 <= j < |es| && LiveAt(es, s, j) && es[j].key.user in wanted ensures !Skips(Some(u), es[j].key.user) {
      DeletedIsNotLive(es, s, wanted, skip, i, j);
    }
    forall j | 0 <= j < |es| ensures if j < i then es[j].key.user <= u else u <= es[j].key.user {
      InOrder(es, j, i);
    }
  }

  lemma InOrder(es: seq<Entry>, j: nat, i: nat)
    requires Source(es) && j < |es| && i < |es|
    ensures if j < i then es[j].key.user <= es[i].key.user else es[i].key.user <= es[j].key.user
  {
    if j < i { Ascending(es, j, i); } else if i < j { Ascending(es, i, j); }
  }

  lemma DeletedIsNotLive(es: seq<Entry>, s: nat, wanted: iset<UserKey>, skip: Option<UserKey>, i: nat, j: nat)
    requires Source(es) && i < |es| && Scanning(es, s, wanted, skip, i)
    requires Visible(es, s, i) && es[i].key.kind.TypeDeletion?
    requires j < |es| && LiveAt(es, s, j) && es[j].key.user in wanted
    ensures es[i].key.user < es[j].key.user
  {
    if i < j { Ascending(es, i, j); }
  }

  lemma PassesOver(es: seq<Entry>, s: nat, wanted: iset<UserKey>, skip: Option<UserKey>, i: nat)
    requires i < |es| && Scanning(es, s, wanted, skip, i)
    requires Visible(es, s, i) ==> Skips(skip, es[i].key.user)
    ensures Scanning(es, s, wanted, skip, i + 1)
  {
  }

  /** The first value that is not hidden is the least live key wanted. */
  lemma FirstUnhidden(es: seq<Entry>, s: nat, wanted: iset<UserKey>, skip: Option<UserKey>, i: nat)
    requires Source(es) && i < |es| && Scanning(es, s, wanted, skip, i)
    requires Visible(es, s, i) && es[i].key.kind.TypeValue? && !Skips(skip, es[i].key.user)
    ensures LiveAt(es, s, i)
    ensures IsLeast(LiveKeys(es, s) * wanted, Some(es[i].key.user))
  {
    LiveEntryIsRead(es, s, i);
    forall k | k in LiveKeys(es, s) * wanted ensures es[i].key.user <= k {
      var j := LiveKeyHasEntry(es, s, k);
      if i < j { Ascending(es, i, j); }
    }
  }

  lemma NothingLeft(es: seq<Entry>, s: nat, wanted: iset<UserKey>, skip: Option<UserKey>)
    requires Source(es) && Scanning(es, s, wanted, skip, |es|)
    ensures IsLeast(LiveKeys(es, s) * wanted, None)
  {
    if k :| k in LiveKeys(es, s) * wanted {
      var j := LiveKeyHasEntry(es, s, k);
    }
  }

  /** Past the current entry: wanted are the keys after it, hidden the key itself. */
  lemma StepStarts(es: seq<Entry>, s: nat, i: nat)
    requires Source(es) && i < |es|
    ensures Scanning(es, s, After(es[i].key.user), Some(es[i].key.user), i)
  {
    forall j | 0 <= j < i ensures es[j].key.user <= es[i].key.user { Ascending(es, j, i); }
    forall j | i < j < |es| ensures es[i].key.user <= es[j].key.user { Ascending(es, i, j); }
  }

  /** Past position `p`, the snapshot sees no entry of these keys. */
  ghost predicate NothingVisible(es: seq<Entry>, s: nat, p: Option<nat>, keys: iset<UserKey>) {
    forall j :: IndexAfter(p) <= j < |es| && es[j].key.user in keys ==> !Visible(es, s, j)
  }

  function IndexAfter(p: Option<nat>): nat {
    if p.None? then 0 else p.value + 1
  }

  /** Turning round: everything after `p` belongs to the saved key or later keys, or is invisible. */
  lemma TurnStarts(es: seq<Entry>, s: nat, p: Option<nat>, k: UserKey)
    requires Source(es) && NothingVisible(es, s, p, Before(k))
    requires p.Some? ==> p.value < |es| && es[p.value].key.user < k
    ensures Scanning(es, s, After(k), Some(k), IndexAfter(p))
  {
    forall j | 0 <= j < IndexAfter(p) && j < |es| ensures es[j].key.user < k {
      if j < p.value { Ascending(es, j, p.value); }
    }
  }

  lemma SeekStarts(es: seq<Entry>, s: nat, target: UserKey, i: nat)
    requires Source(es) && i <= |es|
    requires forall j :: 0 <= j < i ==> Less(es[j].key, SeekKey(target, s))
    requires i < |es| ==> !Less(es[i].key, SeekKey(target, s))
    ensures Scanning(es, s, From(target), None, i)
  {
    forall j | i < j < |es| ensures target <= es[j].key.user { Ascending(es, i, j); }
  }

  // ------------------------------------------------------ the backward scan

  /** The newest visible entry met so far while scanning backwards, with its value. */
  datatype Found = Found(kind: ValueType, key: Option<UserKey>, value: Bytes)

  function FoundIn(e: Entry): Found {
    if e.key.kind.TypeDeletion? then Found(TypeDeletion, None, []) else Found(TypeValue, Some(e.key.user), e.value)
  }

  /** The backward scan has passed everything after `p`: no live key is left there, or the only
      one is the saved key, whose newest visible entry so far is `m`. */
  ghost predicate Backing(es: seq<Entry>, s: nat, wanted: iset<UserKey>, p: Option<nat>, f: Found, m: nat) {
    if f.kind.TypeDeletion? then
      forall j :: IndexAfter(p) <= j < |es| && es[j].key.user in wanted ==> !LiveAt(es, s, j)
    else
      && IndexAfter(p) <= m < |es|
      && f.key == Some(es[m].key.user) && f.value == es[m].value && es[m].key.user in wanted
      && Visible(es, s, m) && es[m].key.kind.TypeValue?
      && (forall j :: IndexAfter(p) <= j < m ==> !Visible(es, s, j))
      && (forall j ::
         IndexAfter(p) <= j < |es| && es[j].key.user in wanted && LiveAt(es, s, j)
         ==> es[j].key.user == es[m].key.user)
  }

  /** The keys before a limit; with no limit, all of them. */
  ghost function Below(limit: Option<UserKey>): iset<UserKey> {
    if limit.None? then Everywhere() else Before(limit.value)
  }

  lemma BelowGoesDown(limit: Option<UserKey>, es: seq<Entry>, p: nat, i: nat)
    requires Source(es) && p < i < |es| && es[i].key.user in Below(limit)
    ensures es[p].key.user in Below(limit)
  {
    Ascending(es, p, i);
  }

  lemma BackStarts(es: seq<Entry>, s: nat, wanted: iset<UserKey>, p: Option<nat>, f: Found)
    requires NothingVisible(es, s, p, wanted) && f.kind.TypeDeletion?
    ensures Backing(es, s, wanted, p, f, 0)
  {
  }

  lemma BackingHasKey(es: seq<Entry>, s: nat, wanted: iset<UserKey>, p: Option<nat>, f: Found, m: nat)
    requires Backing(es, s, wanted, p, f, m) && f.kind.TypeValue?
    ensures m < |es| && f.key == Some(es[m].key.user) && f.value == es[m].value
  {
  }

  function PositionBefore(i: nat): Option<nat> {
    if i > 0 then Some(i - 1) else None
  }

  lemma BackOverInvisible(es: seq<Entry>, s: nat, wanted: iset<UserKey>, i: nat, f: Found, m: nat)
    requires i < |es| && !Visible(es, s, i) && Backing(es, s, wanted, Some(i), f, m)
    ensures Backing(es, s, wanted, PositionBefore(i), f, m)
  {
  }

  lemma BackOverVisible(es: seq<Entry>, s: nat, wanted: iset<UserKey>, i: nat, f: Found, m: nat)
    requires Source(es) && i < |es| && Visible(es, s, i) && es[i].key.user in wanted
             && Backing(es, s, wanted, Some(i), f, m)
    requires f.kind.TypeValue? ==> f.key.value <= es[i].key.user
    ensures Backing(es, s, wanted, PositionBefore(i), FoundIn(es[i]), i)
  {
    if f.kind.TypeValue? { Ascending(es, i, m); }
  }

  /** The scan stops: the entry found is live, and no live key wanted is greater. */
  lemma BackStops(es: seq<Entry>, s: nat, wanted: iset<UserKey>, p: Option<nat>, f: Found, m: nat)
    requires Source(es) && Backing(es, s, wanted, p, f, m) && f.kind.TypeValue?
    requires p.Some? ==> p.value < |es| && es[p.value].key.user < f.key.value
    ensures m < |es| && LiveAt(es, s, m)
    ensures IsGreatest(LiveKeys(es, s) * wanted, f.key)
    ensures NothingVisible(es, s, p, Before(f.key.value))
  {
    forall j | 0 <= j < m && es[j].key.user == es[m].key.user ensures !Visible(es, s, j) {
      if p.Some? && j < p.value { Ascending(es, j, p.value); }
    }
    LiveEntryIsRead(es, s, m);
    forall k | k in LiveKeys(es, s) * wanted ensures k <= es[m].key.user {
      var j := LiveKeyHasEntry(es, s, k);
      if j < m { Ascending(es, j, m); }
    }
    forall j | IndexAfter(p) <= j < |es| && es[j].key.user < f.key.value ensures !Visible(es, s, j) {
      if m < j { Ascending(es, m, j); }
    }
  }

  lemma BackFindsNothing(es: seq<Entry>, s: nat, wanted: iset<UserKey>, f: Found, m: nat)
    requires Source(es) && Backing(es, s, wanted, None, f, m) && f.kind.TypeDeletion?
    ensures IsGreatest(LiveKeys(es, s) * wanted, None)
  {
    if k :| k in LiveKeys(es, s) * wanted {
      var j := LiveKeyHasEntry(es, s, k);
    }
  }

  lemma NoKeyBefore(es: seq<Entry>, s: nat, start: nat)
    requires Source(es) && start < |es| && forall j :: 0 <= j < start ==> es[j].key.user == es[start].key.user
    ensures IsGreatest(LiveKeys(es, s) * Before(es[start].key.user), None)
  {
    if k :| k in LiveKeys(es, s) * Before(es[start].key.user) {
      var j := LiveKeyHasEntry(es, s, k);
      if start < j { Ascending(es, start, j); }
    }
  }

  lemma NothingBetween(es: seq<Entry>, s: nat, p: nat, start: nat)
    requires Source(es) && p < start < |es| && forall j :: p < j < start ==> es[j].key.user == es[start].key.user
    ensures NothingVisible(es, s, Some(p), Before(es[start].key.user))
  {
    var k := es[start].key.user;
    forall j | p < j < |es| ensures k <= es[j].key.user {
      if start < j { Ascending(es, start, j); }
    }
  }

  // ----------------------------------------------------------------- DBIter

  datatype Direction = Forward | Reverse

  class DBIter {
    const entries: seq<Entry>
    const sequence: nat
    /** The internal iterator's position; None when it is not valid. */
    var iter: Option<nat>
    var direction: Direction
    var valid: bool
    /** None when cleared. */
    var savedKey: Option<UserKey>
    var savedValue: Bytes

    constructor (es: seq<Entry>, s: nat)
      requires Source(es)
      ensures Inv() && entries == es && sequence == s && Position() == None
    {
      entries, sequence := es, s;
      iter, direction, valid, savedKey, savedValue := None, Forward, false, None, [];
    }

    ghost predicate Inv()
      reads this
    {
      && Source(entries)
      && (iter.Some? ==> iter.value < |entries|)
      && (valid && direction.Forward? ==> iter.Some? && LiveAt(entries, sequence, iter.value))
      && (valid && direction.Reverse? ==>
            && savedKey.Some?
            && (exists i: nat :: i < |entries| && SavedAt(i))
            && (iter.Some? ==> entries[iter.value].key.user < savedKey.value)
            && NothingVisible(entries, sequence, iter, Before(savedKey.value)))
    }

    /** The saved key and value are those of the live entry `i`. */
    ghost predicate SavedAt(i: nat)
      requires i < |entries|
      reads this
    {
      LiveAt(entries, sequence, i) && savedKey == Some(entries[i].key.user) && savedValue == entries[i].value
    }

    function Key(): UserKey
      requires Inv() && valid
      reads this
    {
      if direction.Forward? then entries[iter.value].key.user else savedKey.value
    }

    function Value(): Bytes
      requires Inv() && valid
      reads this
    {
      if direction.Forward? then entries[iter.value].value else savedValue
    }

    /** The key the iterator stands on, if any. */
    ghost function Position(): Option<UserKey>
      requires Inv()
      reads this
    {
      if valid then Some(Key()) else None
    }

    /** What it shows is what a read of the key at the snapshot returns. */
    lemma ShowsTheRead()
      requires Inv() && valid
      ensures Key() in LiveKeys(entries, sequence)
      ensures Read(SetOf(entries), Key(), sequence) == Some(Value())
    {
      if direction.Forward? {
        LiveEntryIsRead(entries, sequence, iter.value);
      } else {
        var i: nat :| i < |entries| && SavedAt(i);
        LiveEntryIsRead(entries, sequence, i);
      }
    }

    method IterNext()
      requires iter.Some? && iter.value < |entries|
      modifies this`iter
      ensures iter == if old(iter).value + 1 < |entries| then Some(old(iter).value + 1) else None
    {
      iter := if iter.value + 1 < |entries| then Some(iter.value + 1) else None;
    }

    method IterPrev()
      requires iter.Some? && iter.value < |entries|
      modifies this`iter
      ensures iter == if old(iter).value > 0 then Some(old(iter).value - 1) else None
    {
      iter := if iter.value > 0 then Some(iter.value - 1) else None;
    }

    /** The internal iterator's Seek: the first entry not before the target. */
    method IterSeek(target: InternalKey)
      requires Source(entries)
      modifies this`iter
      ensures iter.Some? ==> iter.value < |entries| && !Less(entries[iter.value].key, target)
      ensures forall j :: 0 <= j < |entries| && (iter.Some? ==> j < iter.value) ==> Less(entries[j].key, target)
    {
      var i := 0;
      while i < |entries| && Less(entries[i].key, target)
        invariant i <= |entries|
        invariant forall j :: 0 <= j < i ==> Less(entries[j].key, target)
      {
        i := i + 1;
      }
      iter := if i < |entries| then Some(i) else None;
    }

    /** `wanted` is the set of keys to look for; it has no gap above. */
    method FindNextUserEntry(skipFirst: bool, ghost wanted: iset<UserKey>)
      requires Source(entries) && iter.Some? && iter.value < |entries| && direction.Forward?
      requires skipFirst ==> savedKey.Some?
      requires Scanning(entries, sequence, wanted, if skipFirst then savedKey else None, iter.value)
      modifies this`iter, this`valid, this`savedKey
      ensures Inv() && direction.Forward?
      ensures IsLeast(LiveKeys(entries, sequence) * wanted, Position())
    {
      var skipping := skipFirst;
      while true
        invariant direction.Forward? && iter.Some? && iter.value < |entries|
        invariant skipping ==> savedKey.Some?
        invariant Scanning(entries, sequence, wanted, if skipping then savedKey else None, iter.value)
        decreases |entries| - iter.value
      {
        var e := entries[iter.value];
        ghost var skip := if skipping then savedKey else None;
        if e.key.sequence <= sequence {
          match e.key.kind
          case TypeDeletion =>
            DeletionHides(entries, sequence, wanted, skip, iter.value);
            savedKey := Some(e.key.user);
            skipping := true;
          case TypeValue =>
            if skipping && e.key.user <= savedKey.value {
              PassesOver(entries, sequence, wanted, skip, iter.value);
            } else {
              FirstUnhidden(entries, sequence, wanted, skip, iter.value);
              valid := true;
              savedKey := None;
              return;
            }
        } else {
          PassesOver(entries, sequence, wanted, skip, iter.value);
        }
        IterNext();
        if iter.None? {
          NothingLeft(entries, sequence, wanted, if skipping then savedKey else None);
          break;
        }
      }
      savedKey := None;
      valid := false;
    }

    method Next()
      requires Inv() && valid
      modifies this
      ensures Inv() && Moves(LiveKeys(entries, sequence), old(Position()), Op.Next, Position())
    {
      ghost var k := Key();
      if direction.Reverse? {
        direction := Forward;
        TurnStarts(entries, sequence, iter, k);
        if iter.None? {
          iter := if entries == [] then None else Some(0);
        } else {
          IterNext();
        }
        // The entries of the saved key lie ahead, so the internal iterator stays valid.
        valid, savedKey := iter.Some?, if iter.Some? then savedKey else None;
      } else {
        savedKey := Some(entries[iter.value].key.user);
        StepStarts(entries, sequence, iter.value);
      }
      if iter.Some? {
        FindNextUserEntry(true, After(k));
      }
    }

    method Seek(target: UserKey)
      requires Inv()
      modifies this
      ensures Inv() && Moves(LiveKeys(entries, sequence), old(Position()), Op.Seek(target), Position())
    {
      direction := Forward;
      savedValue := [];
      savedKey := None;
      IterSeek(SeekKey(target, sequence));
      SeekStarts(entries, sequence, target, if iter.Some? then iter.value else |entries|);
      if iter.Some? {
        FindNextUserEntry(false, From(target));
      } else {
        NothingLeft(entries, sequence, From(target), None);
        valid := false;
      }
    }

    method SeekToFirst()
      requires Inv()
      modifies this
      ensures Inv() && Moves(LiveKeys(entries, sequence), old(Position()), Op.SeekToFirst, Position())
    {
      direction := Forward;
      savedValue := [];
      iter := if entries == [] then None else Some(0);
      assert LiveKeys(entries, sequence) * Everywhere() == LiveKeys(entries, sequence);
      if iter.Some? {
        FindNextUserEntry(false, Everywhere());
      } else {
        NothingLeft(entries, sequence, Everywhere(), None);
        valid := false;
      }
    }

    method FindPrevUserEntry(ghost limit: Option<UserKey>)
      requires Source(entries) && (iter.Some? ==> iter.value < |entries|) && direction.Reverse?
      requires NothingVisible(entries, sequence, iter, Below(limit))
      requires iter.Some? ==> entries[iter.value].key.user in Below(limit)
      modifies this
      ensures Inv()
      ensures IsGreatest(LiveKeys(entries, sequence) * Below(limit), Position())
    {
      hide Source, Backing, NothingVisible, LiveAt, LiveKeys, IsGreatest, Below;
      var valueType := TypeDeletion;
      ghost var wanted := Below(limit);
      ghost var m, f := 0, Found(valueType, savedKey, savedValue);
      BackStarts(entries, sequence, wanted, iter, f);
      if iter.Some? {
        while true
          invariant iter.Some? && iter.value < |entries| && direction.Reverse?
          invariant entries[iter.value].key.user in wanted
          invariant f == Found(valueType, savedKey, savedValue) && Backing(entries, sequence, wanted, iter, f, m)
          invariant valueType.TypeValue? ==> savedKey.Some?
          decreases iter.value
        {
          var e := entries[iter.value];
          if e.key.sequence <= sequence {
            if valueType.TypeValue? && e.key.user < savedKey.value {
              break;
            }
            BackOverVisible(entries, sequence, wanted, iter.value, f, m);
            m, f := iter.value, FoundIn(e);
            valueType := e.key.kind;
            if valueType.TypeDeletion? {
              savedKey, savedValue := None, [];
            } else {
              savedKey, savedValue := Some(e.key.user), e.value;
            }
          } else {
            BackOverInvisible(entries, sequence, wanted, iter.value, f, m);
          }
          ghost var i := iter.value;
          IterPrev();
          if iter.None? { break; }
          BelowGoesDown(limit, entries, iter.value, i);
        }
      }
      if valueType.TypeDeletion? {
        BackFindsNothing(entries, sequence, wanted, f, m);
        valid := false;
        savedKey, savedValue := None, [];
        direction := Forward;
      } else {
        BackingHasKey(entries, sequence, wanted, iter, f, m);
        BackStops(entries, sequence, wanted, iter, f, m);
        valid := true;
        assert SavedAt(m);
      }
    }

    method Prev()
      requires Inv() && valid
      modifies this
      ensures Inv() && Moves(LiveKeys(entries, sequence), old(Position()), Op.Prev, Position())
    {
      ghost var k := Key();
      if direction.Forward? {
        savedKey := Some(entries[iter.value].key.user);
        ghost var start := iter.value;
        while true
          invariant iter.Some? && iter.value <= start < |entries| && savedKey == Some(k) && k == entries[start].key.user
          invariant direction.Forward?
          invariant forall j :: iter.value <= j < start ==> entries[j].key.user == k
          decreases iter.value
        {
          IterPrev();
          if iter.None? {
            valid := false;
            savedKey, savedValue := None, [];
            NoKeyBefore(entries, sequence, start);
            return;
          }
          Ascending(entries, iter.value, start);
          if entries[iter.value].key.user < savedKey.value { break; }
        }
        direction := Reverse;
        NothingBetween(entries, sequence, iter.value, start);
      }
      FindPrevUserEntry(Some(k));
    }

    method SeekToLast()
      requires Inv()
      modifies this
      ensures Inv() && Moves(LiveKeys(entries, sequence), old(Position()), Op.SeekToLast, Position())
    {
      direction := Reverse;
      savedValue := [];
      iter := if entries == [] then None else Some(|entries| - 1);
      assert LiveKeys(entries, sequence) * Everywhere() == LiveKeys(entries, sequence);
      FindPrevUserEntry(None);
    }

    method Apply(op: Op)
      requires Inv() && Allowed(Position(), op)
      modifies this
      ensures Inv() && Moves(LiveKeys(entries, sequence), old(Position()), op, Position())
    {
      match op
      case SeekToFirst => SeekToFirst();
      case SeekToLast => SeekToLast();
      case Seek(target) => Seek(target);
      case Next => Next();
      case Prev => Prev();
    }

    /** Any sequence of operations, up to the first one that steps from nowhere, visits exactly
        the keys that a cursor over the snapshot's sorted map visits, with their values. */
    method Run(ops: seq<Op>) returns (trail: seq<Option<UserKey>>, shown: seq<Option<Bytes>>)
      requires Inv()
      modifies this
      ensures Inv()
      ensures Follows(LiveKeys(entries, sequence), ops, trail)
      ensures |shown| == |trail| && trail[0] == old(Position())
      ensures |trail| <= |ops| ==> !Allowed(trail[|trail| - 1], ops[|trail| - 1])
      ensures Shown(entries, sequence, trail, shown)
    {
      var v := Show();
      trail, shown := [Where()], [v];
      var i := 0;
      while i < |ops| && Allowed(Where(), ops[i])
        invariant Inv() && i <= |ops| && |trail| == i + 1 == |shown|
        invariant trail[0] == old(Position()) && trail[i] == Position()
        invariant Follows(LiveKeys(entries, sequence), ops, trail)
        invariant Shown(entries, sequence, trail, shown)
      {
        Apply(ops[i]);
        v := Show();
        FollowsOn(LiveKeys(entries, sequence), ops, trail, Where());
        trail, shown := trail + [Where()], shown + [v];
        i := i + 1;
      }
    }

    function Where(): (at: Option<UserKey>)
      requires Inv()
      reads this
      ensures at == Position()
    {
      if valid then Some(Key()) else None
    }

    method Show() returns (v: Option<Bytes>)
      requires Inv()
      ensures v == if valid then Read(SetOf(entries), Key(), sequence) else None
    {
      if valid {
        ShowsTheRead();
        v := Some(Value());
      } else {
        v := None;
      }
    }
  }

  /** Next to each position stands what a read of that key returns. */
  ghost predicate Shown(es: seq<Entry>, s: nat, trail: seq<Option<UserKey>>, shown: seq<Option<Bytes>>)
    requires |shown| == |trail|
  {
    forall i :: 0 <= i < |trail| ==>
      shown[i] == if trail[i].Some? then Read(SetOf(es), trail[i].value, s) else None
  }
}
