/** Table files, the levels of a version, and point reads through them
    (db/version_set.cc: FindFile, SomeFileOverlapsRange, Version::Get,
    Version::PickLevelForMemTableOutput). */
module Versions {
  import opened DbFormat

  /** FileMetaData of a finished table, together with the table's sorted contents. */
  datatype File = File(number: nat, size: nat, smallest: InternalKey, largest: InternalKey, entries: seq<Entry>)

  ghost predicate WellFormed(f: File) {
    && Sorted(f.entries)
    && Bounded(f.entries)
    && f.entries != []
    && f.smallest == f.entries[0].key
    && f.largest == f.entries[|f.entries| - 1].key
  }

  ghost predicate AllWellFormed(files: seq<File>) {
    forall i :: 0 <= i < |files| ==> WellFormed(files[i])
  }

  /** Files in increasing, disjoint internal-key ranges: what every level but 0 keeps. */
  ghost predicate Disjoint(files: seq<File>) {
    forall i, j :: 0 <= i < j < |files| ==> Less(files[i].largest, files[j].smallest)
  }

  ghost function EntriesOf(files: seq<File>): iset<Entry> {
    iset f, e | f in files && e in f.entries :: e
  }

  lemma EntryWithinFile(f: File, e: Entry)
    requires WellFormed(f) && e in f.entries
    ensures !Less(e.key, f.smallest) && !Less(f.largest, e.key)
    ensures f.smallest.user <= e.key.user <= f.largest.user
  {
    var i :| 0 <= i < |f.entries| && f.entries[i] == e;
  }

  lemma SmallestUpToLargest(f: File)
    requires WellFormed(f)
    ensures !Less(f.largest, f.smallest) && f.smallest.user <= f.largest.user
  {
    EntryWithinFile(f, f.entries[0]);
  }

  // ---------------------------------------------------------------- versions

  /** files_[0..kNumLevels) of a Version. */
  datatype Version = Version(levels: seq<seq<File>>)

  ghost predicate Shaped(v: Version) {
    && |v.levels| == NUM_LEVELS
    && forall l :: 0 <= l < NUM_LEVELS ==> AllWellFormed(v.levels[l])
  }

  ghost function LevelEntries(v: Version, l: nat): iset<Entry>
    requires |v.levels| == NUM_LEVELS && l < NUM_LEVELS
  {
    EntriesOf(v.levels[l])
  }

  ghost function Contents(v: Version): iset<Entry>
    requires |v.levels| == NUM_LEVELS
  {
    iset l: nat, e | l < NUM_LEVELS && e in LevelEntries(v, l) :: e
  }

  /** Level-order invariant, part one: smaller levels hold the newer entries of a user key. */
  ghost predicate LevelOrder(v: Version)
    requires |v.levels| == NUM_LEVELS
  {
    forall l: nat, m: nat :: l < m < NUM_LEVELS ==> Newer(LevelEntries(v, l), LevelEntries(v, m))
  }

  /** Level-order invariant, part two: in level 0 a higher file number means newer entries. */
  ghost predicate NumberOrder(files: seq<File>) {
    forall f, g :: f in files && g in files && f.number > g.number ==> Newer(SetOf(f.entries), SetOf(g.entries))
  }

  ghost predicate NumbersUnique(files: seq<File>) {
    forall f, g :: f in files && g in files && f.number == g.number ==> f == g
  }

  /** The whole invariant that reads, flushes and compactions rely on. */
  ghost predicate Ordered(v: Version) {
    && Shaped(v)
    && LevelOrder(v)
    && NumberOrder(v.levels[0])
    && (forall l :: 0 <= l < NUM_LEVELS ==> NumbersUnique(v.levels[l]))
    && (forall l :: 1 <= l < NUM_LEVELS ==> Disjoint(v.levels[l]))
  }

  // ------------------------------------------------------------- FindFile

  /** The first file whose largest key is not before `key`, found by binary search. */
  method FindFile(files: seq<File>, key: InternalKey) returns (right: nat)
    requires AllWellFormed(files) && Disjoint(files)
    ensures right <= |files|
    ensures forall i :: 0 <= i < right ==> Less(files[i].largest, key)
    ensures forall i :: right <= i < |files| ==> !Less(files[i].largest, key)
  {
    var left := 0;
    right := |files|;
    while left < right
      invariant left <= right <= |files|
      invariant forall i :: 0 <= i < left ==> Less(files[i].largest, key)
      invariant forall i :: right <= i < |files| ==> !Less(files[i].largest, key)
    {
      var mid := (left + right) / 2;
      if Less(files[mid].largest, key) {
        forall i | 0 <= i < mid ensures Less(files[i].largest, key) {
          SmallestUpToLargest(files[mid]);
        }
        left := mid + 1;
      } else {
        forall i | mid < i < |files| ensures !Less(files[i].largest, key) {
          SmallestUpToLargest(files[i]);
        }
        right := mid;
      }
    }
  }

  // ------------------------------------------------------- overlap checks

  /** Bounds are user keys; None is the null pointer, an open end. */
  predicate Overlaps(f: File, begin: Option<UserKey>, end: Option<UserKey>)
  {
    && (begin.Some? ==> begin.value <= f.largest.user)
    && (end.Some? ==> f.smallest.user <= end.value)
  }

  method SomeFileOverlapsRange(disjointSorted: bool, files: seq<File>, smallest: Option<UserKey>,
                               largest: Option<UserKey>)
    returns (overlap: bool)
    requires AllWellFormed(files) && (disjointSorted ==> Disjoint(files))
    ensures overlap <==> exists f :: f in files && Overlaps(f, smallest, largest)
  {
    if !disjointSorted {
      for i := 0 to |files|
        invariant forall j :: 0 <= j < i ==> !Overlaps(files[j], smallest, largest)
      {
        if Overlaps(files[i], smallest, largest) {
          assert files[i] in files;
          return true;
        }
      }
      return false;
    }
    var index := 0;
    if smallest.Some? {
      index := FindFile(files, SeekKey(smallest.value, MAX_SEQUENCE));
    }
    if index >= |files| {
      return false;
    }
    overlap := !(largest.Some? && largest.value < files[index].smallest.user);
    if overlap {
      assert files[index] in files;
      SmallestUpToLargest(files[index]);
    } else {
      forall j | index <= j < |files| ensures !Overlaps(files[j], smallest, largest) {
        SmallestUpToLargest(files[index]);
      }
    }
  }

  // ----------------------------------------------------------- point reads

  /** No entry of `user` in `es` is visible at `s`. */
  ghost predicate NoneVisible(es: iset<Entry>, user: UserKey, s: nat) {
    forall e :: e in es && e.key.user == user ==> e.key.sequence > s
  }

  /** What looking a key up in one place may conclude. */
  ghost predicate Finds(es: iset<Entry>, user: UserKey, s: nat, hit: Option<Entry>) {
    if hit.Some? then IsNewest(es, user, s, hit.value) else NoneVisible(es, user, s)
  }

  /** Position of the first entry that is not before `key`. */
  function SeekIndex(es: seq<Entry>, key: InternalKey): (i: nat)
    ensures i <= |es|
    ensures forall j :: 0 <= j < i ==> Less(es[j].key, key)
    ensures i < |es| ==> !Less(es[i].key, key)
  {
    if es == [] || !Less(es[0].key, key) then 0 else 1 + SeekIndex(es[1..], key)
  }

  /** Seek in one sorted run and keep the entry only if it belongs to `user`. */
  function LookUp(es: seq<Entry>, user: UserKey, s: nat): Option<Entry> {
    var i := SeekIndex(es, SeekKey(user, s));
    if i < |es| && es[i].key.user == user then Some(es[i]) else None
  }

  lemma LookUpFinds(es: seq<Entry>, user: UserKey, s: nat)
    requires Sorted(es)
    ensures Finds(SetOf(es), user, s, LookUp(es, user, s))
  {
    var i := SeekIndex(es, SeekKey(user, s));
    forall e | e in es && e.key.user == user && e.key.sequence <= s
      ensures i < |es| && es[i].key.user == user && e.key.sequence <= es[i].key.sequence <= s
    {
      var j :| 0 <= j < |es| && es[j] == e;
    }
  }

  function InsertNewestFirst(r: seq<File>, f: File): (q: seq<File>)
    ensures forall g :: g in q <==> g == f || g in r
  {
    if r == [] || r[0].number < f.number then [f] + r else [r[0]] + InsertNewestFirst(r[1..], f)
  }

  /** std::sort with the NewestFirst comparison: by decreasing file number. */
  function SortNewestFirst(files: seq<File>): (r: seq<File>)
    ensures forall f :: f in r <==> f in files
  {
    if files == [] then [] else InsertNewestFirst(SortNewestFirst(files[1..]), files[0])
  }

  ghost predicate NumbersDescend(r: seq<File>) {
    forall i, j :: 0 <= i < j < |r| ==> r[i].number >= r[j].number
  }

  lemma {:induction false} InsertKeepsDescending(r: seq<File>, f: File)
    requires NumbersDescend(r)
    ensures NumbersDescend(InsertNewestFirst(r, f))
  {
    if r != [] && r[0].number >= f.number {
      InsertKeepsDescending(r[1..], f);
      var rest := InsertNewestFirst(r[1..], f);
      forall j | 0 <= j < |rest| ensures r[0].number >= rest[j].number {
        assert rest[j] in rest;
      }
    }
  }

  lemma {:induction false} SortDescends(files: seq<File>)
    ensures NumbersDescend(SortNewestFirst(files))
  {
    if files != [] {
      SortDescends(files[1..]);
      InsertKeepsDescending(SortNewestFirst(files[1..]), files[0]);
    }
  }

  predicate Covers(f: File, user: UserKey) {
    f.smallest.user <= user <= f.largest.user
  }

  /** `order` holds every file whose range covers `user`, newest first. */
  ghost predicate SearchOrder(files: seq<File>, user: UserKey, order: seq<File>) {
    && (forall f :: f in order <==> f in files && Covers(f, user))
    && NumbersDescend(order)
  }

  lemma Level0Older(files: seq<File>, f: File, e: Entry, g: File, o: Entry)
    requires NumberOrder(files) && NumbersUnique(files)
    requires f in files && g in files && f.number >= g.number && f != g
    requires e in f.entries && o in g.entries && e.key.user == o.key.user
    ensures o.key.sequence < e.key.sequence
  {
    assert e in SetOf(f.entries) && o in SetOf(g.entries);
  }

  /** A file that holds a visible entry of `user` sits in the search order. */
  lemma CoveringFile(files: seq<File>, user: UserKey, order: seq<File>, o: Entry) returns (j: nat)
    requires AllWellFormed(files) && SearchOrder(files, user, order)
    requires o in EntriesOf(files) && o.key.user == user
    ensures j < |order| && order[j] in files && o in order[j].entries
  {
    var g :| g in files && o in g.entries;
    EntryWithinFile(g, o);
    j :| 0 <= j < |order| && order[j] == g;
  }

  lemma Level0Hit(files: seq<File>, user: UserKey, s: nat, order: seq<File>, i: nat, e: Entry)
    requires AllWellFormed(files) && NumberOrder(files) && NumbersUnique(files)
    requires SearchOrder(files, user, order)
    requires i < |order| && IsNewest(SetOf(order[i].entries), user, s, e)
    requires forall j :: 0 <= j < i ==> NoneVisible(SetOf(order[j].entries), user, s)
    ensures IsNewest(EntriesOf(files), user, s, e)
  {
    assert order[i] in order;
    forall o | o in EntriesOf(files) && o.key.user == user && o.key.sequence <= s
      ensures o.key.sequence <= e.key.sequence
    {
      var j := CoveringFile(files, user, order, o);
      assert o in SetOf(order[j].entries);
      if j > i && order[j] != order[i] {
        Level0Older(files, order[i], e, order[j], o);
      }
    }
  }

  lemma Level0Miss(files: seq<File>, user: UserKey, s: nat, order: seq<File>)
    requires AllWellFormed(files) && SearchOrder(files, user, order)
    requires forall j :: 0 <= j < |order| ==> NoneVisible(SetOf(order[j].entries), user, s)
    ensures NoneVisible(EntriesOf(files), user, s)
  {
    forall o | o in EntriesOf(files) && o.key.user == user ensures o.key.sequence > s {
      var j := CoveringFile(files, user, order, o);
      assert o in SetOf(order[j].entries);
    }
  }

  method SearchLevel0(files: seq<File>, user: UserKey, s: nat) returns (hit: Option<Entry>)
    requires AllWellFormed(files) && NumberOrder(files) && NumbersUnique(files)
    ensures Finds(EntriesOf(files), user, s, hit)
  {
    var tmp := [];
    for i := 0 to |files|
      invariant forall f :: f in tmp <==> f in files[..i] && Covers(f, user)
    {
      if Covers(files[i], user) {
        tmp := tmp + [files[i]];
      }
    }
    SortDescends(tmp);
    tmp := SortNewestFirst(tmp);
    for i := 0 to |tmp|
      invariant forall j :: 0 <= j < i ==> NoneVisible(SetOf(tmp[j].entries), user, s)
    {
      assert tmp[i] in tmp;
      LookUpFinds(tmp[i].entries, user, s);
      hit := LookUp(tmp[i].entries, user, s);
      if hit.Some? {
        Level0Hit(files, user, s, tmp, i, hit.value);
        return;
      }
    }
    hit := None;
    Level0Miss(files, user, s, tmp);
  }

  /** Files before `index` end before the sought key, so nothing in them is visible. */
  lemma EarlierFilesMiss(files: seq<File>, user: UserKey, s: nat, index: nat, j: nat, e: Entry)
    requires AllWellFormed(files) && index <= |files| && j < index
    requires forall i :: 0 <= i < index ==> Less(files[i].largest, SeekKey(user, s))
    requires e in files[j].entries && e.key.user == user
    ensures e.key.sequence > s
  {
    EntryWithinFile(files[j], e);
  }

  /** Files after the one searched hold only older entries of its user keys. */
  lemma LaterFilesOlder(files: seq<File>, index: nat, j: nat, e: Entry, o: Entry)
    requires AllWellFormed(files) && Disjoint(files) && index < j < |files|
    requires e in files[index].entries && o in files[j].entries
    ensures Less(e.key, o.key)
  {
    EntryWithinFile(files[index], e);
    EntryWithinFile(files[j], o);
  }

  method SearchSortedLevel(files: seq<File>, user: UserKey, s: nat) returns (hit: Option<Entry>)
    requires AllWellFormed(files) && Disjoint(files)
    ensures Finds(EntriesOf(files), user, s, hit)
  {
    var index := FindFile(files, SeekKey(user, s));
    hit := None;
    if index < |files| && files[index].smallest.user <= user {
      hit := LookUp(files[index].entries, user, s);
      LookUpFinds(files[index].entries, user, s);
    }
    forall e | e in EntriesOf(files) && e.key.user == user && e.key.sequence <= s
      ensures hit.Some? && e.key.sequence <= hit.value.key.sequence
    {
      var f :| f in files && e in f.entries;
      var j :| 0 <= j < |files| && files[j] == f;
      EntryWithinFile(files[j], e);
      if j < index {
        EarlierFilesMiss(files, user, s, index, j, e);
      } else if j == index {
        assert e in SetOf(files[index].entries);
      } else {
        var last := files[index].entries[|files[index].entries| - 1];
        LaterFilesOlder(files, index, j, last, e);
        assert last in SetOf(files[index].entries);
        if hit.Some? {
          LaterFilesOlder(files, index, j, hit.value, e);
        }
      }
    }
  }

  /** Nothing visible in the first `n` levels, and a hit in level `n`: the newest of the version. */
  lemma LevelHit(v: Version, user: UserKey, s: nat, n: nat, e: Entry)
    requires Ordered(v) && n < NUM_LEVELS
    requires forall l: nat :: l < n ==> NoneVisible(LevelEntries(v, l), user, s)
    requires IsNewest(LevelEntries(v, n), user, s, e)
    ensures IsNewest(Contents(v), user, s, e)
  {
    forall o | o in Contents(v) && o.key.user == user && o.key.sequence <= s
      ensures o.key.sequence <= e.key.sequence
    {
      var l: nat :| l < NUM_LEVELS && o in LevelEntries(v, l);
      if l > n {
        assert Newer(LevelEntries(v, n), LevelEntries(v, l));
      }
    }
  }

  /** Version::Get: level by level, and the first level that answers is right. */
  method Search(v: Version, user: UserKey, s: nat) returns (hit: Option<Entry>)
    requires Ordered(v)
    ensures Finds(Contents(v), user, s, hit)
  {
    for level := 0 to NUM_LEVELS
      invariant forall l: nat :: l < level ==> NoneVisible(LevelEntries(v, l), user, s)
    {
      if level == 0 {
        hit := SearchLevel0(v.levels[0], user, s);
      } else {
        hit := SearchSortedLevel(v.levels[level], user, s);
      }
      if hit.Some? {
        LevelHit(v, user, s, level, hit.value);
        return;
      }
    }
    hit := None;
  }

  function Answer(hit: Option<Entry>): Option<Bytes> {
    if hit.Some? && hit.value.key.kind.TypeValue? then Some(hit.value.value) else None
  }

  /** DBImpl::Get: the memtable, then the immutable memtable, then the tables. */
  method Get(mem: seq<Entry>, imm: Option<seq<Entry>>, v: Version, user: UserKey, s: nat) returns (r: Option<Bytes>)
    requires Sorted(mem) && (imm.Some? ==> Sorted(imm.value)) && Ordered(v)
    requires Newer(SetOf(mem), Contents(v))
    requires imm.Some? ==> Newer(SetOf(mem), SetOf(imm.value)) && Newer(SetOf(imm.value), Contents(v))
    requires Unambiguous(Everything(mem, imm, v))
    ensures r == Read(Everything(mem, imm, v), user, s)
  {
    var hit := LookUp(mem, user, s);
    LookUpFinds(mem, user, s);
    if hit.None? && imm.Some? {
      hit := LookUp(imm.value, user, s);
      LookUpFinds(imm.value, user, s);
    }
    if hit.None? {
      hit := Search(v, user, s);
    }
    if hit.Some? {
      ReadIs(Everything(mem, imm, v), user, s, hit.value);
    }
    r := Answer(hit);
  }

  ghost function Everything(mem: seq<Entry>, imm: Option<seq<Entry>>, v: Version): iset<Entry>
    requires |v.levels| == NUM_LEVELS
  {
    SetOf(mem) + (if imm.Some? then SetOf(imm.value) else iset{}) + Contents(v)
  }
}
