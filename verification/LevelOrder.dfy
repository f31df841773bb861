/** Flushes, trivial moves and compactions keep the level-order invariant
    (db/version_set.cc: Builder, SetupOtherInputs; db/db_impl.cc: WriteLevel0Table,
    BackgroundCompaction, InstallCompactionResults). */
module LevelOrderKept {
  import opened DbFormat
  import opened Versions
  import opened InputSelection
  import opened VersionBuilder

  /** The invariant of every installed version; level 0 too is listed by smallest key. */
  ghost predicate Installed(v: Version) {
    Ordered(v) && SortedBySmallest(v.levels[0])
  }

  // -------------------------------------------------- one edit, as a change

  ghost predicate Deletes(edit: Edit, level: nat, f: File) {
    DeletedFile(level, f.number) in edit.deleted
  }

  /** The level of `w` is the level of `v` without the deleted files and with the added ones. */
  ghost predicate LevelChange(v: Version, w: Version, edit: Edit, l: nat)
    requires l < |v.levels| == |w.levels|
  {
    && SortedBySmallest(w.levels[l])
    && forall f :: f in w.levels[l] <==> (f in v.levels[l] && !Deletes(edit, l, f)) || f in AddsAt(l, edit.added)
  }

  lemma SortedLevels(v: Version, l: nat)
    requires Installed(v) && l < NUM_LEVELS
    ensures SortedBySmallest(v.levels[l])
  {
    if l > 0 {
      forall i, j | 0 <= i < j < |v.levels[l]| ensures BySmallest(v.levels[l][i], v.levels[l][j]) {
        SmallestUpToLargest(v.levels[l][i]);
      }
    }
  }

  lemma OneEdit(v: Version, edit: Edit, l: nat)
    requires Installed(v) && l < NUM_LEVELS && FreshAdds(v.levels[l], AddsAt(l, edit.added))
    ensures LevelChange(v, Install(v, [edit]), edit, l)
  {
    var one := [edit];
    assert one[..|one| - 1] == [] && StateOf(l, []) == UNCHANGED;
    var s := StateOf(l, one);
    SortedLevels(v, l);
    ApplyIs(UNCHANGED, l, edit);
    SavedIs(v.levels[l], s);
    SavedSorted(v.levels[l], s);
  }

  /** Internal-key ranges that do not meet. */
  predicate Apart(f: File, g: File) {
    Less(f.largest, g.smallest) || Less(g.largest, f.smallest)
  }

  lemma ApartIsDisjoint(files: seq<File>)
    requires AllWellFormed(files) && SortedBySmallest(files)
    requires forall f, g :: f in files && g in files && f != g ==> Apart(f, g)
    ensures Disjoint(files)
  {
    forall i, j | 0 <= i < j < |files| ensures Less(files[i].largest, files[j].smallest) {
      assert BySmallest(files[i], files[j]);
      assert files[i] in files && files[j] in files && files[i] != files[j];
      SmallestUpToLargest(files[i]);
      SmallestUpToLargest(files[j]);
    }
  }

  lemma DisjointIsApart(files: seq<File>, f: File, g: File)
    requires Disjoint(files) && f in files && g in files && f != g
    ensures Apart(f, g)
  {
    var i :| 0 <= i < |files| && files[i] == f;
    var j :| 0 <= j < |files| && files[j] == g;
  }

  lemma Shape(files: seq<File>)
    requires forall f :: f in files ==> WellFormed(f)
    ensures AllWellFormed(files)
  {
  }

  // ----------------------------------------------------------------- flush

  function FlushEdit(level: nat, f: File): Edit {
    Edit({}, [NewFile(level, f)])
  }

  lemma AddsOfFlush(level: nat, f: File, l: nat)
    ensures AddsAt(l, FlushEdit(level, f).added) == if l == level then [f] else []
  {
    var added := FlushEdit(level, f).added;
    assert added[..|added| - 1] == [];
  }

  /** What WriteLevel0Table guarantees of the table it adds. */
  ghost predicate FlushOk(v: Version, level: nat, f: File)
    requires |v.levels| == NUM_LEVELS
  {
    && WellFormed(f) && level <= MAX_MEM_COMPACT_LEVEL
    && Newer(SetOf(f.entries), Contents(v))
    && (level > 0 ==> Unmet(v, level, f.smallest.user, f.largest.user))
    && (forall g :: g in v.levels[0] ==> g.number < f.number)
    && (forall g :: g in v.levels[level] ==> g.number != f.number)
  }

  ghost predicate AddsTo(v: Version, w: Version, level: nat, f: File, l: nat)
    requires |v.levels| == |w.levels| == NUM_LEVELS && l < NUM_LEVELS
  {
    && SortedBySmallest(w.levels[l])
    && forall g :: g in w.levels[l] <==> g in v.levels[l] || (l == level && g == f)
  }

  lemma FlushChanges(v: Version, level: nat, f: File, w: Version, l: nat)
    requires Installed(v) && FlushOk(v, level, f) && w == Install(v, [FlushEdit(level, f)]) && l < NUM_LEVELS
    ensures |w.levels| == NUM_LEVELS && AddsTo(v, w, level, f, l) && AllWellFormed(w.levels[l])
    ensures LevelEntries(w, l) == LevelEntries(v, l) + if l == level then SetOf(f.entries) else iset{}
  {
    hide Newer, Contents, Unmet, LevelOrder, NumberOrder, NumbersUnique, Disjoint, SortedBySmallest, Install,
         WellFormed, LevelEntries;
    AddsOfFlush(level, f, l);
    LevelsOfInstall(v, [FlushEdit(level, f)]);
    OneEdit(v, FlushEdit(level, f), l);
    Shape(w.levels[l]);
    AddedEntries(v, w, level, f, l);
  }

  lemma AddedEntries(v: Version, w: Version, level: nat, f: File, l: nat)
    requires |v.levels| == |w.levels| == NUM_LEVELS && l < NUM_LEVELS && AddsTo(v, w, level, f, l)
    ensures LevelEntries(w, l) == LevelEntries(v, l) + if l == level then SetOf(f.entries) else iset{}
  {
    hide SortedBySmallest;
    if l == level { assert f in w.levels[l]; }
    forall e ensures e in LevelEntries(w, l) <==> e in LevelEntries(v, l) || (l == level && e in f.entries) {
      if e in LevelEntries(v, l) {
        var g :| g in v.levels[l] && e in g.entries;
        assert g in w.levels[l];
      }
    }
  }

  /** A file no other file of its level meets keeps the level disjoint. */
  lemma UnmetFileFits(files: seq<File>, f: File, w: seq<File>)
    requires AllWellFormed(files) && Disjoint(files) && WellFormed(f) && AllWellFormed(w) && SortedBySmallest(w)
    requires forall g :: g in files ==> !Overlaps(g, Some(f.smallest.user), Some(f.largest.user))
    requires forall g :: g in w ==> g in files || g == f
    ensures Disjoint(w)
  {
    forall g, h | g in w && h in w && g != h ensures Apart(g, h) {
      SmallestUpToLargest(f);
      if g != f && h != f {
        DisjointIsApart(files, g, h);
      }
    }
    ApartIsDisjoint(w);
  }

  lemma UnmetKeyElsewhere(v: Version, level: nat, f: File, l: nat, e: Entry, o: Entry)
    requires Shaped(v) && WellFormed(f) && l <= level < NUM_LEVELS
    requires Unmet(v, level, f.smallest.user, f.largest.user)
    requires e in LevelEntries(v, l) && o in f.entries
    ensures e.key.user != o.key.user
  {
    var g :| g in v.levels[l] && e in g.entries;
    assert !Overlaps(g, Some(f.smallest.user), Some(f.largest.user));
    EntryWithinFile(g, e);
    EntryWithinFile(f, o);
  }

  lemma FlushKeepsLevelOrder(v: Version, level: nat, f: File, w: Version)
    requires Installed(v) && FlushOk(v, level, f) && w == Install(v, [FlushEdit(level, f)])
    ensures |w.levels| == NUM_LEVELS && LevelOrder(w)
  {
    hide Install, Disjoint, NumberOrder, NumbersUnique, SortedBySmallest, WellFormed, Unmet, LevelEntries;
    LevelsOfInstall(v, [FlushEdit(level, f)]);
    forall l: nat | l < NUM_LEVELS
      ensures LevelEntries(w, l) == LevelEntries(v, l) + if l == level then SetOf(f.entries) else iset{}
    {
      FlushChanges(v, level, f, w, l);
    }
    forall l: nat, m: nat, e, o | l < m < NUM_LEVELS && e in LevelEntries(w, l) && o in LevelEntries(w, m)
        && e.key.user == o.key.user
      ensures e.key.sequence > o.key.sequence
    {
      if e in LevelEntries(v, l) && o in LevelEntries(v, m) {
        assert Newer(LevelEntries(v, l), LevelEntries(v, m));
      } else if o in LevelEntries(v, m) {
        assert e in SetOf(f.entries) && o in Contents(v);
      } else if e in LevelEntries(v, l) {
        UnmetKeyElsewhere(v, level, f, l, e, o);
      }
    }
  }

  lemma FlushKeepsNumberOrder(v: Version, f: File, files: seq<File>)
    requires Installed(v) && Newer(SetOf(f.entries), Contents(v))
    requires forall g :: g in v.levels[0] ==> g.number < f.number
    requires forall g :: g in files ==> g in v.levels[0] || g == f
    ensures NumberOrder(files)
  {
    forall g, h | g in files && h in files && g.number > h.number ensures Newer(SetOf(g.entries), SetOf(h.entries)) {
      if g == f {
        forall e | e in h.entries ensures e in Contents(v) {
          assert h in v.levels[0];
          assert e in LevelEntries(v, 0);
        }
      }
    }
  }

  lemma FlushAddsContents(v: Version, level: nat, f: File, w: Version)
    requires Installed(v) && FlushOk(v, level, f) && w == Install(v, [FlushEdit(level, f)])
    ensures |w.levels| == NUM_LEVELS && Contents(w) == Contents(v) + SetOf(f.entries)
  {
    hide Install, Disjoint, LevelOrder, NumberOrder, NumbersUnique, SortedBySmallest, WellFormed, Unmet, Newer,
         LevelEntries;
    FlushChanges(v, level, f, w, level);
    forall e ensures e in Contents(w) <==> e in Contents(v) + SetOf(f.entries) {
      if l: nat :| l < NUM_LEVELS && e in LevelEntries(w, l) {
        FlushChanges(v, level, f, w, l);
      }
      if l: nat :| l < NUM_LEVELS && e in LevelEntries(v, l) {
        FlushChanges(v, level, f, w, l);
        assert e in LevelEntries(w, l);
      }
      if e in f.entries {
        assert e in LevelEntries(w, level);
      }
    }
  }

  lemma LevelsOfInstall(v: Version, edits: seq<Edit>)
    ensures |Install(v, edits).levels| == |v.levels|
  {
  }

  /** Installing a flushed table keeps the invariant and adds exactly its entries. */
  lemma {:induction false} FlushKeepsInvariant(v: Version, level: nat, f: File)
    requires Installed(v) && FlushOk(v, level, f)
    ensures var w := Install(v, [FlushEdit(level, f)]);
            Installed(w) && Contents(w) == Contents(v) + SetOf(f.entries)
  {
    hide Install, Contents, Disjoint, SortedBySmallest, LevelOrder, NumberOrder;
    var w := Install(v, [FlushEdit(level, f)]);
    LevelsOfInstall(v, [FlushEdit(level, f)]);
    forall l: nat | l < NUM_LEVELS
      ensures AddsTo(v, w, level, f, l) && AllWellFormed(w.levels[l]) && (l > 0 ==> Disjoint(w.levels[l]))
    {
      FlushChanges(v, level, f, w, l);
      if l > 0 {
        FlushKeepsDisjoint(v, level, f, w, l);
      }
    }
    FlushKeepsLevelOrder(v, level, f, w);
    FlushKeepsNumberOrder(v, f, w.levels[0]);
    FlushAddsContents(v, level, f, w);
  }

  lemma FlushKeepsDisjoint(v: Version, level: nat, f: File, w: Version, l: nat)
    requires Installed(v) && FlushOk(v, level, f) && |w.levels| == NUM_LEVELS && 0 < l < NUM_LEVELS
    requires AddsTo(v, w, level, f, l) && AllWellFormed(w.levels[l])
    ensures Disjoint(w.levels[l])
  {
    if l == level {
      UnmetFileFits(v.levels[l], f, w.levels[l]);
    } else {
      SameFilesDisjoint(v.levels[l], w.levels[l]);
    }
  }

  lemma SameFilesDisjoint(files: seq<File>, w: seq<File>)
    requires AllWellFormed(w) && SortedBySmallest(w) && Disjoint(files)
    requires forall g :: g in w ==> g in files
    ensures Disjoint(w)
  {
    forall g, h | g in w && h in w && g != h ensures Apart(g, h) {
      DisjointIsApart(files, g, h);
    }
    ApartIsDisjoint(w);
  }

  // ------------------------------------------- compactions and trivial moves

  /** Replacing `in0` at `level` and `in1` at the next level by `outs` at the next level. */
  datatype Move = Move(level: nat, in0: seq<File>, in1: seq<File>, outs: seq<File>) {
    function Deletions(): set<DeletedFile> {
      (set f | f in in0 :: DeletedFile(level, f.number)) + (set f | f in in1 :: DeletedFile(level + 1, f.number))
    }

    function Additions(): seq<NewFile> {
      seq(|outs|, i requires 0 <= i < |outs| => NewFile(level + 1, outs[i]))
    }

    /** AddInputDeletions and the additions of InstallCompactionResults. */
    function ToEdit(): Edit {
      Edit(Deletions(), Additions())
    }

    /** The files of level `l` that are not inputs. */
    ghost predicate Stays(files: seq<File>, l: nat, f: File) {
      f in files && !(l == level && f in in0) && !(l == level + 1 && f in in1)
    }

    ghost predicate Chosen(v: Version)
      requires |v.levels| == NUM_LEVELS && level + 1 < NUM_LEVELS
    {
      && AllIn(in0, v.levels[level]) && AllIn(in1, v.levels[level + 1])
      && LeavesNewer(v.levels[level], in0)
    }

    /** The outputs hold nothing the inputs did not. */
    ghost predicate OutputsFromInputs() {
      forall e :: e in EntriesOf(outs) ==> e in EntriesOf(in0) || e in EntriesOf(in1)
    }

    /** What installing the move makes of level `l`. */
    ghost predicate Makes(v: Version, w: Version, l: nat)
      requires |v.levels| == |w.levels| == NUM_LEVELS && l < NUM_LEVELS
    {
      && SortedBySmallest(w.levels[l])
      && forall f :: f in w.levels[l] <==> Stays(v.levels[l], l, f) || (l == level + 1 && f in outs)
    }
  }

  lemma {:induction false} AddsOfList(l: nat, level: nat, added: seq<NewFile>, files: seq<File>)
    requires |added| == |files| && forall i :: 0 <= i < |files| ==> added[i] == NewFile(level, files[i])
    ensures AddsAt(l, added) == if l == level then files else []
  {
    if added != [] {
      var n := |added| - 1;
      AddsOfList(l, level, added[..n], files[..n]);
      assert files == files[..n] + [files[n]];
    }
  }

  lemma DeletedIffPicked(m: Move, files: seq<File>, l: nat, f: File)
    requires NumbersUnique(files) && f in files
    requires l == m.level ==> AllIn(m.in0, files)
    requires l == m.level + 1 ==> AllIn(m.in1, files)
    ensures !Deletes(m.ToEdit(), l, f) <==> m.Stays(files, l, f)
  {
    var d := DeletedFile(l, f.number);
    assert l == m.level && f in m.in0 ==> d in set g | g in m.in0 :: DeletedFile(m.level, g.number);
    assert l == m.level + 1 && f in m.in1 ==> d in set g | g in m.in1 :: DeletedFile(m.level + 1, g.number);
  }

  lemma NothingIsFresh(files: seq<File>)
    ensures FreshAdds(files, [])
  {
  }

  lemma MoveMakes(m: Move, v: Version, l: nat)
    requires Installed(v) && m.level + 1 < NUM_LEVELS && m.Chosen(v) && l < NUM_LEVELS
    requires FreshAdds(v.levels[m.level + 1], m.outs)
    ensures |Install(v, [m.ToEdit()]).levels| == NUM_LEVELS && m.Makes(v, Install(v, [m.ToEdit()]), l)
  {
    hide LevelOrder, NumberOrder, NumbersUnique, Disjoint, SortedBySmallest, Install, LeavesNewer, FreshAdds, AddsAt;
    var edit := m.ToEdit();
    var w := Install(v, [edit]);
    LevelsOfInstall(v, [edit]);
    AddsOfList(l, m.level + 1, edit.added, m.outs);
    if l != m.level + 1 { NothingIsFresh(v.levels[l]); }
    OneEdit(v, edit, l);
    forall f | f in v.levels[l] ensures !Deletes(edit, l, f) <==> m.Stays(v.levels[l], l, f) {
      DeletedIffPicked(m, v.levels[l], l, f);
    }
  }

  /** What a level other than the next holds afterwards it held before; the next level may
      also hold what the inputs of `level` held. */
  lemma WhereFrom(m: Move, v: Version, w: Version, l: nat, e: Entry)
    requires |v.levels| == |w.levels| == NUM_LEVELS && m.level + 1 < NUM_LEVELS && l < NUM_LEVELS
    requires m.Chosen(v) && m.OutputsFromInputs() && m.Makes(v, w, l) && e in LevelEntries(w, l)
    ensures e in LevelEntries(v, l) || (l == m.level + 1 && e in EntriesOf(m.in0))
    ensures l == m.level ==> exists f :: m.Stays(v.levels[l], l, f) && e in f.entries
  {
    var f :| f in w.levels[l] && e in f.entries;
    if !m.Stays(v.levels[l], l, f) {
      assert e in EntriesOf(m.outs);
      if g :| g in m.in1 && e in g.entries {
        assert g in v.levels[l];
      }
    }
  }

  lemma PickedEntry(m: Move, v: Version, e: Entry)
    requires |v.levels| == NUM_LEVELS && m.level + 1 < NUM_LEVELS && m.Chosen(v) && e in EntriesOf(m.in0)
    ensures e in LevelEntries(v, m.level)
  {
    var f :| f in m.in0 && e in f.entries;
    assert f in v.levels[m.level];
  }

  lemma MovedPair(m: Move, v: Version, a: nat, b: nat, e: Entry, o: Entry)
    requires |v.levels| == NUM_LEVELS && m.level + 1 < NUM_LEVELS && LevelOrder(v) && m.Chosen(v)
    requires a < b < NUM_LEVELS && e.key.user == o.key.user
    requires e in LevelEntries(v, a) || (a == m.level + 1 && e in EntriesOf(m.in0))
    requires o in LevelEntries(v, b) || (b == m.level + 1 && o in EntriesOf(m.in0))
    requires a == m.level ==> exists f :: m.Stays(v.levels[a], a, f) && e in f.entries
    ensures e.key.sequence > o.key.sequence
  {
    var a' := if e in LevelEntries(v, a) then a else m.level;
    if a' == m.level && e in EntriesOf(m.in0) {
      PickedEntry(m, v, e);
    }
    if o in LevelEntries(v, b) {
      assert Newer(LevelEntries(v, a'), LevelEntries(v, b));
    } else {
      PickedEntry(m, v, o);
      if a == m.level {
        var f :| m.Stays(v.levels[a], a, f) && e in f.entries;
        var g :| g in m.in0 && o in g.entries;
        assert Newer(SetOf(f.entries), SetOf(g.entries));
        assert e in SetOf(f.entries) && o in SetOf(g.entries);
      } else {
        assert Newer(LevelEntries(v, a), LevelEntries(v, m.level));
      }
    }
  }

  lemma MoveKeepsLevelOrder(m: Move, v: Version, w: Version)
    requires |v.levels| == |w.levels| == NUM_LEVELS && m.level + 1 < NUM_LEVELS && LevelOrder(v)
    requires m.Chosen(v) && m.OutputsFromInputs() && forall l: nat :: l < NUM_LEVELS ==> m.Makes(v, w, l)
    ensures LevelOrder(w)
  {
    forall a: nat, b: nat, e, o | a < b < NUM_LEVELS && e in LevelEntries(w, a) && o in LevelEntries(w, b)
        && e.key.user == o.key.user
      ensures e.key.sequence > o.key.sequence
    {
      WhereFrom(m, v, w, a, e);
      WhereFrom(m, v, w, b, o);
      MovedPair(m, v, a, b, e, o);
    }
  }

  /** Every input entry lies clear of a file of the next level that was left behind, on one side. */
  lemma LeftBehindClear(m: Move, upper: seq<File>, files: seq<File>, lo: InternalKey, hi: InternalKey, g: File,
                        e: Entry)
    requires AllWellFormed(upper) && AllWellFormed(files) && Disjoint(files) && AllIn(m.in0, upper)
    requires IsSmallestKey(m.in0, lo) && IsLargestKey(m.in0, hi)
    requires m.in1 == Overlapping(files, Some(lo.user), Some(hi.user))
    requires g in files && g !in m.in1 && (e in EntriesOf(m.in0) || e in EntriesOf(m.in1))
    ensures g.largest.user < lo.user || g.smallest.user > hi.user
    ensures g.largest.user < lo.user ==> Less(g.largest, e.key)
    ensures g.smallest.user > hi.user ==> Less(e.key, g.smallest)
  {
    hide Overlapping, Disjoint;
    OverlappingIs(files, Some(lo.user), Some(hi.user));
    SmallestUpToLargest(g);
    if e in EntriesOf(m.in0) {
      var f :| f in m.in0 && e in f.entries;
      assert f in upper;
      EntryWithinFile(f, e);
    } else {
      var f :| f in m.in1 && e in f.entries;
      assert f in files;
      EntryWithinFile(f, e);
      DisjointIsApart(files, f, g);
    }
  }

  lemma InEntriesOf(files: seq<File>, f: File, e: Entry)
    requires f in files && e in f.entries
    ensures e in EntriesOf(files)
  {
  }

  lemma OutputsFit(m: Move, upper: seq<File>, files: seq<File>, lo: InternalKey, hi: InternalKey, g: File, h: File)
    requires AllWellFormed(upper) && AllWellFormed(files) && Disjoint(files) && AllIn(m.in0, upper)
    requires IsSmallestKey(m.in0, lo) && IsLargestKey(m.in0, hi)
    requires m.in1 == Overlapping(files, Some(lo.user), Some(hi.user))
    requires g in files && g !in m.in1 && h in m.outs && WellFormed(h) && m.OutputsFromInputs()
    ensures Apart(g, h)
  {
    var first, last := h.entries[0], h.entries[|h.entries| - 1];
    InEntriesOf(m.outs, h, first);
    InEntriesOf(m.outs, h, last);
    LeftBehindClear(m, upper, files, lo, hi, g, first);
    LeftBehindClear(m, upper, files, lo, hi, g, last);
  }

  lemma NextLevelDisjoint(m: Move, upper: seq<File>, files: seq<File>, lo: InternalKey, hi: InternalKey, w: seq<File>)
    requires AllWellFormed(upper) && AllWellFormed(files) && Disjoint(files) && AllIn(m.in0, upper)
    requires IsSmallestKey(m.in0, lo) && IsLargestKey(m.in0, hi)
    requires m.in1 == Overlapping(files, Some(lo.user), Some(hi.user))
    requires AllWellFormed(m.outs) && Disjoint(m.outs) && m.OutputsFromInputs()
    requires AllWellFormed(w) && SortedBySmallest(w)
    requires forall f :: f in w ==> (f in files && f !in m.in1) || f in m.outs
    ensures Disjoint(w)
  {
    forall f, g | f in w && g in w && f != g ensures Apart(f, g) {
      if f in m.outs && g in m.outs {
        DisjointIsApart(m.outs, f, g);
      } else if f in m.outs {
        OutputsFit(m, upper, files, lo, hi, g, f);
      } else if g in m.outs {
        OutputsFit(m, upper, files, lo, hi, f, g);
      } else {
        DisjointIsApart(files, f, g);
      }
    }
    ApartIsDisjoint(w);
  }

  /** What the choice of inputs and the merge loop (or a trivial move) guarantee. */
  ghost predicate MoveOk(v: Version, m: Move)
    requires |v.levels| == NUM_LEVELS
  {
    && m.level + 1 < NUM_LEVELS
    && ValidPick(v, m.level, m.in0, m.in1)
    && AllWellFormed(m.outs) && Disjoint(m.outs) && m.OutputsFromInputs()
    && FreshAdds(v.levels[m.level + 1], m.outs)
  }

  lemma PickIsChosen(v: Version, m: Move)
    requires |v.levels| == NUM_LEVELS && m.level + 1 < NUM_LEVELS && ValidPick(v, m.level, m.in0, m.in1)
    ensures m.Chosen(v)
  {
    hide IsSmallestKey, IsLargestKey, LeavesNewer, Overlapping;
    var lo, hi :| IsSmallestKey(m.in0, lo) && IsLargestKey(m.in0, hi)
                  && m.in1 == Overlapping(v.levels[m.level + 1], Some(lo.user), Some(hi.user));
    OverlappingIs(v.levels[m.level + 1], Some(lo.user), Some(hi.user));
  }

  lemma NumbersKept(m: Move, files: seq<File>, l: nat, w: seq<File>)
    requires NumbersUnique(files) && (l == m.level + 1 ==> FreshAdds(files, m.outs))
    requires forall f :: f in w ==> m.Stays(files, l, f) || (l == m.level + 1 && f in m.outs)
    ensures NumbersUnique(w)
  {
    forall f, g | f in w && g in w && f.number == g.number ensures f == g {
      if f in m.outs && g in m.outs && l == m.level + 1 {
        var i :| 0 <= i < |m.outs| && m.outs[i] == f;
        var j :| 0 <= j < |m.outs| && m.outs[j] == g;
      }
    }
  }

  lemma DisjointKept(v: Version, m: Move, w: Version, l: nat)
    requires Installed(v) && MoveOk(v, m) && |w.levels| == NUM_LEVELS && 0 < l < NUM_LEVELS && m.Makes(v, w, l)
    requires AllWellFormed(w.levels[l])
    ensures Disjoint(w.levels[l])
  {
    if l == m.level + 1 {
      PickIsChosen(v, m);
      var lo, hi :| IsSmallestKey(m.in0, lo) && IsLargestKey(m.in0, hi)
                    && m.in1 == Overlapping(v.levels[l], Some(lo.user), Some(hi.user));
      NextLevelDisjoint(m, v.levels[m.level], v.levels[l], lo, hi, w.levels[l]);
    } else {
      SameFilesDisjoint(v.levels[l], w.levels[l]);
    }
  }

  lemma ShapeKept(v: Version, m: Move, w: Version, l: nat)
    requires Shaped(v) && |w.levels| == NUM_LEVELS && l < NUM_LEVELS && AllWellFormed(m.outs) && m.Makes(v, w, l)
    ensures AllWellFormed(w.levels[l])
  {
    forall f | f in w.levels[l] ensures WellFormed(f) {
    }
    Shape(w.levels[l]);
  }

  /** Installing a compaction or a trivial move keeps the invariant. */
  lemma MoveKeepsInvariant(v: Version, m: Move)
    requires Installed(v) && MoveOk(v, m)
    ensures Installed(Install(v, [m.ToEdit()]))
  {
    var w := Install(v, [m.ToEdit()]);
    PickIsChosen(v, m);
    forall l: nat | l < NUM_LEVELS ensures m.Makes(v, w, l) && LevelOk(w.levels[l], l) {
      LevelKept(v, m, l);
    }
    MoveKeepsLevelOrder(m, v, w);
  }

  /** The part of the invariant that concerns one level. */
  ghost predicate LevelOk(files: seq<File>, l: nat) {
    && AllWellFormed(files) && NumbersUnique(files)
    && (l > 0 ==> Disjoint(files))
    && (l == 0 ==> NumberOrder(files))
  }

  lemma {:induction false} LevelKept(v: Version, m: Move, l: nat)
    requires Installed(v) && MoveOk(v, m) && m.Chosen(v) && l < NUM_LEVELS
    ensures var w := Install(v, [m.ToEdit()]);
            |w.levels| == NUM_LEVELS && m.Makes(v, w, l) && LevelOk(w.levels[l], l)
  {
    var w := Install(v, [m.ToEdit()]);
    MoveMakes(m, v, l);
    ShapeKept(v, m, w, l);
    NumbersKept(m, v.levels[l], l, w.levels[l]);
    if l > 0 {
      DisjointKept(v, m, w, l);
    }
  }

  // ------------------------------------------------------ contents of a move

  ghost function StayingEntries(m: Move, v: Version, l: nat): iset<Entry>
    requires |v.levels| == NUM_LEVELS && l < NUM_LEVELS
  {
    iset f, e | m.Stays(v.levels[l], l, f) && e in f.entries :: e
  }

  ghost function Staying(m: Move, v: Version): iset<Entry>
    requires |v.levels| == NUM_LEVELS
  {
    iset l: nat, e | l < NUM_LEVELS && e in StayingEntries(m, v, l) :: e
  }

  lemma ContentsBefore(m: Move, v: Version)
    requires |v.levels| == NUM_LEVELS && m.level + 1 < NUM_LEVELS && m.Chosen(v)
    ensures Contents(v) == Staying(m, v) + EntriesOf(m.in0) + EntriesOf(m.in1)
  {
    forall e ensures e in Contents(v) <==> e in Staying(m, v) + EntriesOf(m.in0) + EntriesOf(m.in1) {
      if l: nat :| l < NUM_LEVELS && e in LevelEntries(v, l) {
        var f :| f in v.levels[l] && e in f.entries;
        assert m.Stays(v.levels[l], l, f) ==> e in StayingEntries(m, v, l);
      }
      if e in EntriesOf(m.in0) {
        PickedEntry(m, v, e);
      }
      if f :| f in m.in1 && e in f.entries {
        assert e in LevelEntries(v, m.level + 1);
      }
      if l: nat :| l < NUM_LEVELS && e in StayingEntries(m, v, l) {
        assert e in LevelEntries(v, l);
      }
    }
  }

  lemma ContentsAfter(m: Move, v: Version, w: Version)
    requires |v.levels| == |w.levels| == NUM_LEVELS && m.level + 1 < NUM_LEVELS
    requires forall l: nat :: l < NUM_LEVELS ==> m.Makes(v, w, l)
    ensures Contents(w) == Staying(m, v) + EntriesOf(m.outs)
  {
    forall e ensures e in Contents(w) <==> e in Staying(m, v) + EntriesOf(m.outs) {
      if l: nat :| l < NUM_LEVELS && e in LevelEntries(w, l) {
        var f :| f in w.levels[l] && e in f.entries;
        assert m.Makes(v, w, l);
        assert m.Stays(v.levels[l], l, f) ==> e in StayingEntries(m, v, l);
      }
      if f :| f in m.outs && e in f.entries {
        assert m.Makes(v, w, m.level + 1);
        assert f in w.levels[m.level + 1];
        assert e in LevelEntries(w, m.level + 1);
      }
      if l: nat :| l < NUM_LEVELS && e in StayingEntries(m, v, l) {
        var f :| m.Stays(v.levels[l], l, f) && e in f.entries;
        assert m.Makes(v, w, l);
        assert e in LevelEntries(w, l);
      }
    }
  }

  /** A move trades the entries of its inputs for the entries of its outputs. */
  lemma MoveTradesContents(v: Version, m: Move)
    requires Installed(v) && MoveOk(v, m)
    ensures Contents(v) == Staying(m, v) + EntriesOf(m.in0) + EntriesOf(m.in1)
    ensures |Install(v, [m.ToEdit()]).levels| == NUM_LEVELS
    ensures Contents(Install(v, [m.ToEdit()])) == Staying(m, v) + EntriesOf(m.outs)
  {
    PickIsChosen(v, m);
    ContentsBefore(m, v);
    var w := Install(v, [m.ToEdit()]);
    forall l: nat | l < NUM_LEVELS ensures m.Makes(v, w, l) {
      MoveMakes(m, v, l);
    }
    ContentsAfter(m, v, w);
  }
}
