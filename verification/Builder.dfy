/** Applying version edits (db/version_set.cc: VersionSet::Builder), and why replaying a
    manifest through one builder gives what installing its edits one by one gave. */
module VersionBuilder {
  import opened DbFormat
  import opened Versions

  datatype DeletedFile = DeletedFile(level: nat, number: nat)
  datatype NewFile = NewFile(level: nat, file: File)

  /** The file changes of a VersionEdit. */
  datatype Edit = Edit(deleted: set<DeletedFile>, added: seq<NewFile>)

  /** Builder::BySmallestKey */
  predicate BySmallest(f: File, g: File) {
    Less(f.smallest, g.smallest) || (!Less(g.smallest, f.smallest) && f.number < g.number)
  }

  ghost predicate SortedBySmallest(files: seq<File>) {
    forall i, j :: 0 <= i < j < |files| ==> BySmallest(files[i], files[j])
  }

  /** Builder::LevelState: what the edits applied so far did to one level. */
  datatype LevelState = LevelState(deleted: set<nat>, added: seq<File>)

  const UNCHANGED := LevelState({}, [])

  /** Insertion into the std::set ordered by BySmallestKey. */
  function InsertFile(added: seq<File>, f: File): seq<File> {
    if added == [] || BySmallest(f, added[0]) then [f] + added
    else if BySmallest(added[0], f) then [added[0]] + InsertFile(added[1..], f)
    else added
  }

  function ApplyAdditions(s: LevelState, level: nat, added: seq<NewFile>): LevelState {
    if added == [] then s
    else
      var n := |added| - 1;
      var t := ApplyAdditions(s, level, added[..n]);
      if added[n].level != level then t
      else LevelState(t.deleted - {added[n].file.number}, InsertFile(t.added, added[n].file))
  }

  /** Builder::Apply, seen from one level. */
  function ApplyEdit(s: LevelState, level: nat, edit: Edit): LevelState {
    var deleted := set d | d in edit.deleted && d.level == level :: d.number;
    ApplyAdditions(LevelState(s.deleted + deleted, s.added), level, edit.added)
  }

  /** Builder::SaveTo, seen from one level: merge base and added files, skipping the deleted;
      `b` and `a` are the positions of base_iter and added_iter. */
  function SaveLevel(base: seq<File>, b: nat, added: seq<File>, a: nat, deleted: set<nat>): seq<File>
    requires b <= |base| && a <= |added|
    decreases |base| - b + |added| - a
  {
    if b == |base| && a == |added| then []
    else if a == |added| || (b < |base| && !BySmallest(added[a], base[b])) then
      Unless(base[b], deleted) + SaveLevel(base, b + 1, added, a, deleted)
    else
      Unless(added[a], deleted) + SaveLevel(base, b, added, a + 1, deleted)
  }

  /** MaybeAddFile */
  function Unless(f: File, deleted: set<nat>): seq<File> {
    if f.number in deleted then [] else [f]
  }

  function Saved(base: seq<File>, s: LevelState): seq<File> {
    SaveLevel(base, 0, s.added, 0, s.deleted)
  }

  // ------------------------------------------------------------- the class

  function StateOf(level: nat, edits: seq<Edit>): LevelState {
    if edits == [] then UNCHANGED
    else ApplyEdit(StateOf(level, edits[..|edits| - 1]), level, edits[|edits| - 1])
  }

  function Install(v: Version, edits: seq<Edit>): Version {
    Version(seq(|v.levels|, l requires 0 <= l < |v.levels| => Saved(v.levels[l], StateOf(l, edits))))
  }

  class Builder {
    const base: Version
    ghost var applied: seq<Edit>
    var levels: seq<LevelState>

    ghost predicate Valid()
      reads this
    {
      && |levels| == |base.levels|
      && forall l :: 0 <= l < |levels| ==> levels[l] == StateOf(l, applied)
    }

    constructor (base: Version)
      ensures Valid() && applied == [] && this.base == base
    {
      this.base := base;
      applied := [];
      levels := seq(|base.levels|, _ => UNCHANGED);
    }

    method Apply(edit: Edit)
      requires Valid()
      modifies this
      ensures Valid() && applied == old(applied) + [edit]
    {
      ghost var before := applied;
      applied := applied + [edit];
      assert applied[..|applied| - 1] == before;
      levels := seq(|levels|, l requires 0 <= l < |levels| reads this => ApplyEdit(levels[l], l, edit));
    }

    method SaveTo() returns (v: Version)
      requires Valid()
      ensures v == Install(base, applied)
    {
      var files: seq<seq<File>> := [];
      for l := 0 to |base.levels|
        invariant |files| == l
        invariant forall k :: 0 <= k < l ==> files[k] == Saved(base.levels[k], levels[k])
      {
        var saved := SaveOne(base.levels[l], levels[l]);
        files := files + [saved];
      }
      v := Version(files);
    }
  }

  lemma AppendAssociates(a: seq<File>, b: seq<File>, c: seq<File>)
    ensures a + (b + c) == (a + b) + c
  {
  }

  /** The merge loop of SaveTo for one level. */
  method SaveOne(base: seq<File>, s: LevelState) returns (files: seq<File>)
    ensures files == Saved(base, s)
  {
    files := [];
    var b, a := 0, 0;
    ghost var rest := Saved(base, s);
    while b < |base| || a < |s.added|
      invariant b <= |base| && a <= |s.added|
      invariant rest == SaveLevel(base, b, s.added, a, s.deleted)
      invariant files + rest == Saved(base, s)
      decreases |base| - b + |s.added| - a
    {
      var f;
      if a == |s.added| || (b < |base| && !BySmallest(s.added[a], base[b])) {
        f := base[b];
        b := b + 1;
      } else {
        f := s.added[a];
        a := a + 1;
      }
      rest := SaveLevel(base, b, s.added, a, s.deleted);
      AppendAssociates(files, Unless(f, s.deleted), rest);
      files := files + Unless(f, s.deleted);
    }
  }

  // --------------------------------------------------- what saving produces

  lemma {:induction false} SavedFrom(base: seq<File>, b: nat, added: seq<File>, a: nat, deleted: set<nat>)
    requires b <= |base| && a <= |added|
    ensures forall f :: f in SaveLevel(base, b, added, a, deleted) <==>
              (f in base[b..] || f in added[a..]) && f.number !in deleted
    decreases |base| - b + |added| - a
  {
    if b == |base| && a == |added| {
    } else if a == |added| || (b < |base| && !BySmallest(added[a], base[b])) {
      SavedFrom(base, b + 1, added, a, deleted);
      assert base[b..] == [base[b]] + base[b + 1..];
    } else {
      SavedFrom(base, b, added, a + 1, deleted);
      assert added[a..] == [added[a]] + added[a + 1..];
    }
  }

  /** A saved level holds the base files and the added files that are not deleted. */
  lemma SavedIs(base: seq<File>, s: LevelState)
    ensures forall f :: f in Saved(base, s) <==> (f in base || f in s.added) && f.number !in s.deleted
  {
    SavedFrom(base, 0, s.added, 0, s.deleted);
    assert base[0..] == base && s.added[0..] == s.added;
  }

  /** No file of one list has the number of a file of the other. */
  ghost predicate NumbersApart(a: seq<File>, b: seq<File>) {
    forall f, g :: f in a && g in b ==> f.number != g.number
  }

  lemma HeadOfMerge(base: seq<File>, b: nat, added: seq<File>, a: nat, deleted: set<nat>, f: File)
    requires b <= |base| && a <= |added|
    requires forall g :: g in base[b..] || g in added[a..] ==> BySmallest(f, g)
    requires SortedBySmallest(SaveLevel(base, b, added, a, deleted))
    ensures SortedBySmallest(Unless(f, deleted) + SaveLevel(base, b, added, a, deleted))
  {
    SavedFrom(base, b, added, a, deleted);
    var rest := SaveLevel(base, b, added, a, deleted);
    forall j | 0 <= j < |rest| ensures BySmallest(f, rest[j]) {
      assert rest[j] in rest;
    }
  }

  /** `f` comes before all that is left of both lists when it comes before their heads. */
  lemma BeforeTheRest(f: File, base: seq<File>, b: nat, added: seq<File>, a: nat)
    requires b <= |base| && a <= |added|
    requires SortedBySmallest(base) && SortedBySmallest(added)
    requires b < |base| ==> BySmallest(f, base[b])
    requires a < |added| ==> BySmallest(f, added[a])
    ensures forall g :: g in base[b..] || g in added[a..] ==> BySmallest(f, g)
  {
    forall g | g in base[b..] ensures BySmallest(f, g) {
      var i :| b <= i < |base| && base[i] == g;
    }
    forall g | g in added[a..] ensures BySmallest(f, g) {
      var i :| a <= i < |added| && added[i] == g;
    }
  }

  lemma BaseComesFirst(base: seq<File>, b: nat, added: seq<File>, a: nat)
    requires b < |base| && a <= |added| && SortedBySmallest(base) && SortedBySmallest(added)
             && NumbersApart(base, added)
    requires a < |added| ==> !BySmallest(added[a], base[b])
    ensures forall g :: g in base[b + 1..] || g in added[a..] ==> BySmallest(base[b], g)
  {
    assert a < |added| ==> base[b] in base && added[a] in added;
    BeforeTheRest(base[b], base, b + 1, added, a);
  }

  lemma AddedComesFirst(base: seq<File>, b: nat, added: seq<File>, a: nat)
    requires b <= |base| && a < |added| && SortedBySmallest(base) && SortedBySmallest(added)
    requires b < |base| ==> BySmallest(added[a], base[b])
    ensures forall g :: g in base[b..] || g in added[a + 1..] ==> BySmallest(added[a], g)
  {
    BeforeTheRest(added[a], base, b, added, a + 1);
  }

  lemma {:induction false} SaveLevelSorted(base: seq<File>, b: nat, added: seq<File>, a: nat, deleted: set<nat>)
    requires b <= |base| && a <= |added|
    requires SortedBySmallest(base) && SortedBySmallest(added) && NumbersApart(base, added)
    ensures SortedBySmallest(SaveLevel(base, b, added, a, deleted))
    decreases |base| - b + |added| - a, 1
  {
    if b < |base| && (a == |added| || !BySmallest(added[a], base[b])) {
      SaveBaseFirst(base, b, added, a, deleted);
    } else if a < |added| {
      SaveAddedFirst(base, b, added, a, deleted);
    }
  }

  lemma {:induction false} SaveBaseFirst(base: seq<File>, b: nat, added: seq<File>, a: nat, deleted: set<nat>)
    requires b < |base| && a <= |added|
    requires SortedBySmallest(base) && SortedBySmallest(added) && NumbersApart(base, added)
    requires a < |added| ==> !BySmallest(added[a], base[b])
    ensures SortedBySmallest(SaveLevel(base, b, added, a, deleted))
    decreases |base| - b + |added| - a, 0
  {
    SaveLevelSorted(base, b + 1, added, a, deleted);
    BaseComesFirst(base, b, added, a);
    HeadOfMerge(base, b + 1, added, a, deleted, base[b]);
  }

  lemma {:induction false} SaveAddedFirst(base: seq<File>, b: nat, added: seq<File>, a: nat, deleted: set<nat>)
    requires b <= |base| && a < |added|
    requires SortedBySmallest(base) && SortedBySmallest(added) && NumbersApart(base, added)
    requires b < |base| ==> BySmallest(added[a], base[b])
    ensures SortedBySmallest(SaveLevel(base, b, added, a, deleted))
    decreases |base| - b + |added| - a, 0
  {
    SaveLevelSorted(base, b, added, a + 1, deleted);
    AddedComesFirst(base, b, added, a);
    HeadOfMerge(base, b, added, a + 1, deleted, added[a]);
  }

  /** The additions of an edit to one level, in order. */
  function AddsAt(level: nat, added: seq<NewFile>): seq<File> {
    if added == [] then []
    else
      var n := |added| - 1;
      AddsAt(level, added[..n]) + (if added[n].level == level then [added[n].file] else [])
  }

  ghost predicate DistinctNumbers(files: seq<File>) {
    forall i, j :: 0 <= i < j < |files| ==> files[i].number != files[j].number
  }

  lemma {:induction false} InsertIs(added: seq<File>, f: File)
    requires SortedBySmallest(added) && forall g :: g in added ==> g.number != f.number
    ensures forall g :: g in InsertFile(added, f) <==> g == f || g in added
    ensures SortedBySmallest(InsertFile(added, f))
  {
    if added != [] && !BySmallest(f, added[0]) {
      assert added[0] in added;
      InsertIs(added[1..], f);
      var rest := InsertFile(added[1..], f);
      forall j | 0 <= j < |rest| ensures BySmallest(added[0], rest[j]) {
        assert rest[j] in rest;
      }
    }
  }

  /** The numbers an edit adds to a level are new there and all different. */
  ghost predicate FreshAdds(existing: seq<File>, adds: seq<File>) {
    DistinctNumbers(adds) && NumbersApart(existing, adds)
  }

  lemma FreshPrefix(existing: seq<File>, before: seq<File>, f: File)
    requires FreshAdds(existing, before + [f])
    ensures FreshAdds(existing, before)
    ensures forall g :: g in existing || g in before ==> g.number != f.number
  {
    var adds := before + [f];
    assert forall i :: 0 <= i < |before| ==> adds[i] == before[i];
    assert adds[|before|] == f && f in adds;
    forall g, h | g in existing && h in before ensures g.number != h.number {
      assert h in adds;
    }
  }

  lemma {:induction false} AdditionsAre(s: LevelState, level: nat, added: seq<NewFile>)
    requires SortedBySmallest(s.added) && FreshAdds(s.added, AddsAt(level, added))
    ensures var t := ApplyAdditions(s, level, added);
            && SortedBySmallest(t.added)
            && (forall f :: f in t.added <==> f in s.added || f in AddsAt(level, added))
            && (forall n :: n in t.deleted <==>
                            n in s.deleted && forall f :: f in AddsAt(level, added) ==> f.number != n)
  {
    if added != [] {
      var n := |added| - 1;
      var before := AddsAt(level, added[..n]);
      if added[n].level == level {
        var f := added[n].file;
        FreshPrefix(s.added, before, f);
        AdditionsAre(s, level, added[..n]);
        InsertIs(ApplyAdditions(s, level, added[..n]).added, f);
      } else {
        assert AddsAt(level, added) == before;
        AdditionsAre(s, level, added[..n]);
      }
    }
  }

  lemma {:induction false} SortedIsUnique(a: seq<File>, b: seq<File>)
    requires SortedBySmallest(a) && SortedBySmallest(b)
    requires forall f :: f in a <==> f in b
    ensures a == b
  {
    assert b != [] ==> b[0] in b;
    if a != [] {
      assert a[0] in a && a[0] in b;
      assert b[0] in b && b[0] in a;
      assert a[0] == b[0];
      forall f | f in a[1..] ensures f in b[1..] {
        assert f in b;
      }
      forall f | f in b[1..] ensures f in a[1..] {
        assert f in a;
      }
      SortedIsUnique(a[1..], b[1..]);
      assert a == [a[0]] + a[1..] && b == [b[0]] + b[1..];
    }
  }

  // ------------------------------------------------------- manifest replay

  /** No edit gives a level a file number that the level had before, and none gives one twice. */
  ghost predicate AddedOnce(base: seq<File>, level: nat, edits: seq<Edit>) {
    edits == [] ||
    var n := |edits| - 1;
    && AddedOnce(base, level, edits[..n])
    && FreshAdds(base + StateOf(level, edits[..n]).added, AddsAt(level, edits[n].added))
  }

  /** LogAndApply, once per edit: each version is built from the one before. */
  function InstallEach(v: Version, edits: seq<Edit>): Version {
    if edits == [] then v
    else Install(InstallEach(v, edits[..|edits| - 1]), [edits[|edits| - 1]])
  }

  ghost predicate Replayable(v: Version, edits: seq<Edit>) {
    forall l :: 0 <= l < |v.levels| ==> SortedBySmallest(v.levels[l]) && AddedOnce(v.levels[l], l, edits)
  }

  lemma FreshOfParts(a: seq<File>, b: seq<File>, adds: seq<File>)
    requires FreshAdds(a + b, adds)
    ensures FreshAdds(a, adds) && FreshAdds(b, adds)
  {
    assert forall f :: f in a || f in b ==> f in a + b;
  }

  lemma {:induction false} StateSorted(base: seq<File>, level: nat, edits: seq<Edit>)
    requires SortedBySmallest(base) && AddedOnce(base, level, edits)
    ensures SortedBySmallest(StateOf(level, edits).added) && NumbersApart(base, StateOf(level, edits).added)
  {
    if edits != [] {
      var n := |edits| - 1;
      StateSorted(base, level, edits[..n]);
      var s := StateOf(level, edits[..n]);
      FreshOfParts(base, s.added, AddsAt(level, edits[n].added));
      ApplyIs(s, level, edits[n]);
    }
  }

  lemma {:induction false} ApplyIs(s: LevelState, level: nat, edit: Edit)
    requires SortedBySmallest(s.added) && FreshAdds(s.added, AddsAt(level, edit.added))
    ensures var t := ApplyEdit(s, level, edit);
            && SortedBySmallest(t.added)
            && (forall f :: f in t.added <==> f in s.added || f in AddsAt(level, edit.added))
            && (forall n :: n in t.deleted <==> (n in s.deleted || DeletedFile(level, n) in edit.deleted)
                                                && forall f :: f in AddsAt(level, edit.added) ==> f.number != n)
  {
    var deleted := set d | d in edit.deleted && d.level == level :: d.number;
    AdditionsAre(LevelState(s.deleted + deleted, s.added), level, edit.added);
    forall n ensures n in deleted <==> DeletedFile(level, n) in edit.deleted {
    }
  }

  lemma SavedSorted(base: seq<File>, s: LevelState)
    requires SortedBySmallest(base) && SortedBySmallest(s.added) && NumbersApart(base, s.added)
    ensures SortedBySmallest(Saved(base, s))
  {
    SaveLevelSorted(base, 0, s.added, 0, s.deleted);
  }

  /** Saving after one more edit is the same as saving, then applying the edit to the result. */
  lemma OneMoreEdit(base: seq<File>, level: nat, s: LevelState, edit: Edit)
    requires SortedBySmallest(base) && SortedBySmallest(s.added) && NumbersApart(base, s.added)
    requires FreshAdds(base + s.added, AddsAt(level, edit.added))
    ensures Saved(base, ApplyEdit(s, level, edit)) == Saved(Saved(base, s), ApplyEdit(UNCHANGED, level, edit))
  {
    var adds := AddsAt(level, edit.added);
    FreshOfParts(base, s.added, adds);
    ApplyIs(s, level, edit);
    ApplyIs(UNCHANGED, level, edit);
    var t, u := ApplyEdit(s, level, edit), ApplyEdit(UNCHANGED, level, edit);
    SavedIs(base, s);
    SavedIs(base, t);
    SavedIs(Saved(base, s), u);
    SavedSorted(base, s);
    SavedSorted(base, t);
    SavedSorted(Saved(base, s), u);
    SortedIsUnique(Saved(base, t), Saved(Saved(base, s), u));
  }

  /** One builder fed every edit of a manifest ends with the files that installing the edits
      one at a time ended with. */
  lemma {:induction false} ReplayIsStepwise(v: Version, edits: seq<Edit>)
    requires Replayable(v, edits)
    ensures Install(v, edits) == InstallEach(v, edits)
  {
    if edits == [] {
      forall l | 0 <= l < |v.levels| ensures Saved(v.levels[l], UNCHANGED) == v.levels[l] {
        SavedIs(v.levels[l], UNCHANGED);
        SavedSorted(v.levels[l], UNCHANGED);
        SortedIsUnique(Saved(v.levels[l], UNCHANGED), v.levels[l]);
      }
    } else {
      var n := |edits| - 1;
      ReplayIsStepwise(v, edits[..n]);
      var w := Install(v, edits[..n]);
      forall l | 0 <= l < |v.levels|
        ensures Saved(v.levels[l], StateOf(l, edits)) == Saved(w.levels[l], StateOf(l, [edits[n]]))
      {
        var base, s := v.levels[l], StateOf(l, edits[..n]);
        StateSorted(base, l, edits[..n]);
        OneMoreEdit(base, l, s, edits[n]);
        assert [edits[n]][..0] == [];
      }
    }
  }

  /** WriteSnapshot: one edit that adds every file of a version. */
  ghost predicate IsSnapshotOf(edit: Edit, v: Version) {
    edit.deleted == {} && forall l :: 0 <= l < |v.levels| ==> AddsAt(l, edit.added) == v.levels[l]
  }

  lemma {:induction false} InstallEachAppend(v: Version, first: Edit, edits: seq<Edit>)
    ensures InstallEach(v, [first] + edits) == InstallEach(Install(v, [first]), edits)
  {
    var all := [first] + edits;
    if edits == [] {
      assert all[..0] == [];
    } else {
      var n := |edits| - 1;
      InstallEachAppend(v, first, edits[..n]);
      assert all[..|all| - 1] == [first] + edits[..n];
    }
  }

  function EmptyVersion(levels: nat): Version {
    Version(seq(levels, _ => []))
  }

  lemma SnapshotOfLevel(files: seq<File>, level: nat, snapshot: Edit)
    requires snapshot.deleted == {} && AddsAt(level, snapshot.added) == files
    requires SortedBySmallest(files) && DistinctNumbers(files)
    ensures Saved([], StateOf(level, [snapshot])) == files
  {
    var one := [snapshot];
    assert one[..|one| - 1] == [] && StateOf(level, []) == UNCHANGED;
    var s := StateOf(level, one);
    ApplyIs(UNCHANGED, level, snapshot);
    SavedIs([], s);
    SavedSorted([], s);
    SortedIsUnique(Saved([], s), files);
  }

  /** Recovery from a manifest that starts with a snapshot rebuilds the version that was
      current when the manifest's last edit was installed. */
  lemma RecoveredVersion(v: Version, snapshot: Edit, edits: seq<Edit>)
    requires IsSnapshotOf(snapshot, v) && Replayable(EmptyVersion(|v.levels|), [snapshot] + edits)
    requires forall l :: 0 <= l < |v.levels| ==> SortedBySmallest(v.levels[l]) && DistinctNumbers(v.levels[l])
    ensures Install(EmptyVersion(|v.levels|), [snapshot] + edits) == InstallEach(v, edits)
  {
    var empty := EmptyVersion(|v.levels|);
    ReplayIsStepwise(empty, [snapshot] + edits);
    InstallEachAppend(empty, snapshot, edits);
    assert Install(empty, [snapshot]).levels == v.levels by {
      forall l | 0 <= l < |v.levels| ensures Saved([], StateOf(l, [snapshot])) == v.levels[l] {
        SnapshotOfLevel(v.levels[l], l, snapshot);
      }
    }
  }
}
