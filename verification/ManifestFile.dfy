/** The manifest as a file: the records that LogAndApply and WriteSnapshot append, and what
    recovery makes of them, whole or torn (db/version_set.cc:801-998, 1088-1116). */
module ManifestFile {
  import opened DbFormat
  import opened Coding
  import opened LogWriter
  import LogReader
  import opened LogRoundTrip
  import opened Versions
  import VersionBuilder
  import opened EditCodec

  /** The file that a record of the manifest stands for. */
  type View = FileRecord -> File

  function Viewed(view: View, e: Edit): VersionBuilder.Edit {
    VersionBuilder.Edit(
      set d | d in e.deleted :: VersionBuilder.DeletedFile(d.level, d.number),
      seq(|e.newFiles|,
          i requires 0 <= i < |e.newFiles| => VersionBuilder.NewFile(e.newFiles[i].level, view(e.newFiles[i]))))
  }

  function AllViewed(view: View, edits: seq<Edit>): (r: seq<VersionBuilder.Edit>)
    ensures |r| == |edits| && forall i :: 0 <= i < |edits| ==> r[i] == Viewed(view, edits[i])
  {
    seq(|edits|, i requires 0 <= i < |edits| => Viewed(view, edits[i]))
  }

  // ----------------------------------------------------------------- recovery

  /** The numbers that the edits so far have set. */
  datatype Meta = Meta(
    logNumber: Option<Dword>,
    prevLogNumber: Option<Dword>,
    nextFile: Option<Dword>,
    lastSequence: Option<Dword>)

  function Later(before: Option<Dword>, next: Option<Dword>): Option<Dword> {
    if next.Some? then next else before
  }

  function Noted(m: Meta, e: Edit): Meta {
    Meta(Later(m.logNumber, e.logNumber), Later(m.prevLogNumber, e.prevLogNumber),
         Later(m.nextFile, e.nextFile), Later(m.lastSequence, e.lastSequence))
  }

  function MetaAfter(edits: seq<Edit>, n: nat): Meta
    requires n <= |edits|
  {
    if n == 0 then Meta(None, None, None, None) else Noted(MetaAfter(edits, n - 1), edits[n - 1])
  }

  /** The edits that the builder was fed, and whether all was well so far. */
  datatype Loading = Loading(edits: seq<Edit>, meta: Meta, ok: bool)

  predicate Acceptable(name: Bytes, e: Edit) {
    e.comparator.Some? ==> e.comparator.value == name
  }

  /** The loop of VersionSet::Recover over the first `n` records. */
  function Loaded(name: Bytes, records: seq<Bytes>, n: nat): Loading
    requires n <= |records|
  {
    if n == 0 then Loading([], Meta(None, None, None, None), true)
    else
      var before := Loaded(name, records, n - 1);
      if !before.ok then before
      else
        var d := EditCodec.Decoded(CLEARED, records[n - 1]);
        var ok := d.error.None? && Acceptable(name, d.edit);
        Loading(if ok then before.edits + [d.edit] else before.edits, Noted(before.meta, d.edit), ok)
  }

  datatype Manifest = Manifest(version: Version, logNumber: Dword, prevLogNumber: Dword, nextFileNumber: nat,
                               lastSequence: Dword)

  /** An error, or a version and the numbers to go on with. */
  function Concluded(view: View, l: Loading): Option<Manifest> {
    if !l.ok || l.meta.nextFile.None? || l.meta.logNumber.None? || l.meta.lastSequence.None? then None
    else
      Some(Manifest(
        VersionBuilder.Install(VersionBuilder.EmptyVersion(NUM_LEVELS), AllViewed(view, l.edits)),
        l.meta.logNumber.value,
        if l.meta.prevLogNumber.Some? then l.meta.prevLogNumber.value else 0,
        l.meta.nextFile.value + 1,
        l.meta.lastSequence.value))
  }

  /** A corrupt log is an error; otherwise its records decide. */
  function Recovered(view: View, name: Bytes, log: LogReader.Log): Option<Manifest> {
    if log.reports != [] then None else Concluded(view, Loaded(name, log.records, |log.records|))
  }

  /** VersionSet::Recover, from the contents of the manifest. */
  method Recover(view: View, crc: Crc, name: Bytes, file: Bytes) returns (r: Option<Manifest>)
    ensures r == Recovered(view, name, LogReader.LogFrom(crc, file, 0))
  {
    hide LogReader.LogFrom, EditCodec.Decoded, VersionBuilder.Install, Viewed, Noted;
    var records, reports := LogReader.ReadLog(crc, file);
    var builder := new VersionBuilder.Builder(VersionBuilder.EmptyVersion(NUM_LEVELS));
    var meta, ok := Meta(None, None, None, None), true;
    ghost var edits: seq<Edit> := [];
    assert builder.applied == AllViewed(view, edits);
    for i := 0 to |records|
      invariant builder.Valid() && builder.base == VersionBuilder.EmptyVersion(NUM_LEVELS)
      invariant builder.applied == AllViewed(view, edits) && Loaded(name, records, i) == Loading(edits, meta, ok)
    {
      if ok {
        var d := DecodeFrom(records[i]);
        ok := d.error.None? && Acceptable(name, d.edit);
        if ok {
          builder.Apply(Viewed(view, d.edit));
          assert AllViewed(view, edits + [d.edit]) == AllViewed(view, edits) + [Viewed(view, d.edit)];
          edits := edits + [d.edit];
        }
        meta := Noted(meta, d.edit);
      }
    }
    if |reports| > 0 || !ok || meta.nextFile.None? || meta.logNumber.None? || meta.lastSequence.None? {
      return None;
    }
    var version := builder.SaveTo();
    var prevLogNumber := if meta.prevLogNumber.Some? then meta.prevLogNumber.value else 0;
    r := Some(Manifest(version, meta.logNumber.value, prevLogNumber, meta.nextFile.value + 1, meta.lastSequence.value));
  }

  // ------------------------------------------------------------ torn manifests

  function Records(edits: seq<Edit>): (r: seq<Bytes>)
    ensures |r| == |edits| && forall i :: 0 <= i < |edits| ==> r[i] == Encoded(edits[i])
  {
    seq(|edits|, i requires 0 <= i < |edits| => Encoded(edits[i]))
  }

  ghost predicate Loggable(name: Bytes, edits: seq<Edit>) {
    forall i :: 0 <= i < |edits| ==> Valid(edits[i]) && Acceptable(name, edits[i])
  }

  lemma {:induction false} EditsAreLoaded(name: Bytes, edits: seq<Edit>, records: seq<Bytes>, n: nat)
    requires Loggable(name, edits) && n <= |records| <= |edits| && records == Records(edits)[..|records|]
    ensures Loaded(name, records, n) == Loading(edits[..n], MetaAfter(edits, n), true)
  {
    hide EditCodec.Decoded, Encoded, Noted, Valid, Acceptable;
    if n > 0 {
      EditsAreLoaded(name, edits, records, n - 1);
      assert records[n - 1] == Records(edits)[n - 1] == Encoded(edits[n - 1]);
      EditRoundTrip(edits[n - 1]);
      assert edits[..n] == edits[..n - 1] + [edits[n - 1]];
    }
  }

  /** From a manifest cut at any byte, recovery applies exactly the edits wholly before the cut. */
  lemma TornManifest(view: View, crc: Crc, name: Bytes, edits: seq<Edit>, cut: nat)
    requires Loggable(name, edits) && cut <= |LogOf(crc, Records(edits))|
    ensures var k := Whole(crc, Records(edits), cut);
            k <= |edits|
            && Recovered(view, name, LogReader.LogFrom(crc, LogOf(crc, Records(edits))[..cut], 0))
               == Concluded(view, Loading(edits[..k], MetaAfter(edits, k), true))
  {
    hide LogOf, LogReader.LogFrom, Whole, Loaded, Concluded, MetaAfter, Loggable;
    var k := Whole(crc, Records(edits), cut);
    TornLogReadsItsWholeRecords(crc, Records(edits), cut);
    EditsAreLoaded(name, edits, Records(edits)[..k], k);
  }

  /** What LogAndApply makes sure of before it writes an edit. */
  predicate Stamped(e: Edit) {
    e.logNumber.Some? && e.prevLogNumber.Some? && e.nextFile.Some? && e.lastSequence.Some?
  }

  /** WriteSnapshot sets no numbers. */
  predicate Unstamped(e: Edit) {
    e.logNumber.None? && e.prevLogNumber.None? && e.nextFile.None? && e.lastSequence.None?
  }

  lemma {:induction false} PrefixIsAddedOnce(base: seq<File>, level: nat, edits: seq<VersionBuilder.Edit>, k: nat)
    requires VersionBuilder.AddedOnce(base, level, edits) && k <= |edits|
    ensures VersionBuilder.AddedOnce(base, level, edits[..k])
    decreases |edits|
  {
    if k < |edits| {
      PrefixIsAddedOnce(base, level, edits[..|edits| - 1], k);
      assert edits[..|edits| - 1][..k] == edits[..k];
    } else {
      assert edits[..k] == edits;
    }
  }

  /** What is to be recovered from a snapshot of `v` and the edits behind it when the first `k`
      records are whole. */
  function AfterRecords(view: View, v: Version, edits: seq<Edit>, k: nat): Option<Manifest> {
    if k < 2 || k > |edits| + 1 || !Stamped(edits[k - 2]) then None
    else
      var last := edits[k - 2];
      Some(Manifest(VersionBuilder.InstallEach(v, AllViewed(view, edits[..k - 1])), last.logNumber.value,
                    last.prevLogNumber.value, last.nextFile.value + 1, last.lastSequence.value))
  }

  /** A manifest as a database leaves it: a snapshot of `v`, then edits of LogAndApply. */
  ghost predicate Proper(view: View, name: Bytes, v: Version, snapshot: Edit, edits: seq<Edit>) {
    && Loggable(name, [snapshot] + edits) && Unstamped(snapshot)
    && (forall i :: 0 <= i < |edits| ==> Stamped(edits[i]))
    && |v.levels| == NUM_LEVELS && VersionBuilder.IsSnapshotOf(Viewed(view, snapshot), v)
    && VersionBuilder.Replayable(VersionBuilder.EmptyVersion(NUM_LEVELS), AllViewed(view, [snapshot] + edits))
    && forall l :: 0 <= l < |v.levels| ==>
         VersionBuilder.SortedBySmallest(v.levels[l]) && VersionBuilder.DistinctNumbers(v.levels[l])
  }

  lemma MetaIs(snapshot: Edit, edits: seq<Edit>, k: nat)
    requires 0 < k <= |edits| + 1 && Unstamped(snapshot) && forall i :: 0 <= i < |edits| ==> Stamped(edits[i])
    ensures var meta := MetaAfter([snapshot] + edits, k);
            if k == 1 then meta == Meta(None, None, None, None)
            else meta == Meta(edits[k - 2].logNumber, edits[k - 2].prevLogNumber, edits[k - 2].nextFile,
                edits[k - 2].lastSequence)
  {
    assert ([snapshot] + edits)[k - 1] == if k == 1 then snapshot else edits[k - 2];
    if k > 1 { MetaIs(snapshot, edits, k - 1); }
  }

  lemma VersionIs(view: View, name: Bytes, v: Version, snapshot: Edit, edits: seq<Edit>, k: nat)
    requires Proper(view, name, v, snapshot, edits) && 1 < k <= |edits| + 1
    ensures VersionBuilder.Install(VersionBuilder.EmptyVersion(NUM_LEVELS), AllViewed(view, ([snapshot] + edits)[..k]))
         == VersionBuilder.InstallEach(v, AllViewed(view, edits[..k - 1]))
  {
    hide VersionBuilder.Install, VersionBuilder.InstallEach, VersionBuilder.AddedOnce, Viewed, Loggable,
         VersionBuilder.IsSnapshotOf, VersionBuilder.SortedBySmallest, VersionBuilder.DistinctNumbers;
    var all := [snapshot] + edits;
    var views, some := AllViewed(view, all), AllViewed(view, edits[..k - 1]);
    var empty := VersionBuilder.EmptyVersion(NUM_LEVELS);
    assert views[..k] == [Viewed(view, snapshot)] + some == AllViewed(view, all[..k]);
    forall l | 0 <= l < NUM_LEVELS ensures VersionBuilder.AddedOnce(empty.levels[l], l, views[..k]) {
      PrefixIsAddedOnce(empty.levels[l], l, views, k);
    }
    VersionBuilder.RecoveredVersion(v, Viewed(view, snapshot), some);
  }

  lemma ConcludedIs(view: View, name: Bytes, v: Version, snapshot: Edit, edits: seq<Edit>, k: nat)
    requires Proper(view, name, v, snapshot, edits) && k <= |edits| + 1
    ensures var all := [snapshot] + edits;
            Concluded(view, Loading(all[..k], MetaAfter(all, k), true)) == AfterRecords(view, v, edits, k)
    ensures AfterRecords(view, v, edits, k).Some? <==> k >= 2
  {
    hide VersionBuilder.Install, VersionBuilder.InstallEach, VersionBuilder.Replayable, Viewed, Loggable,
         VersionBuilder.IsSnapshotOf, VersionBuilder.SortedBySmallest, VersionBuilder.DistinctNumbers;
    if k > 0 { MetaIs(snapshot, edits, k); }
    if k > 1 { VersionIs(view, name, v, snapshot, edits, k); }
  }

  /** A manifest that begins with a snapshot of `v` and goes on with the edits of LogAndApply,
      cut at any byte: recovery fails exactly when not even one edit is whole, and otherwise
      rebuilds the version that the last whole edit installed, with that edit's numbers. */
  lemma TornManifestRebuilds(view: View, crc: Crc, name: Bytes, v: Version, snapshot: Edit, edits: seq<Edit>,
                             cut: nat, k: nat)
    requires Proper(view, name, v, snapshot, edits) && cut <= |LogOf(crc, Records([snapshot] + edits))|
    requires k == Whole(crc, Records([snapshot] + edits), cut)
    ensures Recovered(view, name, LogReader.LogFrom(crc, LogOf(crc, Records([snapshot] + edits))[..cut], 0))
         == AfterRecords(view, v, edits, k)
    ensures AfterRecords(view, v, edits, k).Some? <==> k >= 2
  {
    hide LogOf, LogReader.LogFrom, Whole, Recovered, AfterRecords, Concluded, MetaAfter;
    TornManifest(view, crc, name, [snapshot] + edits, cut);
    ConcludedIs(view, name, v, snapshot, edits, k);
  }
}
