/** Version edits as bytes (db/version_edit.cc:12-205). */
module EditCodec {
  import opened DbFormat
  import opened Coding

  /** A file's metadata as the manifest stores it; internal keys are byte strings here. */
  datatype FileRecord = FileRecord(level: nat, number: Dword, size: Dword, smallest: Bytes, largest: Bytes)

  datatype CompactPointer = CompactPointer(level: nat, key: Bytes)

  datatype Deleted = Deleted(level: nat, number: Dword)

  /** deleted_files_ is a std::set: ascending, without repetitions. */
  datatype Edit = Edit(
    comparator: Option<Bytes>,
    logNumber: Option<Dword>,
    prevLogNumber: Option<Dword>,
    nextFile: Option<Dword>,
    lastSequence: Option<Dword>,
    compactPointers: seq<CompactPointer>,
    deleted: seq<Deleted>,
    newFiles: seq<FileRecord>)

  /** Clear, on a new edit: compact_pointers_ is empty. */
  const CLEARED := Edit(None, None, None, None, None, [], [], [])

  predicate Before(a: Deleted, b: Deleted) {
    a.level < b.level || (a.level == b.level && a.number < b.number)
  }

  ghost predicate Ascending(ds: seq<Deleted>) {
    forall i, j :: 0 <= i < j < |ds| ==> Before(ds[i], ds[j])
  }

  /** Insertion into the std::set. */
  function InsertDeleted(ds: seq<Deleted>, d: Deleted): seq<Deleted> {
    if ds == [] then [d]
    else
      var n := |ds| - 1;
      if Before(ds[n], d) then ds + [d]
      else if ds[n] == d then ds
      else InsertDeleted(ds[..n], d) + [ds[n]]
  }

  // ---------------------------------------------------------------- fields

  datatype Field =
    | ComparatorField(name: Bytes)
    | LogNumberField(number: Dword)
    | PrevLogNumberField(number: Dword)
    | NextFileField(number: Dword)
    | LastSequenceField(number: Dword)
    | CompactPointerField(pointer: CompactPointer)
    | DeletedField(deleted: Deleted)
    | NewFileField(file: FileRecord)

  function TagOf(f: Field): Word {
    match f
    case ComparatorField(_) => 1
    case LogNumberField(_) => 2
    case NextFileField(_) => 3
    case LastSequenceField(_) => 4
    case CompactPointerField(_) => 5
    case DeletedField(_) => 6
    case NewFileField(_) => 7
    case PrevLogNumberField(_) => 9
  }

  function Payload(f: Field): Bytes {
    match f
    case ComparatorField(name) => LengthPrefixed(name)
    case LogNumberField(n) => Varint(n)
    case PrevLogNumberField(n) => Varint(n)
    case NextFileField(n) => Varint(n)
    case LastSequenceField(n) => Varint(n)
    case CompactPointerField(p) => Varint(p.level % WORD) + LengthPrefixed(p.key)
    case DeletedField(d) => Varint(d.level % WORD) + Varint(d.number)
    case NewFileField(m) =>
      Varint(m.level % WORD)
      + (Varint(m.number) + (Varint(m.size) + (LengthPrefixed(m.smallest) + LengthPrefixed(m.largest))))
  }

  function FieldBytes(f: Field): Bytes {
    Varint(TagOf(f)) + Payload(f)
  }

  /** Levels are levels, and strings have 32-bit lengths. */
  predicate Writable(f: Field) {
    match f
    case ComparatorField(name) => |name| < WORD
    case CompactPointerField(p) => p.level < NUM_LEVELS && |p.key| < WORD
    case DeletedField(d) => d.level < NUM_LEVELS
    case NewFileField(m) => m.level < NUM_LEVELS && |m.smallest| < WORD && |m.largest| < WORD
    case _ => true
  }

  // --------------------------------------------------------------- encoding

  function OptionalFields(e: Edit): seq<Field> {
    (if e.comparator.Some? then [ComparatorField(e.comparator.value)] else [])
    + (if e.logNumber.Some? then [LogNumberField(e.logNumber.value)] else [])
    + (if e.prevLogNumber.Some? then [PrevLogNumberField(e.prevLogNumber.value)] else [])
    + (if e.nextFile.Some? then [NextFileField(e.nextFile.value)] else [])
    + (if e.lastSequence.Some? then [LastSequenceField(e.lastSequence.value)] else [])
  }

  function FieldsOf(e: Edit): seq<Field> {
    OptionalFields(e)
    + seq(|e.compactPointers|, i requires 0 <= i < |e.compactPointers| => CompactPointerField(e.compactPointers[i]))
    + seq(|e.deleted|, i requires 0 <= i < |e.deleted| => DeletedField(e.deleted[i]))
    + seq(|e.newFiles|, i requires 0 <= i < |e.newFiles| => NewFileField(e.newFiles[i]))
  }

  function AllBytes(fields: seq<Field>): Bytes {
    if fields == [] then [] else FieldBytes(fields[0]) + AllBytes(fields[1..])
  }

  /** VersionEdit::EncodeTo */
  function Encoded(e: Edit): Bytes {
    AllBytes(FieldsOf(e))
  }

  // --------------------------------------------------------------- decoding

  function GetLevel(input: Bytes): (r: Option<Got<nat>>)
    ensures r.Some? ==> |r.value.rest| < |input| && r.value.value < NUM_LEVELS
  {
    match GetWord(input)
    case None => None
    case Some(g) => if g.value < NUM_LEVELS then Some(Got(g.value, g.rest)) else None
  }

  function GetNumber(input: Bytes, make: Dword -> Field): (r: Option<Got<Field>>)
    ensures r.Some? ==> |r.value.rest| < |input|
  {
    match GetDword(input)
    case None => None
    case Some(g) => Some(Got(make(g.value), g.rest))
  }

  function GetFile(input: Bytes): (r: Option<Got<Field>>)
    ensures r.Some? ==> |r.value.rest| < |input|
  {
    match GetLevel(input)
    case None => None
    case Some(level) =>
      match GetDword(level.rest)
      case None => None
      case Some(number) =>
        match GetDword(number.rest)
        case None => None
        case Some(size) =>
          match GetLengthPrefixed(size.rest)
          case None => None
          case Some(smallest) =>
            match GetLengthPrefixed(smallest.rest)
            case None => None
            case Some(largest) =>
              Some(Got(NewFileField(FileRecord(level.value, number.value, size.value, smallest.value, largest.value)),
                  largest.rest))
  }

  /** The payload behind a tag. */
  function GetPayload(tag: Word, input: Bytes): (r: Option<Got<Field>>)
    ensures r.Some? ==> |r.value.rest| < |input|
  {
    if tag == 1 then
      match GetLengthPrefixed(input)
      case None => None
      case Some(g) => Some(Got(ComparatorField(g.value), g.rest))
    else if tag == 2 then GetNumber(input, (n: Dword) => LogNumberField(n))
    else if tag == 9 then GetNumber(input, (n: Dword) => PrevLogNumberField(n))
    else if tag == 3 then GetNumber(input, (n: Dword) => NextFileField(n))
    else if tag == 4 then GetNumber(input, (n: Dword) => LastSequenceField(n))
    else if tag == 5 then
      match GetLevel(input)
      case None => None
      case Some(level) =>
        match GetLengthPrefixed(level.rest)
        case None => None
        case Some(key) => Some(Got(CompactPointerField(CompactPointer(level.value, key.value)), key.rest))
    else if tag == 6 then
      match GetLevel(input)
      case None => None
      case Some(level) => GetNumber(level.rest, (n: Dword) => DeletedField(Deleted(level.value, n)))
    else if tag == 7 then GetFile(input)
    else None
  }

  function Apply(e: Edit, f: Field): Edit {
    match f
    case ComparatorField(name) => e.(comparator := Some(name))
    case LogNumberField(n) => e.(logNumber := Some(n))
    case PrevLogNumberField(n) => e.(prevLogNumber := Some(n))
    case NextFileField(n) => e.(nextFile := Some(n))
    case LastSequenceField(n) => e.(lastSequence := Some(n))
    case CompactPointerField(p) => e.(compactPointers := e.compactPointers + [p])
    case DeletedField(d) => e.(deleted := InsertDeleted(e.deleted, d))
    case NewFileField(m) => e.(newFiles := e.newFiles + [m])
  }

  /** What the error message names. */
  datatype Complaint =
    | ComparatorName
    | LogNumber
    | PreviousLogNumber
    | NextFileNumber
    | LastSequenceNumber
    | CompactionPointer
    | DeletedFile
    | NewFileEntry
    | UnknownTag
    | InvalidTag

  function ComplaintOf(tag: Word): Complaint {
    if tag == 1 then ComparatorName
    else if tag == 2 then LogNumber
    else if tag == 9 then PreviousLogNumber
    else if tag == 3 then NextFileNumber
    else if tag == 4 then LastSequenceNumber
    else if tag == 5 then CompactionPointer
    else if tag == 6 then DeletedFile
    else if tag == 7 then NewFileEntry
    else UnknownTag
  }

  /** The fields read before the input ends or goes wrong, and what is wrong with it. */
  datatype Result = Result(edit: Edit, error: Option<Complaint>)

  function AtEnd(input: Bytes): Option<Complaint> {
    if input == [] then None else Some(InvalidTag)
  }

  function Decoded(e: Edit, input: Bytes): Result
    decreases |input|
  {
    match GetWord(input)
    case None => Result(e, AtEnd(input))
    case Some(tag) =>
      match GetPayload(tag.value, tag.rest)
      case None => Result(e, Some(ComplaintOf(tag.value)))
      case Some(field) => Decoded(Apply(e, field.value), field.rest)
  }

  /** VersionEdit::DecodeFrom, into a new edit. */
  method DecodeFrom(src: Bytes) returns (r: Result)
    ensures r == Decoded(CLEARED, src)
  {
    hide GetPayload, Coding.GetWord, Apply;
    var input, edit := src, CLEARED;
    var tag := GetWord(input);
    while tag.Some?
      invariant tag == GetWord(input) && Decoded(edit, input) == Decoded(CLEARED, src)
      decreases |input|
    {
      var field := GetPayload(tag.value.value, tag.value.rest);
      if field.None? {
        return Result(edit, Some(ComplaintOf(tag.value.value)));
      }
      edit, input := Apply(edit, field.value.value), field.value.rest;
      tag := GetWord(input);
    }
    r := Result(edit, AtEnd(input));
  }

  /** VersionEdit::EncodeTo */
  method EncodeTo(e: Edit) returns (dst: Bytes)
    ensures dst == Encoded(e)
  {
    hide FieldBytes, FieldsOf;
    var fields := FieldsOf(e);
    dst := [];
    for i := 0 to |fields|
      invariant dst + AllBytes(fields[i..]) == Encoded(e)
    {
      dst := dst + FieldBytes(fields[i]);
      assert fields[i..][1..] == fields[i + 1..];
    }
  }

  // ------------------------------------------------------------- round trip

  lemma LevelIsGot(level: nat, rest: Bytes)
    requires level < NUM_LEVELS
    ensures GetLevel(Varint(level % WORD) + rest) == Some(Got(level, rest))
  {
    hide Varint, Coding.GetWord;
    WordIsGot(level, rest);
  }

  lemma FileIsGot(m: FileRecord, rest: Bytes)
    requires Writable(NewFileField(m))
    ensures GetFile(Payload(NewFileField(m)) + rest) == Some(Got(NewFileField(m), rest))
  {
    hide Varint, Coding.GetWord, Coding.GetDword, GetLengthPrefixed, LengthPrefixed, GetLevel;
    var e := LengthPrefixed(m.largest) + rest;
    var d := LengthPrefixed(m.smallest) + e;
    var c := Varint(m.size) + d;
    var b := Varint(m.number) + c;
    LevelIsGot(m.level, b);
    DwordIsGot(m.number, c);
    DwordIsGot(m.size, d);
    PrefixedIsGot(m.smallest, e);
    PrefixedIsGot(m.largest, rest);
    assert Payload(NewFileField(m)) + rest == Varint(m.level % WORD) + b;
  }

  lemma PayloadIsGot(f: Field, rest: Bytes)
    requires Writable(f)
    ensures GetPayload(TagOf(f), Payload(f) + rest) == Some(Got(f, rest))
  {
    hide Varint, Coding.GetWord, Coding.GetDword, GetLengthPrefixed, LengthPrefixed, GetLevel, GetFile;
    match f
    case ComparatorField(name) => PrefixedIsGot(name, rest);
    case LogNumberField(n) => DwordIsGot(n, rest);
    case PrevLogNumberField(n) => DwordIsGot(n, rest);
    case NextFileField(n) => DwordIsGot(n, rest);
    case LastSequenceField(n) => DwordIsGot(n, rest);
    case CompactPointerField(p) =>
      LevelIsGot(p.level, LengthPrefixed(p.key) + rest);
      PrefixedIsGot(p.key, rest);
      assert Payload(f) + rest == Varint(p.level % WORD) + (LengthPrefixed(p.key) + rest);
    case DeletedField(d) =>
      LevelIsGot(d.level, Varint(d.number) + rest);
      DwordIsGot(d.number, rest);
      assert Payload(f) + rest == Varint(d.level % WORD) + (Varint(d.number) + rest);
    case NewFileField(m) => FileIsGot(m, rest);
  }

  function ApplyAll(e: Edit, fields: seq<Field>): Edit
    decreases |fields|
  {
    if fields == [] then e else ApplyAll(Apply(e, fields[0]), fields[1..])
  }

  lemma {:induction false} FieldsAreDecoded(e: Edit, fields: seq<Field>)
    requires forall f :: f in fields ==> Writable(f)
    ensures Decoded(e, AllBytes(fields)) == Result(ApplyAll(e, fields), None)
    decreases |fields|
  {
    hide Payload, GetPayload, Coding.GetWord, Varint, Apply, TagOf;
    if fields == [] {
      NothingToGet();
    } else {
      var f, rest := fields[0], AllBytes(fields[1..]);
      WordIsGot(TagOf(f), Payload(f) + rest);
      PayloadIsGot(f, rest);
      assert AllBytes(fields) == Varint(TagOf(f)) + (Payload(f) + rest);
      FieldsAreDecoded(Apply(e, f), fields[1..]);
    }
  }

  lemma NothingToGet()
    ensures GetWord([]) == None
  {
  }

  lemma {:induction false} ApplyBoth(e: Edit, a: seq<Field>, b: seq<Field>)
    ensures ApplyAll(e, a + b) == ApplyAll(ApplyAll(e, a), b)
    decreases |a|
  {
    hide Apply;
    if a == [] {
      assert a + b == b;
    } else {
      assert (a + b)[1..] == a[1..] + b;
      ApplyBoth(Apply(e, a[0]), a[1..], b);
    }
  }

  lemma {:induction false} PointersApply(e: Edit, ps: seq<CompactPointer>, fields: seq<Field>)
    requires |fields| == |ps| && forall i :: 0 <= i < |ps| ==> fields[i] == CompactPointerField(ps[i])
    ensures ApplyAll(e, fields) == e.(compactPointers := e.compactPointers + ps)
    decreases |ps|
  {
    if ps == [] {
      assert e.compactPointers + ps == e.compactPointers;
    } else {
      PointersApply(Apply(e, fields[0]), ps[1..], fields[1..]);
      assert e.compactPointers + [ps[0]] + ps[1..] == e.compactPointers + ps;
    }
  }

  lemma {:induction false} FilesApply(e: Edit, ms: seq<FileRecord>, fields: seq<Field>)
    requires |fields| == |ms| && forall i :: 0 <= i < |ms| ==> fields[i] == NewFileField(ms[i])
    ensures ApplyAll(e, fields) == e.(newFiles := e.newFiles + ms)
    decreases |ms|
  {
    if ms == [] {
      assert e.newFiles + ms == e.newFiles;
    } else {
      FilesApply(Apply(e, fields[0]), ms[1..], fields[1..]);
      assert e.newFiles + [ms[0]] + ms[1..] == e.newFiles + ms;
    }
  }

  lemma {:induction false} DeletionsApply(e: Edit, ds: seq<Deleted>, fields: seq<Field>)
    requires |fields| == |ds| && forall i :: 0 <= i < |ds| ==> fields[i] == DeletedField(ds[i])
    requires Ascending(e.deleted + ds)
    ensures ApplyAll(e, fields) == e.(deleted := e.deleted + ds)
    decreases |ds|
  {
    if ds == [] {
      assert e.deleted + ds == e.deleted;
    } else {
      var all := e.deleted + ds;
      assert all[|e.deleted|] == ds[0];
      assert e.deleted != [] ==> Before(all[|e.deleted| - 1], all[|e.deleted|]);
      assert Apply(e, fields[0]) == e.(deleted := e.deleted + [ds[0]]);
      assert e.deleted + [ds[0]] + ds[1..] == all;
      DeletionsApply(Apply(e, fields[0]), ds[1..], fields[1..]);
    }
  }

  lemma OptionalsApply(e: Edit)
    ensures ApplyAll(CLEARED, OptionalFields(e)) == e.(compactPointers := [], deleted := [], newFiles := [])
  {
    var a := if e.comparator.Some? then [ComparatorField(e.comparator.value)] else [];
    var b := if e.logNumber.Some? then [LogNumberField(e.logNumber.value)] else [];
    var c := if e.prevLogNumber.Some? then [PrevLogNumberField(e.prevLogNumber.value)] else [];
    var d := if e.nextFile.Some? then [NextFileField(e.nextFile.value)] else [];
    var f := if e.lastSequence.Some? then [LastSequenceField(e.lastSequence.value)] else [];
    ApplyBoth(CLEARED, a + b + c + d, f);
    ApplyBoth(CLEARED, a + b + c, d);
    ApplyBoth(CLEARED, a + b, c);
    ApplyBoth(CLEARED, a, b);
  }

  ghost predicate Valid(e: Edit) {
    Ascending(e.deleted) && forall f :: f in FieldsOf(e) ==> Writable(f)
  }

  /** Decoding what was encoded gives back the edit. */
  lemma EditRoundTrip(e: Edit)
    requires Valid(e)
    ensures Decoded(CLEARED, Encoded(e)) == Result(e, None)
  {
    hide OptionalFields, Writable, Apply, AllBytes, ApplyAll;
    FieldsAreDecoded(CLEARED, FieldsOf(e));
    FieldsRestore(e);
  }

  lemma FieldsRestore(e: Edit)
    requires Ascending(e.deleted)
    ensures ApplyAll(CLEARED, FieldsOf(e)) == e
  {
    hide OptionalFields, Apply, ApplyAll;
    var pointers := seq(|e.compactPointers|,
                        i requires 0 <= i < |e.compactPointers| => CompactPointerField(e.compactPointers[i]));
    var deletions := seq(|e.deleted|, i requires 0 <= i < |e.deleted| => DeletedField(e.deleted[i]));
    var files := seq(|e.newFiles|, i requires 0 <= i < |e.newFiles| => NewFileField(e.newFiles[i]));
    var bare := e.(compactPointers := [], deleted := [], newFiles := []);
    ApplyBoth(CLEARED, OptionalFields(e) + pointers + deletions, files);
    ApplyBoth(CLEARED, OptionalFields(e) + pointers, deletions);
    ApplyBoth(CLEARED, OptionalFields(e), pointers);
    OptionalsApply(e);
    PointersApply(bare, e.compactPointers, pointers);
    assert [] + e.compactPointers == e.compactPointers && [] + e.deleted == e.deleted && [] + e.newFiles == e.newFiles;
    DeletionsApply(bare.(compactPointers := e.compactPointers), e.deleted, deletions);
    FilesApply(e.(newFiles := []), e.newFiles, files);
  }
}
