/** Reading a log back: the physical layer, reassembly of fragments, and the reports of what
    was dropped (db/log_reader.cc), from the beginning of the file with checksums verified. */
module LogReader {
  import opened DbFormat
  import opened Coding
  import opened LogWriter

  datatype Reason =
    | BadRecordLength
    | ChecksumMismatch
    | PartialRecord
    | MissingStart
    | ErrorInMiddle
    | UnknownType

  datatype Report = Report(bytes: nat, reason: Reason)

  // ------------------------------------------------------ physical records

  /** The special record types beyond the ones stored in files. */
  const EOF_TYPE: nat := 5
  const BAD_TYPE: nat := 6

  /** What one call of ReadPhysicalRecord yields, and the position it leaves the reader at. */
  datatype Physical = Physical(kind: nat, fragment: Bytes, next: nat, reports: seq<Report>)

  /** The end of the block that position `p` lies in, cut off at the end of the file. */
  function BlockEnd(file: Bytes, p: nat): nat {
    if p - p % BLOCK + BLOCK <= |file| then p - p % BLOCK + BLOCK else |file|
  }

  /** The rest of the block is too short for a header, and the file goes on to its end. */
  predicate InTrailer(file: Bytes, p: nat) {
    BLOCK - p % BLOCK < HEADER && p - p % BLOCK + BLOCK <= |file|
  }

  function Skip(file: Bytes, p: nat): (q: nat)
    requires p <= |file|
    ensures p <= q <= |file|
  {
    if InTrailer(file, p) then p - p % BLOCK + BLOCK else p
  }

  function ParseAt(crc: Crc, file: Bytes, q: nat, end: nat, eof: bool): (r: Physical)
    requires q <= end <= |file|
    ensures q <= r.next <= end && (r.kind != EOF_TYPE ==> q < r.next)
  {
    if end - q < HEADER then Physical(EOF_TYPE, [], end, [])
    else
      var length := file[q + 4] as int + file[q + 5] as int * 256;
      var kind := file[q + 6];
      if HEADER + length > end - q then
        if eof then Physical(EOF_TYPE, [], end, []) else Physical(BAD_TYPE, [], end, [Report(end - q, BadRecordLength)])
      else if kind == ZERO_TYPE && length == 0 then Physical(BAD_TYPE, [], end, [])
      else if Unmask(DecodeFixed32(file[q..q + 4])) != Value(crc, file[q + 6..q + HEADER + length]) then
        Physical(BAD_TYPE, [], end, [Report(end - q, ChecksumMismatch)])
      else Physical(kind, file[q + HEADER..q + HEADER + length], q + HEADER + length, [])
  }

  /** Reading one physical record at position `p`: the file is short if its last block is. */
  function PhysicalAt(crc: Crc, file: Bytes, p: nat): (r: Physical)
    requires p <= |file|
    ensures p <= r.next <= |file| && (r.kind != EOF_TYPE ==> p < r.next)
  {
    var q := Skip(file, p);
    ParseAt(crc, file, q, BlockEnd(file, q), q - q % BLOCK + BLOCK > |file|)
  }

  // ---------------------------------------------------------- whole records

  datatype Outcome = Outcome(record: Option<Bytes>, next: nat, reports: seq<Report>) {
    function After(earlier: seq<Report>): Outcome {
      this.(reports := earlier + reports)
    }
  }

  function Partial(fragmented: bool, scratch: Bytes): seq<Report> {
    if fragmented && scratch != [] then [Report(|scratch|, PartialRecord)] else []
  }

  /** What one physical record does to the fragments gathered so far: it ends the record, or
      gathering goes on. */
  datatype Turned =
    | Ends(record: Option<Bytes>, more: seq<Report>)
    | GoesOn(fragmented: bool, scratch: Bytes, more: seq<Report>)

  function Turn(kind: nat, fragment: Bytes, fragmented: bool, scratch: Bytes): Turned {
    if kind == FULL_TYPE then Ends(Some(fragment), Partial(fragmented, scratch))
    else if kind == FIRST_TYPE then GoesOn(true, fragment, Partial(fragmented, scratch))
    else if kind == MIDDLE_TYPE then
      if fragmented then GoesOn(true, scratch + fragment, [])
      else GoesOn(false, scratch, [Report(|fragment|, MissingStart)])
    else if kind == LAST_TYPE then
      if fragmented then Ends(Some(scratch + fragment), [])
      else GoesOn(false, scratch, [Report(|fragment|, MissingStart)])
    else if kind == EOF_TYPE then Ends(None, [])
    else if kind == BAD_TYPE then
      if fragmented then GoesOn(false, [], [Report(|scratch|, ErrorInMiddle)]) else GoesOn(false, scratch, [])
    else GoesOn(false, [], [Report(|fragment| + if fragmented then |scratch| else 0, UnknownType)])
  }

  /** The next whole record from position `p` on, given the fragments gathered so far. */
  function RecordAt(crc: Crc, file: Bytes, p: nat, fragmented: bool, scratch: Bytes): (r: Outcome)
    requires p <= |file|
    ensures p <= r.next <= |file| && (r.record.Some? ==> p < r.next)
    decreases |file| - p
  {
    var f := PhysicalAt(crc, file, p);
    match Turn(f.kind, f.fragment, fragmented, scratch)
    case Ends(record, more) => Outcome(record, f.next, f.reports + more)
    case GoesOn(inRecord, gathered, more) => RecordAt(crc, file, f.next, inRecord, gathered).After(f.reports + more)
  }

  lemma TurnIs(crc: Crc, file: Bytes, p: nat, fragmented: bool, scratch: Bytes, reports: seq<Report>)
    requires p <= |file|
    ensures var f := PhysicalAt(crc, file, p);
            RecordAt(crc, file, p, fragmented, scratch).After(reports)
            == match Turn(f.kind, f.fragment, fragmented, scratch)
               case Ends(record, more) => Outcome(record, f.next, reports + f.reports + more)
               case GoesOn(inRecord, gathered, more) =>
                 RecordAt(crc, file, f.next, inRecord, gathered).After(reports + f.reports + more)
    ensures var f := PhysicalAt(crc, file, p);
            Turn(f.kind, f.fragment, fragmented, scratch).GoesOn? ==> p < f.next
    ensures reports + PhysicalAt(crc, file, p).reports + [] == reports + PhysicalAt(crc, file, p).reports
  {
    hide PhysicalAt;
  }

  datatype Log = Log(records: seq<Bytes>, reports: seq<Report>)

  /** Everything that reading record after record from position `p` on yields. */
  function LogFrom(crc: Crc, file: Bytes, p: nat): Log
    requires p <= |file|
    decreases |file| - p
  {
    var r := RecordAt(crc, file, p, false, []);
    if r.record.None? then Log([], r.reports)
    else
      var rest := LogFrom(crc, file, r.next);
      Log([r.record.value] + rest.records, r.reports + rest.reports)
  }

  // ----------------------------------------------------------------- reader

  lemma SameBlock(q: nat, next: nat)
    requires q <= next < q - q % BLOCK + BLOCK
    ensures next - next % BLOCK == q - q % BLOCK
  {
  }

  predicate Short(file: Bytes, q: nat) {
    q - q % BLOCK + BLOCK > |file|
  }

  class Reader {
    const crc: Crc
    const file: Bytes
    var buffer: Bytes
    var endOfBuffer: nat
    var eof: bool
    var reports: seq<Report>

    constructor (crc: Crc, file: Bytes)
      ensures Valid() && Position() == 0 && reports == [] && this.crc == crc && this.file == file
    {
      this.crc, this.file := crc, file;
      buffer, endOfBuffer, eof, reports := [], 0, false, [];
    }

    /** The buffer holds the rest of the block of position `q`. */
    ghost predicate Loaded(q: nat)
      reads this
    {
      q <= |file| && endOfBuffer == BlockEnd(file, q) && buffer == file[q..endOfBuffer] && eof == Short(file, q)
    }

    /** A full block is used up; the next one has not been read. */
    ghost predicate Between(q: nat)
      reads this
    {
      q % BLOCK == 0 && endOfBuffer == q <= |file| && buffer == [] && !eof
    }

    ghost predicate Done()
      reads this
    {
      eof && buffer == [] && endOfBuffer == |file|
    }

    ghost predicate Valid()
      reads this
    {
      |buffer| <= endOfBuffer && Position() <= |file| && (Loaded(Position()) || Between(Position()) || Done())
    }

    ghost function Position(): nat
      requires |buffer| <= endOfBuffer
      reads this
    {
      endOfBuffer - |buffer|
    }

    method ReadBlock()
      requires endOfBuffer <= |file| && endOfBuffer % BLOCK == 0
      modifies this`buffer, this`endOfBuffer, this`eof
      ensures Loaded(old(endOfBuffer)) && |buffer| <= endOfBuffer && Position() == old(endOfBuffer)
    {
      var end := if endOfBuffer + BLOCK <= |file| then endOfBuffer + BLOCK else |file|;
      buffer := file[endOfBuffer..end];
      endOfBuffer := endOfBuffer + |buffer|;
      if |buffer| < BLOCK {
        eof := true;
      } else {
        eof := false;
      }
    }

    method ReportCorruption(bytes: nat, reason: Reason)
      modifies this`reports
      ensures reports == old(reports) + [Report(bytes, reason)]
    {
      reports := reports + [Report(bytes, reason)];
    }

    /** buffer_.remove_prefix */
    method Consume(n: nat)
      requires n <= |buffer| <= endOfBuffer && Loaded(Position())
      modifies this`buffer
      ensures Valid() && Position() == old(Position()) + n
    {
      NextInBlock(file, Position(), n);
      buffer := buffer[n..];
    }

    /** buffer_.clear() */
    method Drop()
      requires |buffer| <= endOfBuffer && Loaded(Position())
      modifies this`buffer
      ensures Valid() && Position() == endOfBuffer
    {
      Consume(|buffer|);
    }

    method ReadPhysicalRecord() returns (kind: nat, fragment: Bytes)
      requires Valid()
      modifies this
      ensures Valid()
      ensures var r := PhysicalAt(crc, file, old(Position()));
              kind == r.kind && fragment == r.fragment && Position() == r.next && reports == old(reports) + r.reports
    {
      hide ParseAt, PhysicalAt;
      ghost var p := Position();
      while |buffer| < HEADER
        invariant Valid() && reports == old(reports)
        invariant PhysicalAt(crc, file, Position()) == PhysicalAt(crc, file, p)
        decreases |file| - endOfBuffer, !eof
      {
        if eof {
          EndsHere(crc, file, Position());
          buffer := [];
          return EOF_TYPE, [];
        }
        if buffer != [] { SkipsTrailer(crc, file, Position()); }
        ReadBlock();
      }
      ghost var q := Position();
      PhysicalParses(crc, file, q);
      kind, fragment := ParseBuffer(q);
    }

    method ParseBuffer(ghost q: nat) returns (kind: nat, fragment: Bytes)
      requires Loaded(q) && HEADER <= |buffer| <= endOfBuffer && Position() == q
      modifies this
      ensures Valid()
      ensures var r := ParseAt(crc, file, q, old(endOfBuffer), old(eof));
              kind == r.kind && fragment == r.fragment && Position() == r.next && reports == old(reports) + r.reports
    {
      var length := buffer[4] as int + buffer[5] as int * 256;
      var stored := buffer[6];
      var dropSize := |buffer|;
      if HEADER + length > |buffer| {
        Drop();
        if !eof {
          ReportCorruption(dropSize, BadRecordLength);
          return BAD_TYPE, [];
        }
        return EOF_TYPE, [];
      }
      if stored == ZERO_TYPE && length == 0 {
        Drop();
        return BAD_TYPE, [];
      }
      assert buffer[..4] == file[q..q + 4];
      assert buffer[6..HEADER + length] == file[q + 6..q + HEADER + length];
      var expected := Unmask(DecodeFixed32(buffer[..4]));
      var actual := Value(crc, buffer[6..HEADER + length]);
      if actual != expected {
        Drop();
        ReportCorruption(dropSize, ChecksumMismatch);
        return BAD_TYPE, [];
      }
      fragment := buffer[HEADER..HEADER + length];
      assert fragment == file[q + HEADER..q + HEADER + length];
      Consume(HEADER + length);
      kind := stored;
    }

    /** `scratch` is the caller's buffer, cleared at the start. */
    method ReadRecord() returns (record: Option<Bytes>)
      requires Valid()
      modifies this
      ensures Valid()
      ensures var r := RecordAt(crc, file, old(Position()), false, []);
              record == r.record && Position() == r.next && reports == old(reports) + r.reports
    {
      hide PhysicalAt, RecordAt;
      var inFragmentedRecord, scratch := false, [];
      ghost var target := RecordAt(crc, file, Position(), false, []).After(reports);
      while true
        invariant Valid()
        invariant RecordAt(crc, file, Position(), inFragmentedRecord, scratch).After(reports) == target
        decreases |file| - Position()
      {
        TurnIs(crc, file, Position(), inFragmentedRecord, scratch, reports);
        var kind, fragment := ReadPhysicalRecord();
        if kind == FULL_TYPE as nat {
          if inFragmentedRecord {
            if scratch != [] { ReportCorruption(|scratch|, PartialRecord); }
          }
          return Some(fragment);
        } else if kind == FIRST_TYPE as nat {
          if inFragmentedRecord {
            if scratch != [] { ReportCorruption(|scratch|, PartialRecord); }
          }
          scratch := fragment;
          inFragmentedRecord := true;
        } else if kind == MIDDLE_TYPE as nat {
          if !inFragmentedRecord {
            ReportCorruption(|fragment|, MissingStart);
          } else {
            scratch := scratch + fragment;
          }
        } else if kind == LAST_TYPE as nat {
          if !inFragmentedRecord {
            ReportCorruption(|fragment|, MissingStart);
          } else {
            scratch := scratch + fragment;
            return Some(scratch);
          }
        } else if kind == EOF_TYPE {
          return None;
        } else if kind == BAD_TYPE {
          if inFragmentedRecord {
            ReportCorruption(|scratch|, ErrorInMiddle);
            inFragmentedRecord := false;
            scratch := [];
          }
        } else {
          ReportCorruption(|fragment| + if inFragmentedRecord then |scratch| else 0, UnknownType);
          inFragmentedRecord := false;
          scratch := [];
        }
      }
    }
  }

  function Behind(records: seq<Bytes>, reports: seq<Report>, rest: Log): Log {
    Log(records + rest.records, reports + rest.reports)
  }

  /** A log file read from start to end, record by record. */
  method ReadLog(crc: Crc, file: Bytes) returns (records: seq<Bytes>, reports: seq<Report>)
    ensures Log(records, reports) == LogFrom(crc, file, 0)
  {
    hide RecordAt;
    var reader := new Reader(crc, file);
    records := [];
    ghost var p, before := 0, [];
    var record := reader.ReadRecord();
    while record.Some?
      invariant reader.Valid() && reader.crc == crc && reader.file == file && p <= |file|
      invariant record == RecordAt(crc, file, p, false, []).record
      invariant reader.Position() == RecordAt(crc, file, p, false, []).next
      invariant reader.reports == before + RecordAt(crc, file, p, false, []).reports
      invariant LogFrom(crc, file, 0) == Behind(records, before, LogFrom(crc, file, p))
      decreases |file| - p
    {
      records := records + [record.value];
      p, before := reader.Position(), reader.reports;
      record := reader.ReadRecord();
    }
    reports := reader.reports;
  }

  lemma NextInBlock(file: Bytes, q: nat, n: nat)
    requires q + n <= BlockEnd(file, q) && q <= |file|
    ensures var next := q + n;
            (next < BlockEnd(file, q) || Short(file, q) ==>
               (next % BLOCK != 0 || next == q ==>
                   BlockEnd(file, next) == BlockEnd(file, q) && Short(file, next) == Short(file, q)))
            && (next % BLOCK == 0 && next != q ==> next == BlockEnd(file, q))
  {
    if q + n < q - q % BLOCK + BLOCK { SameBlock(q, q + n); }
  }

  lemma PhysicalParses(crc: Crc, file: Bytes, q: nat)
    requires q <= |file| && BlockEnd(file, q) - q >= HEADER
    ensures PhysicalAt(crc, file, q) == ParseAt(crc, file, q, BlockEnd(file, q), Short(file, q))
  {
    hide ParseAt;
  }

  lemma SkipsTrailer(crc: Crc, file: Bytes, q: nat)
    requires q <= |file| && BlockEnd(file, q) - q < HEADER && !Short(file, q)
    ensures PhysicalAt(crc, file, q) == PhysicalAt(crc, file, BlockEnd(file, q))
  {
    hide ParseAt;
    assert BlockEnd(file, q) % BLOCK == 0;
  }

  lemma EndsHere(crc: Crc, file: Bytes, q: nat)
    requires q <= |file| && BlockEnd(file, q) - q < HEADER && Short(file, q)
    ensures PhysicalAt(crc, file, q) == Physical(EOF_TYPE, [], |file|, [])
  {
  }
}
