/** A log of write batches, from bytes back to groups of operations
    (db/db_impl.cc:371-448, 1207-1216). */
module BatchLog {
  import opened DbFormat
  import opened Coding
  import opened WriteBatches
  import opened LogWriter
  import LogReader
  import opened LogRoundTrip

  /** What a writer puts in the log: a batch under the sequence number of its first operation. */
  datatype Group = Group(sequence: Dword, ops: seq<BatchOp>)

  ghost predicate Loggable(groups: seq<Group>) {
    forall g :: g in groups ==> |g.ops| < WORD && forall op :: op in g.ops ==> Encodable(op)
  }

  function Records(groups: seq<Group>): seq<Bytes> {
    seq(|groups|, i requires 0 <= i < |groups| => Encoded(groups[i].sequence, groups[i].ops))
  }

  // ---------------------------------------------------------------- replaying

  /** How replaying a log ends: well, with something that the log reader reported, with a record
      too short for a batch, or with a batch that does not parse. */
  datatype End = Fine | Reported | RecordTooSmall | BadBatch(status: Status)

  /** What has been handed to the memtables, and max_sequence. */
  datatype Replay = Replay(groups: seq<Group>, maxSequence: nat, end: End)

  function GroupIn(record: Bytes): Group
    requires |record| >= BATCH_HEADER
  {
    Group(DecodeFixed64(record[..8]), Parsed(record).handled)
  }

  /** Sequence + Count - 1, in 64 bits. */
  function LastSequence(record: Bytes): nat
    requires |record| >= BATCH_HEADER
  {
    (DecodeFixed64(record[..8]) + DecodeFixed32(record[8..12]) - 1) % DWORD
  }

  function Larger(a: nat, b: nat): nat {
    if a < b then b else a
  }

  /** What one record adds, and whether replaying goes on behind it. With paranoid checks the
      first error ends it; without, a record too short is passed over, and a bad batch counts
      like a good one, with the operations before the fault. */
  function WithRecord(r: Replay, paranoid: bool, record: Bytes): Replay {
    if |record| < BATCH_HEADER then r.(end := if paranoid then RecordTooSmall else Fine)
    else
      var inserted := r.(groups := r.groups + [GroupIn(record)]);
      if paranoid && Parsed(record).status != Ok then inserted.(end := BadBatch(Parsed(record).status))
      else inserted.(maxSequence := Larger(r.maxSequence, LastSequence(record)))
  }

  /** The loop of RecoverLogFile from position `p` of the file on. */
  function ReplayFrom(crc: Crc, file: Bytes, p: nat, paranoid: bool, r: Replay): Replay
    requires p <= |file|
    decreases |file| - p
  {
    var read := LogReader.RecordAt(crc, file, p, false, []);
    if paranoid && read.reports != [] then r.(end := Reported)
    else if read.record.None? then r
    else
      var next := WithRecord(r, paranoid, read.record.value);
      if next.end.Fine? then ReplayFrom(crc, file, read.next, paranoid, next) else next
  }

  const NOTHING := Replay([], 0, Fine)

  /** The loop of RecoverLogFile, up to what becomes of full memtables. */
  method ReplayFile(crc: Crc, file: Bytes, paranoid: bool) returns (r: Replay)
    ensures r == ReplayFrom(crc, file, 0, paranoid, NOTHING)
  {
    hide LogReader.RecordAt, Parsed, DecodeFixed64, DecodeFixed32;
    var reader := new LogReader.Reader(crc, file);
    r := NOTHING;
    while true
      invariant reader.Valid() && reader.crc == crc && reader.file == file && r.end.Fine?
      invariant paranoid ==> reader.reports == []
      invariant ReplayFrom(crc, file, reader.Position(), paranoid, r) == ReplayFrom(crc, file, 0, paranoid, NOTHING)
      decreases |file| - reader.Position()
    {
      var before := |reader.reports|;
      var record := reader.ReadRecord();
      if paranoid && |reader.reports| > before {
        return r.(end := Reported);
      }
      if record.None? {
        return;
      }
      if |record.value| < BATCH_HEADER {
        if paranoid {
          return r.(end := RecordTooSmall);
        }
      } else {
        var parsed := Iterate(record.value);
        r := r.(groups := r.groups + [Group(DecodeFixed64(record.value[..8]), parsed.handled)]);
        if paranoid && parsed.status != Ok {
          return r.(end := BadBatch(parsed.status));
        }
        var last := LastSequence(record.value);
        r := r.(maxSequence := Larger(r.maxSequence, last));
      }
    }
  }

  // ------------------------------------------------------------- undamaged logs

  function WithRecords(r: Replay, paranoid: bool, records: seq<Bytes>): Replay
    decreases |records|
  {
    if records == [] || !r.end.Fine? then r else WithRecords(WithRecord(r, paranoid, records[0]), paranoid,
        records[1..])
  }

  /** Where the reader reports nothing, replaying goes through its records. */
  lemma {:induction false} ReplaysRecords(crc: Crc, file: Bytes, p: nat, paranoid: bool, r: Replay)
    requires p <= |file| && LogReader.LogFrom(crc, file, p).reports == [] && r.end.Fine?
    ensures ReplayFrom(crc, file, p, paranoid, r) == WithRecords(r, paranoid, LogReader.LogFrom(crc, file, p).records)
    decreases |file| - p
  {
    hide LogReader.RecordAt, WithRecord;
    var read := LogReader.RecordAt(crc, file, p, false, []);
    if read.record.Some? {
      var rest := LogReader.LogFrom(crc, file, read.next);
      assert LogReader.LogFrom(crc, file, p).records == [read.record.value] + rest.records;
      var next := WithRecord(r, paranoid, read.record.value);
      if next.end.Fine? { ReplaysRecords(crc, file, read.next, paranoid, next); }
    }
  }

  /** The last sequence number of a group. */
  function LastOf(g: Group): nat {
    (g.sequence + |g.ops| - 1) % DWORD
  }

  function MaxLast(groups: seq<Group>, n: nat): nat
    requires n <= |groups|
  {
    if n == 0 then 0 else Larger(MaxLast(groups, n - 1), LastOf(groups[n - 1]))
  }

  lemma GroupIsAdded(r: Replay, paranoid: bool, g: Group)
    requires r.end.Fine? && |g.ops| < WORD && forall op :: op in g.ops ==> Encodable(op)
    ensures WithRecord(r, paranoid, Encoded(g.sequence, g.ops))
         == Replay(r.groups + [g], Larger(r.maxSequence, LastOf(g)), Fine)
  {
    hide GroupIn, LastSequence, Larger, LastOf, Encoded, Parsed;
    PartsOfGroup(g);
  }

  lemma PartsOfGroup(g: Group)
    requires |g.ops| < WORD && forall op :: op in g.ops ==> Encodable(op)
    ensures var record := Encoded(g.sequence, g.ops);
            && |record| >= BATCH_HEADER && Parsed(record).status == Ok
            && GroupIn(record) == g && LastSequence(record) == LastOf(g)
  {
    hide Encoded, Parsed, DecodeFixed64, DecodeFixed32, RecordBytes, CountOf, Encodable;
    EncodedIsParsed(g.sequence, g.ops);
    EncodedParts(g.sequence, g.ops);
    SmallCount(|g.ops|);
  }

  lemma SmallCount(n: nat)
    requires n < WORD
    ensures CountOf(n) == n
  {
  }

  lemma {:induction false} GroupsAreReplayed(groups: seq<Group>, k: nat, paranoid: bool, n: nat)
    requires Loggable(groups) && n <= k <= |groups|
    ensures WithRecords(Replay(groups[..n], MaxLast(groups, n), Fine), paranoid, Records(groups)[n..k])
         == Replay(groups[..k], MaxLast(groups, k), Fine)
    decreases k - n
  {
    hide Encoded, WithRecord;
    var records := Records(groups)[n..k];
    if n < k {
      var g := groups[n];
      assert g in groups;
      GroupIsAdded(Replay(groups[..n], MaxLast(groups, n), Fine), paranoid, g);
      assert groups[..n] + [g] == groups[..n + 1];
      assert records[0] == Encoded(g.sequence, g.ops) && records[1..] == Records(groups)[n + 1..k];
      GroupsAreReplayed(groups, k, paranoid, n + 1);
    }
  }

  /** Cutting a log of groups at any byte loses exactly the groups not wholly before the cut:
      the others come back with their sequence numbers and operations and without an error,
      with paranoid checks or without. */
  lemma TornGroupLog(crc: Crc, groups: seq<Group>, cut: nat, paranoid: bool)
    requires Loggable(groups) && cut <= |LogOf(crc, Records(groups))|
    ensures var k := Whole(crc, Records(groups), cut);
            k <= |groups|
            && ReplayFrom(crc, LogOf(crc, Records(groups))[..cut], 0, paranoid, NOTHING)
               == Replay(groups[..k], MaxLast(groups, k), Fine)
  {
    hide LogOf, LogReader.LogFrom, Whole, ReplayFrom, WithRecords, Loggable;
    var records := Records(groups);
    var k := Whole(crc, records, cut);
    TornLogReadsItsWholeRecords(crc, records, cut);
    ReplaysRecords(crc, LogOf(crc, records)[..cut], 0, paranoid, NOTHING);
    GroupsAreReplayed(groups, k, paranoid, 0);
    assert groups[..0] == [] && records[0..k] == records[..k];
  }
}
