/** What the reader makes of what the writer wrote, whole or cut off at any byte
    (db/log_writer.cc:34-108, db/log_reader.cc:56-271). */
module LogRoundTrip {
  import opened DbFormat
  import opened Coding
  import opened LogWriter
  import LogReader

  // ------------------------------------------------------------- in the file

  /** The bytes `s` lie in the file at `p`. */
  ghost predicate At(file: Bytes, p: nat, s: Bytes) {
    p + |s| <= |file| && forall i :: 0 <= i < |s| ==> file[p + i] == s[i]
  }

  /** The file ends before all of `s`, which would lie at `p`, is written. */
  ghost predicate Torn(file: Bytes, p: nat, s: Bytes) {
    p <= |file| < p + |s| && TornAfter(file, p, s)
  }

  ghost predicate TornAfter(file: Bytes, p: nat, s: Bytes) {
    |file| <= p + |s| && forall i :: p <= i < |file| ==> file[i] == s[i - p]
  }

  lemma PartsLieApart(file: Bytes, p: nat, a: Bytes, b: Bytes, c: Bytes)
    requires At(file, p, a + b + c)
    ensures At(file, p + |a|, b) && At(file, p + |a| + |b|, c)
  {
    forall i | 0 <= i < |b| ensures file[p + |a| + i] == b[i] {
      assert file[p + (|a| + i)] == (a + b + c)[|a| + i];
    }
    forall i | 0 <= i < |c| ensures file[p + |a| + |b| + i] == c[i] {
      assert file[p + (|a| + |b| + i)] == (a + b + c)[|a| + |b| + i];
    }
  }

  lemma TornParts(file: Bytes, p: nat, a: Bytes, b: Bytes, c: Bytes)
    requires Torn(file, p, a + b + c)
    ensures |file| < p + |a| + |b| ==> TornAfter(file, p + |a|, b)
    ensures p + |a| + |b| <= |file| ==> At(file, p + |a|, b) && Torn(file, p + |a| + |b|, c)
  {
    forall i | p <= i < |file| ensures file[i] == (a + b + c)[i - p] {
    }
  }

  // ------------------------------------------------------- one physical record

  /** From the end of what is written, the reader looks where the writer puts its next header. */
  lemma SkipsThePad(file: Bytes, p: nat, offset: nat)
    requires p <= |file| && offset <= BLOCK && Aligned(offset, p) && p + Pad(offset) <= |file|
    ensures LogReader.Skip(file, p) == p + Pad(offset)
    ensures var q, end := p + Pad(offset), p + Pad(offset) - Start(offset) + BLOCK;
            && LogReader.Short(file, q) == (end > |file|)
            && LogReader.BlockEnd(file, q) == if end <= |file| then end else |file|
  {
    assert Start(offset) == (p + Pad(offset)) % BLOCK;
  }

  lemma ReadsPiece(crc: Crc, file: Bytes, p: nat, offset: nat, kind: byte, payload: Bytes)
    requires p <= |file| && offset <= BLOCK && Aligned(offset, p)
    requires Start(offset) + HEADER + |payload| <= BLOCK && kind != ZERO_TYPE
    requires At(file, p + Pad(offset), Physical(crc, kind, payload))
    ensures LogReader.PhysicalAt(crc, file, p)
            == LogReader.Physical(kind, payload, p + Pad(offset) + HEADER + |payload|, [])
  {
    SkipsThePad(file, p, offset);
    var q := p + Pad(offset);
    ParsesPiece(crc, file, q, LogReader.BlockEnd(file, q), LogReader.Short(file, q), kind, payload);
  }

  lemma ParsesPiece(crc: Crc, file: Bytes, q: nat, end: nat, eof: bool, kind: byte, payload: Bytes)
    requires |payload| <= 0xffff && q + HEADER + |payload| <= end <= |file| && kind != ZERO_TYPE
    requires At(file, q, Physical(crc, kind, payload))
    ensures LogReader.ParseAt(crc, file, q, end, eof) == LogReader.Physical(kind, payload, q + HEADER + |payload|, [])
  {
    hide Value, Unmask, DecodeFixed32;
    PhysicalParts(crc, kind, payload);
    var r := Physical(crc, kind, payload);
    assert file[q + 4] == r[4] && file[q + 5] == r[5] && file[q + 6] == r[6];
    assert file[q..q + 4] == r[..4];
    assert file[q + 6..q + HEADER + |payload|] == r[6..];
    assert file[q + HEADER..q + HEADER + |payload|] == r[HEADER..];
  }

  /** A physical record cut off anywhere, even before its first byte, reads as the end. */
  lemma ReadsTornPiece(crc: Crc, file: Bytes, p: nat, offset: nat, kind: byte, payload: Bytes)
    requires p <= |file| && offset <= BLOCK && Aligned(offset, p)
    requires Start(offset) + HEADER + |payload| <= BLOCK
    requires p <= |file| < p + Pad(offset) + HEADER + |payload|
    requires TornAfter(file, p + Pad(offset), Physical(crc, kind, payload))
    ensures LogReader.PhysicalAt(crc, file, p) == LogReader.Physical(LogReader.EOF_TYPE, [], |file|, [])
  {
    if |file| < p + Pad(offset) {
      LogReader.EndsHere(crc, file, p);
    } else {
      SkipsThePad(file, p, offset);
      var q := p + Pad(offset);
      ParsesTornPiece(crc, file, q, kind, payload);
    }
  }

  lemma ParsesTornPiece(crc: Crc, file: Bytes, q: nat, kind: byte, payload: Bytes)
    requires |payload| <= 0xffff && q <= |file| < q + HEADER + |payload|
    requires TornAfter(file, q, Physical(crc, kind, payload))
    ensures LogReader.ParseAt(crc, file, q, |file|, true) == LogReader.Physical(LogReader.EOF_TYPE, [], |file|, [])
  {
    PhysicalParts(crc, kind, payload);
  }

  // ------------------------------------------------------------- one record

  /** What is left of a record after its first fragment. */
  function RestFramed(crc: Crc, offset: nat, data: Bytes): Bytes
    requires offset <= BLOCK
  {
    var n := Fragment(offset, |data|);
    if n == |data| then [] else Framed(crc, Start(offset) + HEADER + n, data[n..], false)
  }

  lemma FramedIs(crc: Crc, offset: nat, data: Bytes, begin: bool)
    requires offset <= BLOCK
    ensures var n := Fragment(offset, |data|);
            Framed(crc, offset, data, begin)
            == Zeros(Pad(offset)) + Physical(crc, KindOf(begin, n == |data|), data[..n]) + RestFramed(crc, offset, data)
  {
    hide Physical;
  }

  lemma EndsWithoutReport(crc: Crc, file: Bytes, p: nat, begin: bool, scratch: Bytes)
    requires p <= |file| && LogReader.PhysicalAt(crc, file, p) == LogReader.Physical(LogReader.EOF_TYPE, [], |file|, [])
    ensures LogReader.RecordAt(crc, file, p, !begin, scratch) == LogReader.Outcome(None, |file|, [])
  {
    hide LogReader.PhysicalAt;
  }

  /** How the reader takes in a fragment of a record whose beginning it has seen. */
  lemma TakesFragment(crc: Crc, file: Bytes, p: nat, begin: bool, end: bool, scratch: Bytes, fragment: Bytes, next: nat)
    requires p <= |file| && (begin ==> scratch == [])
    requires LogReader.PhysicalAt(crc, file, p) == LogReader.Physical(KindOf(begin, end), fragment, next, [])
    ensures LogReader.RecordAt(crc, file, p, !begin, scratch)
            == if end then LogReader.Outcome(Some(scratch + fragment), next, [])
               else LogReader.RecordAt(crc, file, next, true, scratch + fragment)
  {
    hide LogReader.PhysicalAt;
    assert [] + fragment == fragment;
    var r := LogReader.RecordAt(crc, file, next, true, scratch + fragment);
    assert [] + r.reports == r.reports && r.After([]) == r;
  }

  lemma {:induction false} ReadsRecord(crc: Crc, file: Bytes, p: nat, offset: nat, data: Bytes, begin: bool,
                                       scratch: Bytes)
    requires offset <= BLOCK && Aligned(offset, p) && (begin ==> scratch == [])
    requires At(file, p, Framed(crc, offset, data, begin))
    ensures LogReader.RecordAt(crc, file, p, !begin, scratch)
            == LogReader.Outcome(Some(scratch + data), p + |Framed(crc, offset, data, begin)|, [])
    decreases |data|, Full(offset)
  {
    hide Physical, Framed, LogReader.PhysicalAt, LogReader.RecordAt;
    FramedIs(crc, offset, data, begin);
    var n, pad := Fragment(offset, |data|), Zeros(Pad(offset));
    var end, next := n == |data|, Start(offset) + HEADER + n;
    var piece := Physical(crc, KindOf(begin, end), data[..n]);
    PartsLieApart(file, p, pad, piece, RestFramed(crc, offset, data));
    ReadsPiece(crc, file, p, offset, KindOf(begin, end), data[..n]);
    TakesFragment(crc, file, p, begin, end, scratch, data[..n], p + |pad| + |piece|);
    if end {
      assert data[..n] == data && RestFramed(crc, offset, data) == [];
    } else {
      AlignedOn(offset, p, HEADER + n);
      ReadsRecord(crc, file, p + |pad| + |piece|, next, data[n..], false, scratch + data[..n]);
      assert scratch + data[..n] + data[n..] == scratch + data;
    }
  }

  /** A record that is not wholly in the file is dropped without a report. */
  lemma {:induction false} ReadsTornRecord(crc: Crc, file: Bytes, p: nat, offset: nat, data: Bytes, begin: bool,
                                           scratch: Bytes)
    requires offset <= BLOCK && Aligned(offset, p) && (begin ==> scratch == [])
    requires Torn(file, p, Framed(crc, offset, data, begin))
    ensures var r := LogReader.RecordAt(crc, file, p, !begin, scratch); r.record == None && r.reports == []
    decreases |data|, Full(offset)
  {
    hide Physical, Framed, LogReader.PhysicalAt, LogReader.RecordAt;
    FramedIs(crc, offset, data, begin);
    var n, pad := Fragment(offset, |data|), Zeros(Pad(offset));
    var end, next := n == |data|, Start(offset) + HEADER + n;
    var piece := Physical(crc, KindOf(begin, end), data[..n]);
    TornParts(file, p, pad, piece, RestFramed(crc, offset, data));
    if |file| < p + |pad| + |piece| {
      ReadsTornPiece(crc, file, p, offset, KindOf(begin, end), data[..n]);
      EndsWithoutReport(crc, file, p, begin, scratch);
    } else {
      ReadsPiece(crc, file, p, offset, KindOf(begin, end), data[..n]);
      TakesFragment(crc, file, p, begin, end, scratch, data[..n], p + |pad| + |piece|);
      AlignedOn(offset, p, HEADER + n);
      ReadsTornRecord(crc, file, p + |pad| + |piece|, next, data[n..], false, scratch + data[..n]);
    }
  }

  // --------------------------------------------------------------- the log

  /** Where the log stands after the first `i` records. */
  function Mark(crc: Crc, records: seq<Bytes>, i: nat): nat
    requires i <= |records|
  {
    |LogOf(crc, records[..i])|
  }

  lemma {:induction false} LogStartsWith(crc: Crc, records: seq<Bytes>, i: nat, n: nat)
    requires i <= n <= |records|
    ensures LogOf(crc, records[..i]) <= LogOf(crc, records[..n])
    ensures Mark(crc, records, i) <= Mark(crc, records, n)
    decreases n
  {
    hide Framed, LogOf;
    if i < n {
      LogStartsWith(crc, records, i, n - 1);
      NextRecord(crc, records, n - 1);
    }
  }

  lemma NextRecord(crc: Crc, records: seq<Bytes>, i: nat)
    requires i < |records|
    ensures LogOf(crc, records[..i + 1])
            == LogOf(crc, records[..i]) + Framed(crc, Mark(crc, records, i) % BLOCK, records[i], true)
  {
    hide Framed;
    assert records[..i + 1][..i] == records[..i];
  }

  /** How many records lie wholly within the first `cut` bytes of the log. */
  function Whole(crc: Crc, records: seq<Bytes>, cut: nat): (k: nat)
    ensures k <= |records|
  {
    if records == [] || |LogOf(crc, records)| <= cut then |records| else Whole(crc, records[..|records| - 1], cut)
  }

  lemma {:induction false} WholeIs(crc: Crc, records: seq<Bytes>, cut: nat)
    ensures var k := Whole(crc, records, cut);
            Mark(crc, records, k) <= cut && (k < |records| ==> cut < Mark(crc, records, k + 1))
  {
    hide Framed;
    assert records[..|records|] == records;
    if records != [] && |LogOf(crc, records)| > cut {
      var shorter := records[..|records| - 1];
      WholeIs(crc, shorter, cut);
      var k := Whole(crc, shorter, cut);
      assert records[..k] == shorter[..k];
      assert k < |shorter| ==> records[..k + 1] == shorter[..k + 1];
    }
  }

  lemma WholeRecordIsThere(crc: Crc, records: seq<Bytes>, file: Bytes, i: nat)
    requires i < |records| && file <= LogOf(crc, records) && Mark(crc, records, i + 1) <= |file|
    ensures At(file, Mark(crc, records, i), Framed(crc, Mark(crc, records, i) % BLOCK, records[i], true))
    ensures Mark(crc, records, i) + |Framed(crc, Mark(crc, records, i) % BLOCK, records[i], true)|
            == Mark(crc, records, i + 1)
  {
    hide Framed, LogOf;
    NextRecord(crc, records, i);
    LogStartsWith(crc, records, i + 1, |records|);
    assert records[..|records|] == records;
  }

  lemma TornRecordIsThere(crc: Crc, records: seq<Bytes>, file: Bytes, i: nat)
    requires i < |records| && file <= LogOf(crc, records)
    requires Mark(crc, records, i) <= |file| < Mark(crc, records, i + 1)
    ensures Torn(file, Mark(crc, records, i), Framed(crc, Mark(crc, records, i) % BLOCK, records[i], true))
  {
    hide Framed, LogOf;
    NextRecord(crc, records, i);
    LogStartsWith(crc, records, i + 1, |records|);
    assert records[..|records|] == records;
  }

  lemma NothingAtTheEnd(crc: Crc, file: Bytes)
    ensures LogReader.RecordAt(crc, file, |file|, false, []) == LogReader.Outcome(None, |file|, [])
  {
    LogReader.EndsHere(crc, file, |file|);
    EndsWithoutReport(crc, file, |file|, true, []);
  }

  lemma {:induction false} ReadsFrom(crc: Crc, records: seq<Bytes>, file: Bytes, i: nat)
    requires file <= LogOf(crc, records) && i <= Whole(crc, records, |file|)
    ensures Mark(crc, records, i) <= |file|
    ensures LogReader.LogFrom(crc, file, Mark(crc, records, i))
            == LogReader.Log(records[i..Whole(crc, records, |file|)], [])
    decreases |records| - i
  {
    hide Framed, LogOf, Whole, LogReader.RecordAt;
    var k, p := Whole(crc, records, |file|), Mark(crc, records, i);
    WholeIs(crc, records, |file|);
    LogStartsWith(crc, records, i, k);
    if i < k {
      LogStartsWith(crc, records, i + 1, k);
      WholeRecordIsThere(crc, records, file, i);
      ReadsRecord(crc, file, p, p % BLOCK, records[i], true, []);
      ReadsFrom(crc, records, file, i + 1);
      assert [] + records[i] == records[i];
      assert records[i..k] == [records[i]] + records[i + 1..k];
    } else if i < |records| {
      TornRecordIsThere(crc, records, file, i);
      ReadsTornRecord(crc, file, p, p % BLOCK, records[i], true, []);
    } else {
      assert records[..i] == records;
      NothingAtTheEnd(crc, file);
    }
  }

  /** A log cut off at any byte reads as the records wholly before the cut, and nothing is
      reported as corrupt. */
  lemma TornLogReadsItsWholeRecords(crc: Crc, records: seq<Bytes>, cut: nat)
    requires cut <= |LogOf(crc, records)|
    ensures LogReader.LogFrom(crc, LogOf(crc, records)[..cut], 0)
            == LogReader.Log(records[..Whole(crc, records, cut)], [])
  {
    hide Framed;
    assert records[..0] == [];
    ReadsFrom(crc, records, LogOf(crc, records)[..cut], 0);
    assert records[0..Whole(crc, records, cut)] == records[..Whole(crc, records, cut)];
  }

  lemma LogReadsItsRecords(crc: Crc, records: seq<Bytes>)
    ensures LogReader.LogFrom(crc, LogOf(crc, records), 0) == LogReader.Log(records, [])
  {
    hide Framed;
    var log := LogOf(crc, records);
    TornLogReadsItsWholeRecords(crc, records, |log|);
    assert log[..|log|] == log && records[..|records|] == records;
  }

  /** Writing records one after the other and reading the file back. */
  method WriteAndRead(crc: Crc, records: seq<Bytes>, cut: nat)
    returns (log: Bytes, back: seq<Bytes>, reports: seq<LogReader.Report>)
    ensures log == LogOf(crc, records)
    ensures cut <= |log| ==> back == records[..Whole(crc, records, cut)] && reports == []
    ensures cut >= |log| ==> back == records && reports == []
  {
    hide Framed;
    var writer := new Writer(crc);
    for i := 0 to |records|
      invariant writer.Valid() && writer.crc == crc && writer.dest == LogOf(crc, records[..i])
    {
      NextRecord(crc, records, i);
      writer.AddRecord(records[i]);
    }
    assert records[..|records|] == records;
    log := writer.dest;
    if cut < |log| {
      TornLogReadsItsWholeRecords(crc, records, cut);
      back, reports := LogReader.ReadLog(crc, log[..cut]);
    } else {
      LogReadsItsRecords(crc, records);
      back, reports := LogReader.ReadLog(crc, log);
    }
  }
}
