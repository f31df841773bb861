/** The physical layout of a log file and the writer (db/log_format.h, db/log_writer.cc). */
module LogWriter {
  import opened DbFormat
  import opened Coding

  const BLOCK: nat := 32768
  const HEADER: nat := 7

  const ZERO_TYPE: byte := 0
  const FULL_TYPE: byte := 1
  const FIRST_TYPE: byte := 2
  const MIDDLE_TYPE: byte := 3
  const LAST_TYPE: byte := 4

  // ----------------------------------------------------- physical records

  function Header(crc: Crc, kind: byte, payload: Bytes): Bytes
    requires |payload| <= 0xffff
  {
    Fixed32(Mask(Value(crc, [kind] + payload))) + [LowByte(|payload|), LowByte(|payload| / 256), kind]
  }

  function Physical(crc: Crc, kind: byte, payload: Bytes): (r: Bytes)
    requires |payload| <= 0xffff
    ensures |r| == HEADER + |payload|
  {
    Header(crc, kind, payload) + payload
  }

  lemma PhysicalParts(crc: Crc, kind: byte, payload: Bytes)
    requires |payload| <= 0xffff
    ensures var r := Physical(crc, kind, payload);
            && |r| == HEADER + |payload| && r[HEADER..] == payload
            && r[4] as int + r[5] as int * 256 == |payload| && r[6] == kind
            && Unmask(DecodeFixed32(r[..4])) == Value(crc, r[6..])
  {
    hide Mask, Unmask, Value, Fixed32, DecodeFixed32;
    var r := Physical(crc, kind, payload);
    var value := Value(crc, [kind] + payload);
    Fixed32RoundTrip(Mask(value));
    UnmaskMask(value);
    assert r[..4] == Fixed32(Mask(value));
    assert r[6..] == [kind] + payload;
  }

  // --------------------------------------------------------------- framing

  /** Offsets run from 0 to the block's end; less than a header's room is a trailer to fill. */
  function Pad(offset: nat): nat
    requires offset <= BLOCK
  {
    if BLOCK - offset < HEADER then BLOCK - offset else 0
  }

  function Zeros(n: nat): Bytes {
    seq(n, i => 0)
  }

  /** Where in its block the next header goes. */
  function Start(offset: nat): (o: nat)
    requires offset <= BLOCK
    ensures o + HEADER <= BLOCK
  {
    if BLOCK - offset < HEADER then 0 else offset
  }

  function KindOf(begin: bool, end: bool): byte {
    if begin && end then FULL_TYPE else if begin then FIRST_TYPE else if end then LAST_TYPE else MIDDLE_TYPE
  }

  /** How much of what is left of a record goes behind the next header. */
  function Fragment(offset: nat, left: nat): (n: nat)
    requires offset <= BLOCK
    ensures n <= left && Start(offset) + HEADER + n <= BLOCK
  {
    var avail := BLOCK - Start(offset) - HEADER;
    if left < avail then left else avail
  }

  /** A header is all that fits in the block. */
  predicate Full(offset: nat)
    requires offset <= BLOCK
  {
    Start(offset) + HEADER == BLOCK
  }

  /** What writing the rest of a record appends to a log that ends at this block offset. */
  function Framed(crc: Crc, offset: nat, data: Bytes, begin: bool): Bytes
    requires offset <= BLOCK
    decreases |data|, Full(offset)
  {
    var n := Fragment(offset, |data|);
    Zeros(Pad(offset)) + Physical(crc, KindOf(begin, n == |data|), data[..n])
      + (if n == |data| then [] else Framed(crc, Start(offset) + HEADER + n, data[n..], false))
  }

  /** The log holding these records, in order. */
  function LogOf(crc: Crc, records: seq<Bytes>): Bytes {
    if records == [] then []
    else
      var log := LogOf(crc, records[..|records| - 1]);
      log + Framed(crc, |log| % BLOCK, records[|records| - 1], true)
  }

  // --------------------------------------------------------------- writer

  /** A block's end may count as offset BLOCK or as offset 0. */
  predicate Aligned(offset: nat, p: nat) {
    offset == p % BLOCK || (offset == BLOCK && p % BLOCK == 0)
  }

  lemma AlignedOn(offset: nat, p: nat, n: nat)
    requires offset <= BLOCK && Aligned(offset, p) && Start(offset) + n <= BLOCK
    ensures Aligned(Start(offset) + n, p + Pad(offset) + n)
  {
  }

  lemma SameAtBlockEnd(crc: Crc, offset: nat, p: nat, data: Bytes, begin: bool)
    requires offset <= BLOCK && Aligned(offset, p)
    ensures Framed(crc, offset, data, begin) == Framed(crc, p % BLOCK, data, begin)
  {
    hide Physical;
  }

  class Writer {
    const crc: Crc
    var dest: Bytes
    var blockOffset: nat

    constructor (crc: Crc)
      ensures Valid() && dest == [] && this.crc == crc
    {
      this.crc := crc;
      dest := [];
      blockOffset := 0;
    }

    ghost predicate Valid()
      reads this
    {
      blockOffset <= BLOCK && Aligned(blockOffset, |dest|)
    }

    /** The checksum of the type byte alone is kept; the payload extends it. */
    method EmitPhysicalRecord(kind: byte, payload: Bytes)
      requires blockOffset + HEADER + |payload| <= BLOCK
      modifies this`dest, this`blockOffset
      ensures dest == old(dest) + Physical(crc, kind, payload)
      ensures blockOffset == old(blockOffset) + HEADER + |payload|
    {
      ExtendOn(crc, 0, [kind], payload);
      var masked := Mask(Extend(crc, Value(crc, [kind]), payload));
      var header := Fixed32(masked) + [LowByte(|payload|), LowByte(|payload| / 256), kind];
      assert header == Header(crc, kind, payload);
      dest := dest + header;
      dest := dest + payload;
      blockOffset := blockOffset + HEADER + |payload|;
    }

    method AddRecord(record: Bytes)
      requires Valid()
      modifies this`dest, this`blockOffset
      ensures Valid() && dest == old(dest) + Framed(crc, |old(dest)| % BLOCK, record, true)
    {
      hide Physical, Framed;
      var rest, begin := record, true;
      ghost var target := dest + Framed(crc, blockOffset, record, true);
      SameAtBlockEnd(crc, blockOffset, |dest|, record, true);
      while true
        invariant Valid() && dest + Framed(crc, blockOffset, rest, begin) == target
        decreases |rest|, Full(blockOffset)
      {
        ghost var log, offset := dest, blockOffset;
        FramedUnfolds(crc, log, offset, rest, begin);
        AlignedOn(offset, |log|, HEADER + Fragment(offset, |rest|));
        var leftover := BLOCK - blockOffset;
        if leftover < HEADER {
          dest := dest + Zeros(leftover);
          blockOffset := 0;
        }
        var avail := BLOCK - blockOffset - HEADER;
        var n := if |rest| < avail then |rest| else avail;
        var end := |rest| == n;
        assert dest == log + Zeros(Pad(offset));
        EmitPhysicalRecord(KindOf(begin, end), rest[..n]);
        if end { break; }
        rest, begin := rest[n..], false;
      }
    }
  }

  lemma FramedUnfolds(crc: Crc, log: Bytes, offset: nat, data: Bytes, begin: bool)
    requires offset <= BLOCK
    ensures var n := Fragment(offset, |data|);
            log + Framed(crc, offset, data, begin)
            == log + Zeros(Pad(offset)) + Physical(crc, KindOf(begin, n == |data|), data[..n])
               + if n == |data| then [] else Framed(crc, Start(offset) + HEADER + n, data[n..], false)
  {
    var n := Fragment(offset, |data|);
    Regroup(log, Zeros(Pad(offset)), Physical(crc, KindOf(begin, n == |data|), data[..n]),
            if n == |data| then [] else Framed(crc, Start(offset) + HEADER + n, data[n..], false));
  }

  lemma Regroup(a: Bytes, b: Bytes, c: Bytes, d: Bytes)
    ensures a + (b + c + d) == a + b + c + d
  {
  }
}
