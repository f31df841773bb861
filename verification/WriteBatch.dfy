/** Write batches as bytes (db/write_batch.cc). */
module WriteBatches {
  import opened DbFormat
  import opened Coding

  datatype BatchOp = Put(key: Bytes, value: Bytes) | Delete(key: Bytes)

  const BATCH_HEADER: nat := 12
  const TYPE_DELETION: byte := 0
  const TYPE_VALUE: byte := 1

  predicate Encodable(op: BatchOp) {
    |op.key| < WORD && (op.Put? ==> |op.value| < WORD)
  }

  function OpBytes(op: BatchOp): (s: Bytes)
    ensures s != []
  {
    match op
    case Put(key, value) => [TYPE_VALUE] + (LengthPrefixed(key) + LengthPrefixed(value))
    case Delete(key) => [TYPE_DELETION] + LengthPrefixed(key)
  }

  function RecordBytes(ops: seq<BatchOp>): Bytes {
    if ops == [] then [] else RecordBytes(ops[..|ops| - 1]) + OpBytes(ops[|ops| - 1])
  }

  /** The count is kept in 32 bits. */
  function CountOf(n: nat): Word {
    n % WORD
  }

  function Plus(a: Word, b: Word): Word {
    (a + b) % WORD
  }

  /** rep_: the sequence number, the count, the records. */
  function Encoded(sequence: Dword, ops: seq<BatchOp>): Bytes {
    Fixed64(sequence) + Fixed32(CountOf(|ops|)) + RecordBytes(ops)
  }

  // ---------------------------------------------------------------- reading

  datatype Status = Ok | TooSmall | BadPut | BadDelete | UnknownTag | WrongCount

  /** What the handler was given, and how the iteration ended. */
  datatype Outcome = Outcome(handled: seq<BatchOp>, status: Status)

  function Iterated(input: Bytes, handled: seq<BatchOp>, count: nat): Outcome
    decreases |input|
  {
    if input == [] then Outcome(handled, if |handled| == count then Ok else WrongCount)
    else if input[0] == TYPE_VALUE then
      match GetLengthPrefixed(input[1..])
      case None => Outcome(handled, BadPut)
      case Some(key) =>
        match GetLengthPrefixed(key.rest)
        case None => Outcome(handled, BadPut)
        case Some(value) => Iterated(value.rest, handled + [Put(key.value, value.value)], count)
    else if input[0] == TYPE_DELETION then
      match GetLengthPrefixed(input[1..])
      case None => Outcome(handled, BadDelete)
      case Some(key) => Iterated(key.rest, handled + [Delete(key.value)], count)
    else Outcome(handled, UnknownTag)
  }

  function Parsed(rep: Bytes): Outcome {
    if |rep| < BATCH_HEADER then Outcome([], TooSmall)
    else Iterated(rep[BATCH_HEADER..], [], DecodeFixed32(rep[8..12]))
  }

  /** WriteBatch::Iterate: one tagged record after another, until the input is used up or bad. */
  method Iterate(rep: Bytes) returns (r: Outcome)
    ensures r == Parsed(rep)
  {
    hide GetLengthPrefixed;
    if |rep| < BATCH_HEADER {
      return Outcome([], TooSmall);
    }
    var input, handled: seq<BatchOp>, count := rep[BATCH_HEADER..], [], DecodeFixed32(rep[8..12]);
    while input != []
      invariant Iterated(input, handled, count) == Parsed(rep)
      decreases |input|
    {
      var tag := input[0];
      input := input[1..];
      if tag == TYPE_VALUE {
        var key := GetLengthPrefixed(input);
        if key.None? { return Outcome(handled, BadPut); }
        var value := GetLengthPrefixed(key.value.rest);
        if value.None? { return Outcome(handled, BadPut); }
        handled, input := handled + [BatchOp.Put(key.value.value, value.value.value)], value.value.rest;
      } else if tag == TYPE_DELETION {
        var key := GetLengthPrefixed(input);
        if key.None? { return Outcome(handled, BadDelete); }
        handled, input := handled + [BatchOp.Delete(key.value.value)], key.value.rest;
      } else {
        return Outcome(handled, UnknownTag);
      }
    }
    r := Outcome(handled, if |handled| == count then Ok else WrongCount);
  }

  lemma {:induction false} RecordsOfBoth(a: seq<BatchOp>, b: seq<BatchOp>)
    ensures RecordBytes(a + b) == RecordBytes(a) + RecordBytes(b)
  {
    hide OpBytes;
    if b == [] {
      assert a + b == a;
    } else {
      var n := |b| - 1;
      assert (a + b)[..|a + b| - 1] == a + b[..n];
      RecordsOfBoth(a, b[..n]);
    }
  }

  lemma FirstRecord(op: BatchOp, ops: seq<BatchOp>)
    ensures RecordBytes([op] + ops) == OpBytes(op) + RecordBytes(ops)
  {
    hide OpBytes;
    RecordsOfBoth([op], ops);
    assert [op][..0] == [] && RecordBytes([op]) == RecordBytes([]) + OpBytes(op);
  }

  lemma OpIsRead(op: BatchOp, rest: Bytes, handled: seq<BatchOp>, count: nat)
    requires Encodable(op)
    ensures Iterated(OpBytes(op) + rest, handled, count) == Iterated(rest, handled + [op], count)
  {
    hide LengthPrefixed, GetLengthPrefixed;
    var input := OpBytes(op) + rest;
    match op
    case Put(key, value) =>
      PrefixedIsGot(key, LengthPrefixed(value) + rest);
      PrefixedIsGot(value, rest);
      assert input[1..] == LengthPrefixed(key) + (LengthPrefixed(value) + rest);
    case Delete(key) =>
      PrefixedIsGot(key, rest);
      assert input[1..] == LengthPrefixed(key) + rest;
  }

  lemma {:induction false} RecordsAreRead(ops: seq<BatchOp>, handled: seq<BatchOp>, count: nat)
    requires forall op :: op in ops ==> Encodable(op)
    ensures Iterated(RecordBytes(ops), handled, count)
            == Outcome(handled + ops, if |handled + ops| == count then Ok else WrongCount)
    decreases |ops|
  {
    hide OpBytes, RecordBytes, Iterated;
    if ops == [] {
      NoRecords();
      NothingToRead(handled, count);
      assert handled + ops == handled;
    } else {
      assert ops == [ops[0]] + ops[1..];
      FirstRecord(ops[0], ops[1..]);
      OpIsRead(ops[0], RecordBytes(ops[1..]), handled, count);
      RecordsAreRead(ops[1..], handled + [ops[0]], count);
      assert handled + [ops[0]] + ops[1..] == handled + ops;
    }
  }

  lemma NothingToRead(handled: seq<BatchOp>, count: nat)
    ensures Iterated([], handled, count) == Outcome(handled, if |handled| == count then Ok else WrongCount)
  {
  }

  lemma EncodedParts(sequence: Dword, ops: seq<BatchOp>)
    ensures var rep := Encoded(sequence, ops);
            && |rep| >= BATCH_HEADER && DecodeFixed64(rep[..8]) == sequence
            && DecodeFixed32(rep[8..12]) == CountOf(|ops|) && rep[BATCH_HEADER..] == RecordBytes(ops)
  {
    hide RecordBytes;
    var rep := Encoded(sequence, ops);
    Fixed64RoundTrip(sequence);
    Fixed32RoundTrip(CountOf(|ops|));
    assert rep[..8] == Fixed64(sequence) && rep[8..12] == Fixed32(CountOf(|ops|));
  }

  /** Iterating over an encoded batch hands over its operations, in order. */
  lemma EncodedIsParsed(sequence: Dword, ops: seq<BatchOp>)
    requires |ops| < WORD && forall op :: op in ops ==> Encodable(op)
    ensures Parsed(Encoded(sequence, ops)) == Outcome(ops, Ok)
  {
    hide RecordBytes, Encoded, Iterated, DecodeFixed32, DecodeFixed64;
    EncodedParts(sequence, ops);
    RecordsAreRead(ops, [], |ops|);
    assert [] + ops == ops;
  }

  // ------------------------------------------------------------- the class

  class WriteBatch {
    var rep: Bytes
    ghost var sequence: Dword
    ghost var ops: seq<BatchOp>

    constructor ()
      ensures Valid() && ops == [] && sequence == 0
    {
      rep := seq(BATCH_HEADER, _ => 0);
      sequence, ops := 0, [];
      new;
      assert rep == Encoded(0, []);
    }

    ghost predicate Valid()
      reads this
    {
      rep == Encoded(sequence, ops)
    }

    function Count(): Word
      requires |rep| >= BATCH_HEADER
      reads this
    {
      DecodeFixed32(rep[8..12])
    }

    method SetCount(n: Word)
      requires |rep| >= BATCH_HEADER
      modifies this`rep
      ensures rep == old(rep)[..8] + Fixed32(n) + old(rep)[12..]
    {
      rep := rep[..8] + Fixed32(n) + rep[12..];
    }

    method SetSequence(s: Dword)
      requires Valid()
      modifies this
      ensures Valid() && ops == old(ops) && sequence == s
    {
      hide RecordBytes;
      rep := Fixed64(s) + rep[8..];
      sequence := s;
    }

    method Put(key: Bytes, value: Bytes)
      requires Valid()
      modifies this
      ensures Valid() && sequence == old(sequence) && ops == old(ops) + [BatchOp.Put(key, value)]
    {
      hide Encoded, RecordBytes;
      ghost var op := BatchOp.Put(key, value);
      EncodedParts(sequence, ops);
      OneMoreOp(sequence, ops, op);
      SetCount(Plus(Count(), 1));
      var klen := EncodeVarint32(|key| % WORD);
      var vlen := EncodeVarint32(|value| % WORD);
      rep := rep + ([TYPE_VALUE] + ((klen + key) + (vlen + value)));
      ops := ops + [op];
    }

    method Delete(key: Bytes)
      requires Valid()
      modifies this
      ensures Valid() && sequence == old(sequence) && ops == old(ops) + [BatchOp.Delete(key)]
    {
      hide Encoded, RecordBytes;
      ghost var op := BatchOp.Delete(key);
      EncodedParts(sequence, ops);
      OneMoreOp(sequence, ops, op);
      SetCount(Plus(Count(), 1));
      var klen := EncodeVarint32(|key| % WORD);
      rep := rep + ([TYPE_DELETION] + (klen + key));
      ops := ops + [op];
    }

    method Append(src: WriteBatch)
      requires Valid() && src.Valid() && src != this
      modifies this
      ensures Valid() && sequence == old(sequence) && ops == old(ops) + src.ops
    {
      hide Encoded, RecordBytes;
      EncodedParts(sequence, ops);
      EncodedParts(src.sequence, src.ops);
      MoreOps(sequence, ops, src.ops);
      var n := Plus(Count(), src.Count());
      SetCount(n);
      rep := rep + src.rep[BATCH_HEADER..];
      ops := ops + src.ops;
    }
  }

  /** `whole` is `rep` with a new count and more records behind it. */
  predicate Extends(whole: Bytes, rep: Bytes, count: Word, more: Bytes) {
    |rep| >= BATCH_HEADER && whole == rep[..8] + Fixed32(count) + rep[12..] + more
  }

  lemma MoreOps(sequence: Dword, ops: seq<BatchOp>, more: seq<BatchOp>)
    ensures Extends(Encoded(sequence, ops + more), Encoded(sequence, ops), Plus(CountOf(|ops|), CountOf(|more|)),
            RecordBytes(more))
  {
    hide RecordBytes, Encoded, CountOf, Plus, Extends;
    RecordsOfBoth(ops, more);
    SumOfCounts(|ops|, |more|);
    assert |ops + more| == |ops| + |more|;
    EncodedExtends(sequence, ops, ops + more, RecordBytes(more));
  }

  lemma EncodedExtends(sequence: Dword, ops: seq<BatchOp>, all: seq<BatchOp>, d: Bytes)
    requires RecordBytes(all) == RecordBytes(ops) + d
    ensures Extends(Encoded(sequence, all), Encoded(sequence, ops), CountOf(|all|), d)
  {
    hide RecordBytes, CountOf, Fixed32, Fixed64;
    NewCount(Fixed64(sequence), Fixed32(CountOf(|ops|)), RecordBytes(ops), Fixed32(CountOf(|all|)), d);
  }

  lemma SumOfCounts(a: nat, b: nat)
    ensures Plus(CountOf(a), CountOf(b)) == CountOf(a + b)
  {
  }

  lemma NewCount(a: Bytes, b: Bytes, c: Bytes, n: Bytes, d: Bytes)
    requires |a| == 8 && |b| == 4
    ensures var rep := a + b + c; a + n + (c + d) == rep[..8] + n + rep[12..] + d
  {
    var rep := a + b + c;
    assert rep[..8] == a && rep[12..] == c;
  }

  lemma OneMoreOp(sequence: Dword, ops: seq<BatchOp>, op: BatchOp)
    ensures Extends(Encoded(sequence, ops + [op]), Encoded(sequence, ops), Plus(CountOf(|ops|), 1), OpBytes(op))
  {
    hide Encoded, RecordBytes, OpBytes, Plus, Extends;
    MoreOps(sequence, ops, [op]);
    FirstRecord(op, []);
    NoRecords();
    assert [op] + [] == [op];
    assert OpBytes(op) + [] == OpBytes(op);
    assert CountOf(|[op]|) == 1;
  }

  lemma NoRecords()
    ensures RecordBytes([]) == []
  {
  }
}
