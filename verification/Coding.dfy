/** Fixed-width and variable-length integers (util/coding.cc), and the masked CRC of a byte
    string (util/crc32c.h). */
module Coding {
  import opened DbFormat

  const WORD: nat := 0x1_0000_0000
  const MASK_DELTA: nat := 0xa282ead8

  type Word = x: int | 0 <= x < 0x1_0000_0000

  // --------------------------------------------------------------- fixed32

  function LowByte(n: nat): byte {
    n % 256
  }

  function Fixed32(v: Word): (s: Bytes)
    ensures |s| == 4
  {
    [LowByte(v), LowByte(v / 0x100), LowByte(v / 0x1_0000), LowByte(v / 0x100_0000)]
  }

  function DecodeFixed32(s: Bytes): Word
    requires |s| == 4
  {
    s[0] as int + s[1] as int * 0x100 + s[2] as int * 0x1_0000 + s[3] as int * 0x100_0000
  }

  lemma Fixed32RoundTrip(v: Word)
    ensures |Fixed32(v)| == 4 && DecodeFixed32(Fixed32(v)) == v
  {
    assert v / 0x1_0000 / 0x100 == v / 0x100_0000;
    assert v / 0x100 / 0x100 == v / 0x1_0000;
  }

  const DWORD: nat := 0x1_0000_0000_0000_0000

  type Dword = x: int | 0 <= x < 0x1_0000_0000_0000_0000

  /** Eight bytes, low ones first: the low word, then the high word. */
  function Fixed64(v: Dword): (s: Bytes)
    ensures |s| == 8
  {
    Fixed32(v % WORD) + Fixed32(v / WORD)
  }

  function DecodeFixed64(s: Bytes): Dword
    requires |s| == 8
  {
    DecodeFixed32(s[..4]) + DecodeFixed32(s[4..]) * WORD
  }

  lemma Fixed64RoundTrip(v: Dword)
    ensures DecodeFixed64(Fixed64(v)) == v
  {
    Fixed32RoundTrip(v % WORD);
    Fixed32RoundTrip(v / WORD);
    assert Fixed64(v)[..4] == Fixed32(v % WORD) && Fixed64(v)[4..] == Fixed32(v / WORD);
  }

  // --------------------------------------------------------------- varint32

  /** Seven bits a byte, low bits first, the high bit set on all bytes but the last. */
  function Varint(v: nat): (s: Bytes)
    ensures |s| >= 1
  {
    if v < 128 then [v] else [v % 128 + 128] + Varint(v / 128)
  }

  /** EncodeVarint32: one branch for each length. */
  method EncodeVarint32(v: Word) returns (s: Bytes)
    ensures s == Varint(v)
  {
    if v < 0x80 {
      s := [v];
    } else if v < 0x4000 {
      s := [LowBits(v), v / 0x80];
    } else if v < 0x20_0000 {
      s := [LowBits(v), LowBits(v / 0x80), v / 0x4000];
    } else if v < 0x1000_0000 {
      s := [LowBits(v), LowBits(v / 0x80), LowBits(v / 0x4000), v / 0x20_0000];
    } else {
      s := [LowBits(v), LowBits(v / 0x80), LowBits(v / 0x4000), LowBits(v / 0x20_0000), v / 0x1000_0000];
    }
    VarintDigits(v);
  }

  /** The low byte of v | 128. */
  function LowBits(v: nat): byte {
    v % 128 + 128
  }

  lemma VarintDigits(v: Word)
    ensures v >= 0x80 ==> Varint(v) == [LowBits(v)] + Varint(v / 0x80)
    ensures v >= 0x4000 ==> Varint(v / 0x80) == [LowBits(v / 0x80)] + Varint(v / 0x4000)
    ensures v >= 0x20_0000 ==> Varint(v / 0x4000) == [LowBits(v / 0x4000)] + Varint(v / 0x20_0000)
    ensures v >= 0x1000_0000 ==> Varint(v / 0x20_0000) == [LowBits(v / 0x20_0000)] + Varint(v / 0x1000_0000)
    ensures v / 0x1000_0000 < 0x80
  {
    assert v / 0x80 / 0x80 == v / 0x4000;
    assert v / 0x4000 / 0x80 == v / 0x20_0000;
    assert v / 0x20_0000 / 0x80 == v / 0x1000_0000;
  }

  datatype Decoded = Decoded(value: nat, next: nat)

  /** The number encoded at position `p` in at most `left` bytes before `limit`. */
  function VarintAt(s: Bytes, p: nat, limit: nat, left: nat): (r: Option<Decoded>)
    requires limit <= |s|
    ensures r.Some? ==> p < r.value.next <= limit
    decreases left
  {
    if left == 0 || p >= limit then None
    else if s[p] < 128 then Some(Decoded(s[p], p + 1))
    else match VarintAt(s, p + 1, limit, left - 1)
      case None => None
      case Some(rest) => Some(Decoded(s[p] - 128 + 128 * rest.value, rest.next))
  }

  function Varint32At(s: Bytes, p: nat, limit: nat): (r: Option<Decoded>)
    requires limit <= |s|
    ensures r.Some? ==> p < r.value.next <= limit && r.value.value < WORD
  {
    match VarintAt(s, p, limit, 5)
    case None => None
    case Some(d) => Some(Decoded(d.value % WORD, d.next))
  }

  /** The bits gathered so far, below the ones still to come. */
  function Gathered(result: nat, unit: nat, rest: Option<Decoded>): Option<Decoded> {
    if rest.None? then None else Some(Decoded(result + unit * rest.value.value, rest.value.next))
  }

  lemma GatherOne(result: nat, unit: nat, digit: nat, v: nat)
    ensures result + unit * (digit + 128 * v) == (result + unit * digit) + (unit * 128) * v
  {
    calc {
      unit * (digit + 128 * v);
      unit * digit + unit * (128 * v);
      unit * digit + (unit * 128) * v;
    }
  }

  const UNITS: seq<nat> := [1, 0x80, 0x4000, 0x20_0000, 0x1000_0000]

  /** After `i` bytes, the number at `p` is what was gathered plus what is still to come. */
  ghost predicate Gathering(s: Bytes, p: nat, limit: nat, i: nat, result: nat)
    requires limit <= |s| && i <= 5
  {
    if i == 5 then VarintAt(s, p, limit, 5) == None
    else result < UNITS[i] && VarintAt(s, p, limit, 5) == Gathered(result, UNITS[i], VarintAt(s, p + i, limit, 5 - i))
  }

  lemma GatherLast(s: Bytes, p: nat, limit: nat, i: nat, result: nat)
    requires limit <= |s| && i < 5 && p + i < limit && Gathering(s, p, limit, i, result) && s[p + i] < 128
    ensures Varint32At(s, p, limit) == Some(Decoded((result + UNITS[i] * s[p + i]) % WORD, p + i + 1))
  {
  }

  lemma GatherNext(s: Bytes, p: nat, limit: nat, i: nat, result: nat, digit: nat)
    requires limit <= |s| && i < 5 && p + i < limit && Gathering(s, p, limit, i, result)
    requires s[p + i] as int == digit + 128
    ensures Gathering(s, p, limit, i + 1, (result + UNITS[i] * digit) % WORD)
  {
    var rest := VarintAt(s, p + i + 1, limit, 4 - i);
    if i < 4 {
      Shift(result, i, digit);
      if rest.Some? { GatherOne(result, UNITS[i], digit, rest.value.value); }
    }
  }

  /** GetVarint32Ptr: a one-byte fast path, then up to five bytes of seven bits. */
  method GetVarint32(s: Bytes, p: nat, limit: nat) returns (r: Option<Decoded>)
    requires limit <= |s|
    ensures r == Varint32At(s, p, limit)
  {
    hide VarintAt;
    if p < limit && s[p] < 128 {
      OneByte(s, p, limit);
      return Some(Decoded(s[p], p + 1));
    }
    var result: nat, q: nat, i: nat := 0, p, 0;
    assert Gathering(s, p, limit, 0, 0) by { FirstUnit(VarintAt(s, p, limit, 5)); }
    while i < 5 && q < limit
      invariant i <= 5 && q == p + i && Gathering(s, p, limit, i, result)
    {
      if s[q] < 128 {
        GatherLast(s, p, limit, i, result);
        result := (result + UNITS[i] * s[q]) % WORD;
        return Some(Decoded(result, q + 1));
      }
      GatherNext(s, p, limit, i, result, s[q] as int - 128);
      result := (result + UNITS[i] * (s[q] as int - 128)) % WORD;
      q, i := q + 1, i + 1;
    }
    if i < 5 { RunsOut(s, q, limit, 5 - i); }
    r := None;
  }

  lemma OneByte(s: Bytes, p: nat, limit: nat)
    requires p < limit <= |s| && s[p] < 128
    ensures Varint32At(s, p, limit) == Some(Decoded(s[p], p + 1))
  {
  }

  lemma FirstUnit(r: Option<Decoded>)
    ensures Gathered(0, UNITS[0], r) == r
  {
  }

  lemma RunsOut(s: Bytes, q: nat, limit: nat, left: nat)
    requires limit <= |s| && q >= limit
    ensures VarintAt(s, q, limit, left) == None
  {
  }

  lemma Shift(result: nat, i: nat, digit: nat)
    requires i < 4 && result < UNITS[i] && digit < 128
    ensures UNITS[i] * 128 == UNITS[i + 1]
    ensures result + UNITS[i] * digit < UNITS[i + 1] && (result + UNITS[i] * digit) % WORD == result + UNITS[i] * digit
  {
    if i == 0 { assert UNITS[i] == 1; }
    else if i == 1 { assert UNITS[i] == 0x80; }
    else if i == 2 { assert UNITS[i] == 0x4000; }
    else { assert UNITS[i] == 0x20_0000; }
  }

  function Capacity(left: nat): nat {
    if left == 0 then 1 else 128 * Capacity(left - 1)
  }

  lemma {:induction false} VarintIsRead(s: Bytes, p: nat, limit: nat, left: nat, v: nat)
    requires limit <= |s| && v < Capacity(left) && left > 0
    requires p + |Varint(v)| <= limit && s[p..p + |Varint(v)|] == Varint(v)
    ensures VarintAt(s, p, limit, left) == Some(Decoded(v, p + |Varint(v)|))
    decreases left
  {
    assert s[p] == Varint(v)[0];
    if v >= 128 {
      var rest := Varint(v / 128);
      assert s[p + 1..p + 1 + |rest|] == s[p..p + |Varint(v)|][1..] == rest;
      VarintIsRead(s, p + 1, limit, left - 1, v / 128);
    }
  }

  /** What was put as a varint32 is what is got, whatever follows it. */
  lemma Varint32RoundTrip(s: Bytes, p: nat, limit: nat, v: Word)
    requires limit <= |s| && p + |Varint(v)| <= limit && s[p..p + |Varint(v)|] == Varint(v)
    ensures Varint32At(s, p, limit) == Some(Decoded(v, p + |Varint(v)|))
  {
    assert Capacity(5) == 128 * Capacity(4) && Capacity(4) == 128 * Capacity(3) && Capacity(3) == 128 * Capacity(2);
    VarintIsRead(s, p, limit, 5, v);
  }

  // ------------------------------------------------- reading from a slice

  /** What is read from the front of a slice, and what is left of it. */
  datatype Got<+T> = Got(value: T, rest: Bytes)

  function GetWord(input: Bytes): (r: Option<Got<Word>>)
    ensures r.Some? ==> |r.value.rest| < |input|
  {
    match Varint32At(input, 0, |input|)
    case None => None
    case Some(d) =>
      var v: Word := d.value;
      Some(Got(v, input[d.next..]))
  }

  /** GetVarint64: ten bytes at most, in 64 bits. */
  function GetDword(input: Bytes): (r: Option<Got<Dword>>)
    ensures r.Some? ==> |r.value.rest| < |input|
  {
    match VarintAt(input, 0, |input|, 10)
    case None => None
    case Some(d) =>
      var v: Dword := d.value % DWORD;
      Some(Got(v, input[d.next..]))
  }

  function GetLengthPrefixed(input: Bytes): (r: Option<Got<Bytes>>)
    ensures r.Some? ==> |r.value.rest| < |input|
  {
    match GetWord(input)
    case None => None
    case Some(len) =>
      if |len.rest| >= len.value then Some(Got(len.rest[..len.value], len.rest[len.value..])) else None
  }

  function LengthPrefixed(s: Bytes): Bytes {
    Varint(|s| % WORD) + s
  }

  lemma WordIsGot(v: Word, rest: Bytes)
    ensures GetWord(Varint(v) + rest) == Some(Got(v, rest))
  {
    var input := Varint(v) + rest;
    assert input[0..|Varint(v)|] == Varint(v);
    Varint32RoundTrip(input, 0, |input|, v);
  }

  lemma DwordIsGot(v: Dword, rest: Bytes)
    ensures GetDword(Varint(v) + rest) == Some(Got(v, rest))
  {
    var input := Varint(v) + rest;
    assert input[0..|Varint(v)|] == Varint(v);
    assert Capacity(10) >= DWORD by {
      assert Capacity(3) == 128 * Capacity(2) && Capacity(4) == 128 * Capacity(3) && Capacity(5) == 128 * Capacity(4);
      assert Capacity(6) == 128 * Capacity(5) && Capacity(7) == 128 * Capacity(6) && Capacity(8) == 128 * Capacity(7);
      assert Capacity(9) == 128 * Capacity(8) && Capacity(10) == 128 * Capacity(9);
    }
    VarintIsRead(input, 0, |input|, 10, v);
  }

  /** A length-prefixed string is read back, whatever follows it. */
  lemma PrefixedIsGot(s: Bytes, rest: Bytes)
    requires |s| < WORD
    ensures GetLengthPrefixed(LengthPrefixed(s) + rest) == Some(Got(s, rest))
  {
    hide Varint, GetWord;
    WordIsGot(|s|, s + rest);
    assert LengthPrefixed(s) + rest == Varint(|s|) + (s + rest);
  }

  // -------------------------------------------------------------- checksums

  /** One step of the CRC register over a byte; nothing depends on which one it is. */
  type Crc = (Word, byte) -> Word

  function Fold(crc: Crc, register: Word, data: Bytes): Word {
    if data == [] then register else crc(Fold(crc, register, data[..|data| - 1]), data[|data| - 1])
  }

  /** The register is complemented on the way in and on the way out. */
  function Complement(w: Word): Word {
    0xFFFF_FFFF - w
  }

  function Extend(crc: Crc, init: Word, data: Bytes): Word {
    Complement(Fold(crc, Complement(init), data))
  }

  function Value(crc: Crc, data: Bytes): Word {
    Extend(crc, 0, data)
  }

  lemma {:induction false} FoldOn(crc: Crc, register: Word, a: Bytes, b: Bytes)
    ensures Fold(crc, register, a + b) == Fold(crc, Fold(crc, register, a), b)
  {
    if b == [] {
      assert a + b == a;
    } else {
      FoldOn(crc, register, a, b[..|b| - 1]);
      assert (a + b)[..|a + b| - 1] == a + b[..|b| - 1];
    }
  }

  /** Extending the checksum of `a` by `b` is checksumming `a + b`. */
  lemma ExtendOn(crc: Crc, init: Word, a: Bytes, b: Bytes)
    ensures Extend(crc, Extend(crc, init, a), b) == Extend(crc, init, a + b)
  {
    FoldOn(crc, Complement(init), a, b);
  }

  /** Rotate right by 15 bits and add a constant, in 32 bits. */
  function Mask(w: Word): Word {
    (w / 0x8000 + w % 0x8000 * 0x2_0000 + MASK_DELTA) % WORD
  }

  function Unmask(w: Word): Word {
    var rot := (w - MASK_DELTA) % WORD;
    rot / 0x2_0000 + rot % 0x2_0000 * 0x8000
  }

  lemma UnmaskMask(w: Word)
    ensures Unmask(Mask(w)) == w
  {
    var rot := w / 0x8000 + w % 0x8000 * 0x2_0000;
    assert 0 <= rot < WORD;
    assert (Mask(w) - MASK_DELTA) % WORD == rot;
    assert rot / 0x2_0000 == w % 0x8000 && rot % 0x2_0000 == w / 0x8000;
  }
}
