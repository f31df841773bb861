/** The nanopb decoder: a stream over a buffer, an iterator over the fields of a schema, and
    the decoding loop (nanopb/pb_decode.c, nanopb/pb_common.c). */
module PbStream {
  import opened DbFormat
  import opened Coding
  import opened PbFormat
  import opened PbDecode

  /** What a method read is what the function gives, and so is what it left. */
  predicate Gave<T(==)>(f: Option<Got<T>>, r: Option<T>, left: Bytes) {
    if f.None? then r.None? else r == Some(f.value.value) && left == f.value.rest
  }

  predicate Skipped(f: Option<Bytes>, ok: bool, left: Bytes) {
    if f.None? then !ok else ok && left == f.value
  }

  /** pb_field_iter_t, without the pointers into the struct. */
  class FieldIter {
    const fields: seq<Field>
    var pos: nat
    var requiredFieldIndex: nat

    predicate Valid()
      reads this
    {
      && (if fields == [] then pos == 0 else pos < |fields|)
      && requiredFieldIndex == RequiredIndex(fields, pos)
    }

    /** pb_field_iter_begin */
    constructor (fields: seq<Field>)
      ensures Valid() && this.fields == fields && pos == 0
    {
      this.fields, pos, requiredFieldIndex := fields, 0, 0;
    }

    /** pb_field_iter_next: false when it wraps to the beginning. */
    method Next() returns (more: bool)
      requires Valid()
      modifies this
      ensures Valid() && more == (old(pos) + 1 < |fields|) && pos == if more then old(pos) + 1 else 0
    {
      if |fields| == 0 {
        return false;
      }
      if pos + 1 == |fields| {
        pos, requiredFieldIndex := 0, 0;
        return false;
      }
      if fields[pos].h.Required? {
        requiredFieldIndex := requiredFieldIndex + 1;
      }
      pos := pos + 1;
      more := true;
    }

    /** pb_field_iter_find: from where it is, once around. */
    method Find(tag: nat) returns (found: bool)
      requires Valid()
      modifies this
      ensures Valid()
      ensures found ==> pos < |fields| && fields[pos].tag == tag
      ensures !found ==> pos == old(pos) && forall i :: 0 <= i < |fields| ==> fields[i].tag != tag
    {
      var start: nat, wrapped := pos, false;
      var stop := false;
      while !stop
        invariant Valid() && (if fields == [] then start == 0 else start < |fields|)
        invariant if wrapped then pos <= start && (!stop ==> pos < start) else start <= pos
        invariant stop ==> pos == start && (wrapped || fields == [])
        invariant forall i ::
                  0 <= i < |fields| && (if wrapped then i < pos || i >= start else start <= i < pos)
                  ==> fields[i].tag != tag
        decreases if stop then 0 else 1 + if wrapped then start - pos else start + |fields| - pos
      {
        if pos < |fields| && fields[pos].tag == tag {
          return true;
        }
        var more := Next();
        if !more { wrapped := true; }
        stop := pos == start;
      }
      found := false;
    }

    /** The number of required fields, as far as their bits go, by seeking to the end. */
    method CountRequired() returns (count: nat)
      requires Valid()
      modifies this
      ensures count == Min(RequiredIndex(fields, |fields|), MAX_REQUIRED_FIELDS)
    {
      count := requiredFieldIndex;
      var last: nat, more := pos, |fields| > 0;
      while more
        invariant Valid() && (|fields| > 0 ==> last < |fields|)
        invariant if more then last == pos && |fields| > 0 else |fields| > 0 ==> last + 1 == |fields|
        invariant count == if |fields| > 0 then RequiredIndex(fields, last) else 0
        decreases if more then |fields| - pos else 0
      {
        more := Next();
        if more {
          count, last := requiredFieldIndex, pos;
        }
      }
      assert |fields| > 0 ==> RequiredIndex(fields, last + 1) == RequiredIndex(fields, |fields|);
      if last < |fields| && fields[last].h.Required? {
        count := count + 1;
      }
      count := Min(count, MAX_REQUIRED_FIELDS);
    }
  }

  function Min(a: nat, b: nat): nat {
    if a < b then a else b
  }

  // -------------------------------------------------------- required fields

  function LowBits(n: nat): (s: set<nat>)
    ensures forall b: nat :: b in s <==> b < n
  {
    if n == 0 then {} else LowBits(n - 1) + {n - 1}
  }

  predicate HasBit(words: seq<set<nat>>, k: nat)
    requires |words| == 2
  {
    if k < 32 then k in words[0] else k - 32 in words[1]
  }

  /** What the words of fields_seen say, each a set of bits. */
  ghost predicate SeenWords(words: seq<set<nat>>, seen: set<nat>) {
    && |words| == 2 && words[0] <= LowBits(32) && words[1] <= LowBits(32)
    && forall k: nat :: k in seen <==> HasBit(words, k)
  }

  /** Setting a bit of fields_seen. */
  function SetBit(words: seq<set<nat>>, k: nat): seq<set<nat>>
    requires |words| == 2 && k < MAX_REQUIRED_FIELDS
  {
    words[k / 32 := words[k / 32] + {k % 32}]
  }

  lemma NothingSeen()
    ensures SeenWords([{}, {}], {})
  {
  }

  lemma BitIsSet(words: seq<set<nat>>, k: nat, j: nat)
    requires |words| == 2 && k < MAX_REQUIRED_FIELDS
    ensures |SetBit(words, k)| == 2 && (HasBit(SetBit(words, k), j) <==> HasBit(words, j) || j == k)
  {
    if k < 32 {
      assert k / 32 == 0 && k % 32 == k;
    } else {
      assert k / 32 == 1 && k % 32 == k - 32;
    }
  }

  lemma SeenAlso(words: seq<set<nat>>, seen: set<nat>, k: nat)
    requires SeenWords(words, seen) && k < MAX_REQUIRED_FIELDS
    ensures |words| == 2 && SeenWords(SetBit(words, k), seen + {k})
  {
    hide HasBit;
    forall j: nat ensures j in seen + {k} <==> HasBit(SetBit(words, k), j) {
      BitIsSet(words, k, j);
    }
  }

  /** The first `n` bits of a word are all set exactly when the word has no others. */
  lemma WholeWord(words: seq<set<nat>>, seen: set<nat>, i: nat, n: nat)
    requires SeenWords(words, seen) && i < 2 && n <= 32
    requires forall k: nat :: k in seen && 32 * i <= k < 32 * i + 32 ==> k < 32 * i + n
    ensures words[i] == LowBits(n) <==> forall k: nat :: 32 * i <= k < 32 * i + n ==> k in seen
  {
    forall b: nat | b < 32 ensures b in words[i] <==> 32 * i + b in seen {
      assert HasBit(words, 32 * i + b) <==> b in words[i];
    }
    if words[i] == LowBits(n) {
      forall k: nat | 32 * i <= k < 32 * i + n ensures k in seen {
        var b: nat := k - 32 * i;
        assert b in words[i];
      }
    } else {
      assert words[i] <= LowBits(n);
      var b: nat :| b in LowBits(n) && b !in words[i];
      assert 32 * i + b !in seen;
    }
  }

  /** Comparing whole words, then the remaining bits, is looking for every required field. */
  method AllSeen(words: seq<set<nat>>, ghost seen: set<nat>, count: nat) returns (all: bool)
    requires SeenWords(words, seen) && count <= MAX_REQUIRED_FIELDS && forall k: nat :: k in seen ==> k < count
    ensures all == forall k: nat :: k < count ==> k in seen
  {
    hide SeenWords, LowBits;
    assert |words| == 2 by { TwoWords(words, seen); }
    var i := 0;
    while i < count / 32
      invariant i <= count / 32 && forall k: nat :: k < 32 * i ==> k in seen
    {
      WholeWord(words, seen, i, 32);
      if words[i] != LowBits(32) {
        return false;
      }
      i := i + 1;
    }
    if count % 32 != 0 {
      WholeWord(words, seen, i, count % 32);
      if words[i] != LowBits(count % 32) {
        return false;
      }
    }
    all := true;
  }

  lemma TwoWords(words: seq<set<nat>>, seen: set<nat>)
    requires SeenWords(words, seen)
    ensures |words| == 2 && forall k: nat :: k in seen ==> k < MAX_REQUIRED_FIELDS
  {
    forall k: nat | k in seen ensures k < MAX_REQUIRED_FIELDS {
      assert HasBit(words, k);
    }
  }

  lemma {:induction false} IndexOfRequired(fields: seq<Field>, k: nat, n: nat)
    requires n <= |fields| && k < RequiredIndex(fields, n)
    ensures exists i :: 0 <= i < n && fields[i].h.Required? && RequiredIndex(fields, i) == k
  {
    if k < RequiredIndex(fields, n - 1) { IndexOfRequired(fields, k, n - 1); }
  }

  lemma {:induction false} RequiredIndexGrows(fields: seq<Field>, i: nat, n: nat)
    requires i < n <= |fields| && fields[i].h.Required?
    ensures RequiredIndex(fields, i) < RequiredIndex(fields, n)
  {
    if i < n - 1 { RequiredIndexGrows(fields, i, n - 1); }
  }

  lemma AllSeenIs(fields: seq<Field>, seen: set<nat>)
    ensures AllRequiredSeen(fields, seen)
       <==> forall k: nat :: k < Min(RequiredIndex(fields, |fields|), MAX_REQUIRED_FIELDS) ==> k in seen
  {
    if AllRequiredSeen(fields, seen) {
      forall k: nat | k < Min(RequiredIndex(fields, |fields|), MAX_REQUIRED_FIELDS) ensures k in seen {
        IndexOfRequired(fields, k, |fields|);
      }
    }
    forall i | 0 <= i < |fields| && fields[i].h.Required?
      ensures RequiredIndex(fields, i) < RequiredIndex(fields, |fields|)
    {
      RequiredIndexGrows(fields, i, |fields|);
    }
  }

  class IStream {
    const buf: Bytes
    var pos: nat
    var bytesLeft: nat

    predicate Valid()
      reads this
    {
      pos + bytesLeft <= |buf|
    }

    function Left(): Bytes
      reads this
      requires Valid()
    {
      buf[pos..pos + bytesLeft]
    }

    function End(): nat
      reads this
    {
      pos + bytesLeft
    }

    /** pb_istream_from_buffer */
    constructor (buf: Bytes)
      ensures Valid() && Left() == buf
    {
      this.buf, pos, bytesLeft := buf, 0, |buf|;
    }

    constructor At(buf: Bytes, pos: nat, bytesLeft: nat)
      requires pos + bytesLeft <= |buf|
      ensures Valid() && this.buf == buf && this.pos == pos && this.bytesLeft == bytesLeft
    {
      this.buf, this.pos, this.bytesLeft := buf, pos, bytesLeft;
    }

    /** pb_read */
    method Read(count: nat) returns (r: Option<Bytes>)
      requires Valid()
      modifies this
      ensures Valid() && End() == old(End()) && Gave(Take(old(Left()), count), r, Left())
    {
      if bytesLeft < count {
        return None;
      }
      r := Some(buf[pos..pos + count]);
      assert Left()[..count] == buf[pos..pos + count] && Left()[count..] == buf[pos + count..pos + bytesLeft];
      pos, bytesLeft := pos + count, bytesLeft - count;
    }

    /** pb_readbyte */
    method ReadByte() returns (r: Option<byte>)
      requires Valid()
      modifies this
      ensures Valid() && End() == old(End())
      ensures if old(Left()) == [] then r.None? && Left() == []
              else r == Some(old(Left())[0]) && Left() == old(Left())[1..]
    {
      if bytesLeft == 0 {
        return None;
      }
      r := Some(buf[pos]);
      pos, bytesLeft := pos + 1, bytesLeft - 1;
    }

    /** pb_decode_varint32 */
    method DecodeVarint32() returns (r: Option<Word>)
      requires Valid()
      modifies this
      ensures Valid() && End() == old(End()) && Gave(TakeVarint32(old(Left())), r, Left())
    {
      hide Shifted, SignExtension;
      var first := ReadByte();
      if first.None? {
        return None;
      }
      var b: nat := first.value;
      var result: Word := b % 128;
      FirstShift(b);
      if b < 128 {
        return Some(result);
      }
      var i := 1;
      while b >= 128
        invariant Valid() && End() == old(End()) && i >= 1
        invariant b >= 128 ==> TakeVarint32(old(Left())) == Varint32From(Left(), i, result)
        invariant b < 128 ==> TakeVarint32(old(Left())) == if i == 5 && b >= 16 then None else Some(Got(result, Left()))
        decreases if b >= 128 then bytesLeft + 1 else 0
      {
        var next := ReadByte();
        if next.None? {
          return None;
        }
        b := next.value;
        if i >= 5 {
          if b % 128 != 0 && (result < 0x8000_0000 || b != SignExtension(7 * i)) {
            return None;
          }
        } else {
          result := (result + Shifted(b % 128, i)) % WORD;
        }
        i := i + 1;
      }
      if i == 5 && b >= 16 {
        return None;
      }
      r := Some(result);
    }

    /** pb_decode_varint */
    method DecodeVarint() returns (r: Option<Dword>)
      requires Valid()
      modifies this
      ensures Valid() && End() == old(End()) && Gave(TakeVarint64(old(Left())), r, Left())
    {
      hide Shifted;
      var b: nat, i := 128, 0;
      var result: Dword := 0;
      while b >= 128
        invariant Valid() && End() == old(End()) && i <= 10
        invariant b >= 128 ==> TakeVarint64(old(Left())) == Varint64From(Left(), i, result)
        invariant b < 128 ==> TakeVarint64(old(Left())) == Some(Got(result, Left()))
        decreases if b >= 128 then bytesLeft + 1 else 0
      {
        if i >= 10 {
          return None;
        }
        var next := ReadByte();
        if next.None? {
          return None;
        }
        b := next.value;
        result := (result + Shifted(b % 128, i)) % DWORD;
        i := i + 1;
      }
      r := Some(result);
    }

    /** pb_skip_varint */
    method SkipVarint() returns (ok: bool)
      requires Valid()
      modifies this
      ensures Valid() && End() == old(End()) && Skipped(PbDecode.SkipVarint(old(Left())), ok, Left())
    {
      var b: nat := 128;
      while b >= 128
        invariant Valid() && End() == old(End())
        invariant PbDecode.SkipVarint(old(Left())) == if b >= 128 then PbDecode.SkipVarint(Left()) else Some(Left())
        decreases if b >= 128 then bytesLeft + 1 else 0
      {
        var next := ReadByte();
        if next.None? {
          return false;
        }
        b := next.value;
      }
      ok := true;
    }

    /** pb_skip_string */
    method SkipString() returns (ok: bool)
      requires Valid()
      modifies this
      ensures Valid() && End() == old(End()) && Skipped(RestOf(GetDelimited(old(Left()))), ok, Left())
    {
      hide TakeVarint32;
      var length := DecodeVarint32();
      if length.None? {
        return false;
      }
      var s := Read(length.value);
      ok := s.Some?;
    }

    /** pb_skip_field */
    method SkipField(wire: nat) returns (ok: bool)
      requires Valid()
      modifies this
      ensures Valid() && End() == old(End()) && Skipped(PbDecode.SkipField(wire, old(Left())), ok, Left())
    {
      hide PbDecode.SkipVarint, GetDelimited;
      if wire == WT_VARINT {
        ok := SkipVarint();
      } else if wire == WT_64BIT {
        var s := Read(8);
        ok := s.Some?;
      } else if wire == WT_STRING {
        ok := SkipString();
      } else if wire == WT_32BIT {
        var s := Read(4);
        ok := s.Some?;
      } else {
        ok := false;
      }
    }

    /** pb_make_string_substream: the parent counts the string as read, but stays where it is. */
    method MakeStringSubstream() returns (r: Option<IStream>)
      requires Valid()
      modifies this
      ensures Valid() && End() <= old(End())
      ensures var f := GetDelimited(old(Left()));
              if f.None? then r.None?
              else r.Some? && fresh(r.value) && Inside(r.value) && r.value.Left() == f.value.value
                   && r.value.End() + bytesLeft == old(End()) && buf[r.value.End()..old(End())] == f.value.rest
    {
      hide TakeVarint32;
      ghost var was := Left();
      var size := DecodeVarint32();
      if size.None? || bytesLeft < size.value {
        return None;
      }
      var substream := new IStream.At(buf, pos, size.value);
      assert Left()[..size.value] == buf[pos..pos + size.value];
      assert Left()[size.value..] == buf[pos + size.value..End()];
      bytesLeft := bytesLeft - size.value;
      r := Some(substream);
    }

    /** A substream over part of this stream's buffer, with the rest of the stream behind it. */
    predicate Inside(substream: IStream)
      reads this, substream
    {
      substream.Valid() && substream.buf == buf && substream.End() + bytesLeft <= |buf|
    }

    /** pb_close_string_substream */
    method CloseStringSubstream(substream: IStream)
      requires Valid() && Inside(substream) && substream != this
      modifies this, substream
      ensures Valid() && End() == old(substream.End() + bytesLeft)
      ensures Left() == buf[old(substream.End())..old(substream.End() + bytesLeft)]
    {
      if substream.bytesLeft > 0 {
        var s := substream.Read(substream.bytesLeft);
      }
      pos := substream.pos;
    }

    /** pb_dec_bool to pb_dec_fixed64 */
    method DecodeNumber(l: LType) returns (r: Option<int>)
      requires Valid() && Packable(l)
      modifies this
      ensures Valid() && End() == old(End()) && Gave(GetNumber(l, old(Left())), r, Left())
    {
      hide TakeVarint32, TakeVarint64, DecodeFixed32, DecodeFixed64, Signed, Signed32, UnZigZag, Width;
      match l
      case LBool =>
        var v := DecodeVarint32();
        r := if v.None? then None else Some(if v.value != 0 then 1 else 0);
      case LVarint(bits) =>
        var v := DecodeVarint();
        if v.None? { return None; }
        var n := if bits == 64 then Signed(v.value) else Signed32(v.value);
        r := if Width(bits) && FitsSigned(bits, n) then Some(n) else None;
      case LUVarint(bits) =>
        var v := DecodeVarint();
        r := if v.Some? && Width(bits) && FitsUnsigned(bits, v.value) then Some(v.value) else None;
      case LSVarint(bits) =>
        var v := DecodeVarint();
        if v.None? { return None; }
        var n := UnZigZag(v.value);
        r := if Width(bits) && FitsSigned(bits, n) then Some(n) else None;
      case LFixed32 =>
        var s := Read(4);
        r := if s.None? then None else Some(DecodeFixed32(s.value));
      case LFixed64 =>
        var s := Read(8);
        r := if s.None? then None else Some(DecodeFixed64(s.value));
    }

    /** The field decoders; `cur` is what the destination holds. */
    method DecodeValue(l: LType, cur: Value) returns (r: Option<Value>)
      requires Valid() && TypeOk(l)
      modifies this
      ensures Valid() && End() <= old(End()) && (r.Some? ==> End() == old(End()))
      ensures Gave(PbDecode.DecodeValue(l, cur, old(Left())), r, Left())
      decreases l, 0, 0
    {
      hide TakeVarint32, GetNumber, CString, DecodeMessage, Defaults, SchemaOk;
      match l {
        case LBytes(cap) =>
          var size := DecodeVarint32();
          if size.None? || size.value > cap { return None; }
          var s := Read(size.value);
          r := if s.None? then None else Some(Str(s.value));
        case LString(max) =>
          var size := DecodeVarint32();
          if size.None? || size.value + 1 > max { return None; }
          var s := Read(size.value);
          r := if s.None? then None else Some(Str(CString(s.value)));
        case LFixedBytes(length) =>
          var size := DecodeVarint32();
          if size.None? { return None; }
          if size.value == 0 { return Some(Str(Zeros(length))); }
          if size.value != length { return None; }
          var s := Read(length);
          r := if s.None? then None else Some(Str(s.value));
        case LSubmessage(fields) =>
          var sub := MakeStringSubstream();
          if sub.None? { return None; }
          var start := if cur.Msg? && |cur.slots| == |fields| then cur.slots else Defaults(fields);
          var slots := sub.value.DecodeNoinit(fields, start);
          CloseStringSubstream(sub.value);
          r := if slots.None? then None else Some(Msg(slots.value));
        case _ =>
          var n := DecodeNumber(l);
          r := if n.None? then None else Some(Num(n.value));
      }
    }

    /** The REPEATED case of decode_static_field. */
    method DecodeArray(f: Field, items: seq<Value>, max: nat, wire: nat) returns (r: Option<seq<Value>>)
      requires Valid() && TypeOk(f.l)
      modifies this
      ensures Valid() && End() <= old(End()) && (r.Some? ==> End() == old(End()))
      ensures Gave(PbDecode.DecodeArray(f, items, max, wire, old(Left())), r, Left())
      decreases f, 1, 0
    {
      hide GetNumber, GetDelimited, PbDecode.DecodeValue, TypeOk, Packable;
      if wire == WT_STRING && Packable(f.l) {
        var sub := MakeStringSubstream();
        if sub.None? { return None; }
        var all, status := items, true;
        ghost var s, at := sub.value.Left(), sub.value.End();
        while sub.value.bytesLeft > 0 && |all| < max && status
          modifies sub.value
          invariant Valid() && sub.value.Valid() && sub.value.End() == at
          invariant PackedItems(f.l, items, max, s) == if status then PackedItems(f.l, all, max, sub.value.Left())
                    else None
          decreases if status then sub.value.bytesLeft + 1 else 0
        {
          var n := sub.value.DecodeNumber(f.l);
          if n.None? {
            status := false;
          } else {
            all := all + [Num(n.value)];
          }
        }
        if sub.value.bytesLeft != 0 { return None; }
        CloseStringSubstream(sub.value);
        r := if status then Some(all) else None;
      } else {
        if |items| >= max { return None; }
        var v := DecodeValue(f.l, Zero(f.l));
        r := if v.None? then None else Some(items + [v.value]);
      }
    }

    method DecodeSingle(f: Field, slot: Slot) returns (r: Option<Value>)
      requires Valid() && TypeOk(f.l)
      modifies this
      ensures Valid() && End() <= old(End()) && (r.Some? ==> End() == old(End()))
      ensures Gave(PbDecode.DecodeSingle(f, slot, old(Left())), r, Left())
      decreases f, 1, 0
    {
      hide PbDecode.DecodeValue, TypeOk, Current;
      r := DecodeValue(f.l, Current(f, slot));
    }

    /** One field: an array from where its count stands, or a single value. */
    method DecodeField(fields: seq<Field>, i: nat, slots: seq<Slot>, ghost seen: set<nat>, fixedField: Option<nat>,
                       fixedSize: nat, wire: nat)
      returns (r: Option<(seq<Slot>, Option<nat>, nat)>)
      requires Valid() && i < |fields| == |slots| && TypeOk(fields[i].l)
      modifies this
      ensures Valid() && End() <= old(End()) && (r.Some? ==> End() == old(End()))
      ensures var f := PbDecode.DecodeField(fields, i, State(slots, seen, fixedField, fixedSize), wire, old(Left()));
              if f.None? then r.None?
              else r.Some? && f == Some(Got(State(r.value.0, seen + SeenBit(fields, i), r.value.1, r.value.2), Left()))
      decreases fields, 2, 0
    {
      hide PbDecode.DecodeSingle, PbDecode.DecodeArray, TypeOk, SetSlot, Current, FixedDone, RequiredIndex;
      var f, slot := fields[i], slots[i];
      assert IsArray(f.h) ==> seen + SeenBit(fields, i) == seen;
      match f.h {
        case Repeated(max) =>
          var all := DecodeArray(f, slot.items, max, wire);
          r := if all.None? then None else Some((slots[i := Slot(true, all.value)], fixedField, fixedSize));
        case FixedCount(count) =>
          var again := fixedField == Some(i);
          FixedDoneIs(fields, slots, {}, seen, fixedField, fixedSize);
          if !again && !FixedDone(fields, State(slots, {}, fixedField, fixedSize)) { return None; }
          var all := DecodeArray(f, if again then slot.items else [], count, wire);
          r := if all.None? then None else Some((slots[i := Slot(true, all.value)], Some(i), |all.value|));
        case _ =>
          var v := DecodeSingle(f, slot);
          r := if v.None? then None else Some((SetSlot(fields, slots, i, Slot(true, [v.value])), fixedField,
              fixedSize));
      }
    }

    /** pb_decode_noinit */
    method DecodeNoinit(fields: seq<Field>, start: seq<Slot>) returns (r: Option<seq<Slot>>)
      requires Valid() && SchemaOk(fields) && |start| == |fields|
      modifies this
      ensures Valid() && End() <= old(End()) && (r.Some? ==> End() == old(End()))
      ensures r == DecodeMessage(fields, start, old(Left()))
      decreases fields, 3, 0
    {
      hide DecodeLoop, PbDecode.DecodeField, AllRequiredSeen, FixedDone, RequiredIndex, TypeOk, TakeVarint32,
           PbDecode.SkipField, SeenWords;
      ghost var input := Left();
      var fieldsSeen: seq<set<nat>> := [{}, {}];
      ghost var seen: set<nat> := {};
      var slots, fixedField: Option<nat>, fixedSize: nat := start, None, 0;
      var iter := new FieldIter(fields);
      var eof := false;
      NothingSeen();
      while bytesLeft > 0 && !eof
        modifies this, iter
        invariant Valid() && End() == old(End()) && iter.Valid() && iter.fields == fields && |slots| == |fields|
        invariant SeenWords(fieldsSeen, seen) && OnlyRequired(fields, seen)
        invariant DecodeLoop(fields, Fresh(start), input)
               == if eof then Some(State(slots, seen, fixedField, fixedSize))
                   else DecodeLoop(fields, State(slots, seen, fixedField, fixedSize), Left())
        decreases if eof then 0 else 1, bytesLeft
      {
        ghost var st, left := State(slots, seen, fixedField, fixedSize), Left();
        LoopStep(fields, st, left);
        var key := DecodeVarint32();
        if key.None? { return None; }
        if key.value == 0 {
          eof := true;
        } else {
          var found := iter.Find(key.value / 8);
          if !found {
            NoIndex(fields, key.value / 8);
            var ok := SkipField(key.value % 8);
            if !ok { return None; }
          } else {
            OneIndex(fields, iter.pos);
            SeenBitIs(fields, iter.pos, seen);
            if fields[iter.pos].h.Required? && iter.requiredFieldIndex < MAX_REQUIRED_FIELDS {
              SeenAlso(fieldsSeen, seen, iter.requiredFieldIndex);
              fieldsSeen := SetBit(fieldsSeen, iter.requiredFieldIndex);
            }
            StillRequired(fields, seen, iter.pos);
            var next := DecodeField(fields, iter.pos, slots, seen, fixedField, fixedSize, key.value % 8);
            if next.None? { return None; }
            seen := seen + SeenBit(fields, iter.pos);
            slots, fixedField, fixedSize := next.value.0, next.value.1, next.value.2;
          }
        }
      }
      ghost var st := State(slots, seen, fixedField, fixedSize);
      assert !eof ==> Left() == [];
      LoopEnds(fields, st);
      FixedDoneIs(fields, slots, {}, seen, fixedField, fixedSize);
      if !FixedDone(fields, State(slots, {}, fixedField, fixedSize)) { return None; }
      var count := iter.CountRequired();
      AllSeenIs(fields, seen);
      SeenAreFew(fields, fieldsSeen, seen);
      var all := AllSeen(fieldsSeen, seen, count);
      r := if all then Some(slots) else None;
    }

    /** pb_decode */
    method Decode(fields: seq<Field>) returns (r: Option<seq<Slot>>)
      requires Valid() && SchemaOk(fields)
      modifies this
      ensures r == PbDecode.Decode(fields, old(Left()))
    {
      hide DecodeMessage, SchemaOk;
      r := DecodeNoinit(fields, Defaults(fields));
    }
  }

  predicate OnlyRequired(fields: seq<Field>, seen: set<nat>) {
    forall k: nat :: k in seen ==> k < RequiredIndex(fields, |fields|)
  }

  lemma SeenBitIs(fields: seq<Field>, i: nat, seen: set<nat>)
    requires i < |fields|
    ensures seen + SeenBit(fields, i)
         == if fields[i].h.Required? && RequiredIndex(fields, i) < MAX_REQUIRED_FIELDS
             then seen + {RequiredIndex(fields, i)} else seen
  {
  }

  lemma SeenAreFew(fields: seq<Field>, words: seq<set<nat>>, seen: set<nat>)
    requires SeenWords(words, seen) && OnlyRequired(fields, seen)
    ensures forall k: nat :: k in seen ==> k < Min(RequiredIndex(fields, |fields|), MAX_REQUIRED_FIELDS)
  {
    TwoWords(words, seen);
  }

  lemma StillRequired(fields: seq<Field>, seen: set<nat>, i: nat)
    requires OnlyRequired(fields, seen) && i < |fields|
    ensures OnlyRequired(fields, seen + SeenBit(fields, i))
  {
    if fields[i].h.Required? { RequiredIndexGrows(fields, i, |fields|); }
  }

  lemma FixedDoneIs(fields: seq<Field>, slots: seq<Slot>, a: set<nat>, b: set<nat>, fixedField: Option<nat>,
                    fixedSize: nat)
    ensures FixedDone(fields, State(slots, a, fixedField, fixedSize))
            == FixedDone(fields, State(slots, b, fixedField, fixedSize))
  {
  }

  lemma LoopEnds(fields: seq<Field>, st: State)
    requires |st.slots| == |fields|
    ensures DecodeLoop(fields, st, []) == Some(st)
  {
  }

  lemma NoIndex(fields: seq<Field>, tag: nat)
    requires forall i :: 0 <= i < |fields| ==> fields[i].tag != tag
    ensures IndexOf(fields, tag, |fields|) == None
  {
  }

  /** With distinct tags it does not matter where the search begins. */
  lemma OneIndex(fields: seq<Field>, i: nat)
    requires SchemaOk(fields) && i < |fields|
    ensures IndexOf(fields, fields[i].tag, |fields|) == Some(i) && TypeOk(fields[i].l)
  {
    IndexIsFound(fields, i, |fields|);
    assert FieldOk(fields[i]);
  }

  lemma LoopStep(fields: seq<Field>, st: State, input: Bytes)
    requires |st.slots| == |fields| && input != []
    ensures DecodeLoop(fields, st, input) == Step(fields, st, input)
  {
  }

  /** One turn of the loop. */
  function Step(fields: seq<Field>, st: State, input: Bytes): Option<State>
    requires |st.slots| == |fields|
  {
    match TakeVarint32(input)
    case None => None
    case Some(key) =>
      if key.value == 0 then Some(st)
      else
        match IndexOf(fields, key.value / 8, |fields|)
        case None =>
          (match PbDecode.SkipField(key.value % 8, key.rest)
           case None => None
           case Some(rest) => DecodeLoop(fields, st, rest))
        case Some(i) =>
          match PbDecode.DecodeField(fields, i, st, key.value % 8, key.rest)
          case None => None
          case Some(g) => DecodeLoop(fields, g.value, g.rest)
  }

  lemma FirstShift(b: nat)
    requires b < 256
    ensures (0 + Shifted(b % 128, 0)) % WORD == b % 128
  {
    assert Capacity(0) == 1;
  }
}
