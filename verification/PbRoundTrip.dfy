/** Decoding what nanopb encoded, with unknown fields in between
    (nanopb/pb_encode.c, nanopb/pb_decode.c). */
module PbRoundTrip {
  import opened DbFormat
  import opened Coding
  import opened PbFormat
  import opened PbDecode

  // --------------------------------------------------------------- numbers

  lemma Units()
    ensures Capacity(1) == 0x80 && Capacity(2) == 0x4000 && Capacity(3) == 0x20_0000 && Capacity(4) == 0x1000_0000
    ensures Capacity(5) == 0x8_0000_0000 && Capacity(9) == 0x8000_0000_0000_0000
  {
    assert Capacity(2) == 128 * Capacity(1) && Capacity(3) == 128 * Capacity(2) && Capacity(4) == 128 * Capacity(3);
    assert Capacity(5) == 128 * Capacity(4) && Capacity(6) == 128 * Capacity(5) && Capacity(7) == 128 * Capacity(6);
    assert Capacity(8) == 128 * Capacity(7) && Capacity(9) == 128 * Capacity(8);
  }

  /** One byte of a longer number, and what is left of it. */
  lemma OneDigit(v: nat, i: nat)
    ensures Shifted(v, i) == Shifted(v % 128, i) + Shifted(v / 128, i + 1)
    ensures v < 128 ==> Shifted(v, i) == Shifted(v % 128, i)
  {
    var unit, q, r := Capacity(i), v / 128, v % 128;
    assert v == 128 * q + r;
    assert (128 * q + r) * unit == q * (128 * unit) + r * unit;
  }

  lemma Uncons(b: byte, s: Bytes, rest: Bytes)
    ensures ([b] + s + rest)[0] == b && ([b] + s + rest)[1..] == s + rest
  {
    assert [b] + s + rest == [b] + (s + rest);
  }

  lemma Regroup(a: Bytes, b: Bytes, rest: Bytes)
    ensures a + b + rest == a + (b + rest)
  {
  }

  lemma FirstByte(v: nat, rest: Bytes)
    ensures var input := Varint(v) + rest;
            if v < 128 then input[0] as nat == v && input[1..] == rest
            else input[0] as nat == v % 128 + 128 && input[1..] == Varint(v / 128) + rest
  {
    if v < 128 {
      Uncons(v, [], rest);
      assert [v] + [] == [v] && [] + rest == rest;
    } else {
      Uncons(v % 128 + 128, Varint(v / 128), rest);
    }
  }

  lemma FitsWord(v: nat, i: nat)
    requires i < 5 && Shifted(v, i) < WORD
    ensures (i == 4 ==> v < 16) && (v >= 128 ==> i < 4)
  {
    Units();
  }

  lemma {:induction false} FromVarint32(v: nat, i: nat, result: Word, rest: Bytes)
    requires i < 5 && result + Shifted(v, i) < WORD
    ensures Varint32From(Varint(v) + rest, i, result) == Some(Got(result + Shifted(v, i), rest))
    decreases v
  {
    hide Shifted, Varint;
    FirstByte(v, rest);
    OneDigit(v, i);
    FitsWord(v, i);
    if v >= 128 {
      FromVarint32(v / 128, i + 1, result + Shifted(v % 128, i), rest);
    }
  }

  lemma FitsDword(v: nat, i: nat)
    requires i < 10 && Shifted(v, i) < DWORD
    ensures v >= 128 ==> i < 9
  {
    Units();
  }

  lemma {:induction false} FromVarint64(v: nat, i: nat, result: Dword, rest: Bytes)
    requires i < 10 && result + Shifted(v, i) < DWORD
    ensures Varint64From(Varint(v) + rest, i, result) == Some(Got(result + Shifted(v, i), rest))
    decreases v
  {
    hide Shifted, Varint;
    FirstByte(v, rest);
    OneDigit(v, i);
    FitsDword(v, i);
    if v >= 128 {
      FromVarint64(v / 128, i + 1, result + Shifted(v % 128, i), rest);
    }
  }

  lemma Varint32IsGot(v: Word, rest: Bytes)
    ensures TakeVarint32(Varint(v) + rest) == Some(Got(v, rest))
  {
    assert Shifted(v, 0) == v;
    FromVarint32(v, 0, 0, rest);
  }

  lemma Varint64IsGot(v: Dword, rest: Bytes)
    ensures TakeVarint64(Varint(v) + rest) == Some(Got(v, rest))
  {
    assert Shifted(v, 0) == v;
    FromVarint64(v, 0, 0, rest);
  }

  lemma TakenIs(s: Bytes, rest: Bytes)
    ensures Take(s + rest, |s|) == Some(Got(s, rest))
  {
  }

  /** Sign extension to 64 bits is undone by looking at the low 32. */
  lemma Signed32IsBack(n: int)
    requires FitsSigned(32, n)
    ensures FitsSigned(64, n) && Signed32(Unsigned(n)) == n
  {
    if n < 0 {
      var low := n + WORD;
      assert n + DWORD == low + WORD * 0xFFFF_FFFF;
      assert (low + WORD * 0xFFFF_FFFF) % WORD == low;
    } else {
      assert n % WORD == n;
    }
  }

  lemma SignedIsBack(bits: nat, n: int)
    requires Width(bits) && FitsSigned(bits, n)
    ensures FitsSigned(64, n) && Unsigned(n) < DWORD
    ensures (if bits == 64 then Signed(Unsigned(n)) else Signed32(Unsigned(n))) == n
  {
    hide Signed32;
    if bits != 64 { Signed32IsBack(n); }
  }

  lemma ZigZagIsBack(bits: nat, n: int)
    requires Width(bits) && FitsSigned(bits, n)
    ensures FitsSigned(64, n) && ZigZag(n) < DWORD && UnZigZag(ZigZag(n)) == n
  {
  }

  lemma NumberIsDecoded(l: LType, n: int, rest: Bytes)
    requires Packable(l) && NumberFits(l, n)
    ensures GetNumber(l, NumberBytes(l, n) + rest) == Some(Got(n, rest))
  {
    hide Varint, TakeVarint32, TakeVarint64, Fixed32, Fixed64, DecodeFixed32, DecodeFixed64, Signed, Signed32,
         Unsigned, ZigZag, UnZigZag;
    match l
    case LBool => Varint32IsGot(n, rest);
    case LVarint(bits) =>
      SignedIsBack(bits, n);
      Varint64IsGot(Unsigned(n), rest);
    case LUVarint(bits) => Varint64IsGot(n, rest);
    case LSVarint(bits) =>
      ZigZagIsBack(bits, n);
      Varint64IsGot(ZigZag(n), rest);
    case LFixed32 =>
      Fixed32RoundTrip(n);
      TakenIs(Fixed32(n), rest);
    case LFixed64 =>
      Fixed64RoundTrip(n);
      TakenIs(Fixed64(n), rest);
  }

  lemma DelimitedIsGot(s: Bytes, rest: Bytes)
    requires |s| < WORD
    ensures GetDelimited(Delimited(s) + rest) == Some(Got(s, rest))
  {
    hide Varint, TakeVarint32;
    Varint32IsGot(|s|, s + rest);
    assert Delimited(s) + rest == Varint(|s|) + (s + rest);
    TakenIs(s, rest);
  }

  lemma {:induction false} CStringIs(s: Bytes)
    requires NoZero(s)
    ensures CString(s) == s
  {
    if s != [] { CStringIs(s[1..]); }
  }

  lemma StringIsDecoded(l: LType, s: Bytes, cur: Value, rest: Bytes)
    requires ValueFits(l, Str(s)) && |s| < WORD
    ensures DecodeValue(l, cur, Delimited(s) + rest) == Some(Got(Str(s), rest))
  {
    hide Varint, TakeVarint32, CString;
    Varint32IsGot(|s|, s + rest);
    assert Delimited(s) + rest == Varint(|s|) + (s + rest);
    TakenIs(s, rest);
    if l.LString? { CStringIs(s); }
    if l.LFixedBytes? && |s| == 0 {
      assert Zeros(0) == s && s + rest == rest;
    }
  }

  // ------------------------------------------------- what decoding restores

  function RestoredValue(l: LType, v: Value): Value
    requires ValueFits(l, v)
    decreases l, 0
  {
    match v
    case Msg(slots) => Msg(Restored(l.fields, slots))
    case _ => v
  }

  /** Present fields come back; absent ones get their defaults. */
  function RestoredSlot(f: Field, slot: Slot): Slot
    requires SlotFits(f, slot)
    decreases f, 1
  {
    if Written(f, slot) then
      Slot(true, seq(|slot.items|, i requires 0 <= i < |slot.items| => RestoredValue(f.l, slot.items[i])))
    else DefaultSlot(f)
  }

  function Restored(fields: seq<Field>, slots: seq<Slot>): (r: seq<Slot>)
    requires MessageFits(fields, slots)
    ensures |r| == |fields|
    ensures forall i :: 0 <= i < |fields| ==> r[i] == RestoredSlot(fields[i], slots[i])
    decreases fields, 2
  {
    seq(|fields|, i requires 0 <= i < |fields| => RestoredSlot(fields[i], slots[i]))
  }

  /** The struct when the first `n` fields have been decoded. */
  function Partial(fields: seq<Field>, slots: seq<Slot>, n: nat): (r: seq<Slot>)
    requires MessageFits(fields, slots) && n <= |fields|
    ensures |r| == |fields|
    ensures forall i :: 0 <= i < |fields| ==> r[i] == if i < n then RestoredSlot(fields[i], slots[i])
            else DefaultSlot(fields[i])
  {
    seq(|fields|, i requires 0 <= i < |fields| => if i < n then RestoredSlot(fields[i], slots[i])
        else DefaultSlot(fields[i]))
  }

  function SeenAfter(fields: seq<Field>, n: nat): set<nat>
    requires n <= |fields|
  {
    if n == 0 then {} else SeenAfter(fields, n - 1) + SeenBit(fields, n - 1)
  }

  /** The last fixed-count array among the first `n` fields. */
  function FixedAfter(fields: seq<Field>, n: nat): Option<nat>
    requires n <= |fields|
  {
    if n == 0 then None else if fields[n - 1].h.FixedCount? then Some(n - 1) else FixedAfter(fields, n - 1)
  }

  lemma {:induction false} FixedAfterIs(fields: seq<Field>, n: nat)
    requires n <= |fields|
    ensures FixedAfter(fields, n).Some? ==>
            FixedAfter(fields, n).value < n && fields[FixedAfter(fields, n).value].h.FixedCount?
  {
    if n > 0 { FixedAfterIs(fields, n - 1); }
  }

  function StateAfter(fields: seq<Field>, slots: seq<Slot>, n: nat): (st: State)
    requires MessageFits(fields, slots) && n <= |fields|
    ensures |st.slots| == |fields|
  {
    FixedAfterIs(fields, n);
    var fixed := FixedAfter(fields, n);
    State(Partial(fields, slots, n), SeenAfter(fields, n), fixed,
          if fixed.Some? then fields[fixed.value].h.count else 0)
  }

  // ---------------------------------------------------------- unknown fields

  /** A field that is not in the schema, as other programs may have written it. */
  datatype Unknown =
    | UnknownVarint(tag: nat, v: Dword)
    | Unknown64(tag: nat, v: Dword)
    | UnknownBytes(tag: nat, s: Bytes)
    | Unknown32(tag: nat, w: Word)

  predicate IsUnknown(fields: seq<Field>, u: Unknown) {
    && 0 < u.tag < 0x2000_0000 && (u.UnknownBytes? ==> |u.s| < WORD)
    && forall i :: 0 <= i < |fields| ==> fields[i].tag != u.tag
  }

  function UnknownField(u: Unknown): Bytes {
    match u
    case UnknownVarint(tag, v) => TagBytes(tag, WT_VARINT) + Varint(v)
    case Unknown64(tag, v) => TagBytes(tag, WT_64BIT) + Fixed64(v)
    case UnknownBytes(tag, s) => TagBytes(tag, WT_STRING) + Delimited(s)
    case Unknown32(tag, w) => TagBytes(tag, WT_32BIT) + Fixed32(w)
  }

  function UnknownFields(us: seq<Unknown>): Bytes {
    if us == [] then [] else UnknownField(us[0]) + UnknownFields(us[1..])
  }

  lemma {:induction false} VarintIsSkipped(v: nat, rest: Bytes)
    ensures SkipVarint(Varint(v) + rest) == Some(rest)
  {
    var input := Varint(v) + rest;
    if v < 128 {
      assert input[1..] == rest;
    } else {
      assert input[1..] == Varint(v / 128) + rest;
      VarintIsSkipped(v / 128, rest);
    }
  }

  lemma {:induction false} NotFound(fields: seq<Field>, tag: nat, n: nat)
    requires n <= |fields| && forall i :: 0 <= i < |fields| ==> fields[i].tag != tag
    ensures IndexOf(fields, tag, n) == None
  {
  }

  /** Reading a key gives the tag and the wire type back. */
  lemma KeyIsGot(tag: nat, wire: nat, rest: Bytes)
    requires 0 < tag < 0x2000_0000 && wire < 8
    ensures TakeVarint32(TagBytes(tag, wire) + rest) == Some(Got(tag * 8 + wire, rest))
    ensures tag * 8 + wire != 0 && (tag * 8 + wire) / 8 == tag && (tag * 8 + wire) % 8 == wire
    ensures TagBytes(tag, wire) + rest != []
  {
    hide Varint;
    Varint32IsGot(tag * 8 + wire, rest);
  }

  lemma PayloadIsSkipped(u: Unknown, rest: Bytes)
    requires u.UnknownBytes? ==> |u.s| < WORD
    ensures match u
            case UnknownVarint(_, v) => SkipField(WT_VARINT, Varint(v) + rest) == Some(rest)
            case Unknown64(_, v) => SkipField(WT_64BIT, Fixed64(v) + rest) == Some(rest)
            case UnknownBytes(_, s) => SkipField(WT_STRING, Delimited(s) + rest) == Some(rest)
            case Unknown32(_, w) => SkipField(WT_32BIT, Fixed32(w) + rest) == Some(rest)
  {
    hide Varint, SkipVarint, Fixed32, Fixed64, GetDelimited, Delimited;
    match u
    case UnknownVarint(_, v) => VarintIsSkipped(v, rest);
    case Unknown64(_, v) => TakenIs(Fixed64(v), rest);
    case UnknownBytes(_, s) => DelimitedIsGot(s, rest);
    case Unknown32(_, w) => TakenIs(Fixed32(w), rest);
  }

  lemma LoopSkips(fields: seq<Field>, st: State, tag: nat, wire: nat, input: Bytes, rest: Bytes)
    requires |st.slots| == |fields| && 0 < tag < 0x2000_0000 && wire < 8
    requires forall i :: 0 <= i < |fields| ==> fields[i].tag != tag
    requires SkipField(wire, input) == Some(rest)
    ensures DecodeLoop(fields, st, TagBytes(tag, wire) + input) == DecodeLoop(fields, st, rest)
  {
    hide Varint, SkipField, TagBytes, TakeVarint32, IndexOf, DecodeField;
    NotFound(fields, tag, |fields|);
    KeyIsGot(tag, wire, input);
  }

  /** One turn of the loop, for a field of the schema. */
  lemma LoopDecodes(fields: seq<Field>, st: State, i: nat, wire: nat, input: Bytes, next: State, rest: Bytes)
    requires SchemaOk(fields) && i < |fields| == |st.slots| && wire < 8
    requires DecodeField(fields, i, st, wire, input) == Some(Got(next, rest))
    ensures |next.slots| == |fields|
    ensures DecodeLoop(fields, st, TagBytes(fields[i].tag, wire) + input) == DecodeLoop(fields, next, rest)
  {
    hide Varint, SkipField, TagBytes, TakeVarint32, IndexOf, DecodeField, TypeOk;
    assert FieldOk(fields[i]);
    IndexIsFound(fields, i, |fields|);
    KeyIsGot(fields[i].tag, wire, input);
  }

  lemma UnknownIsSkipped(fields: seq<Field>, st: State, u: Unknown, rest: Bytes)
    requires |st.slots| == |fields| && IsUnknown(fields, u)
    ensures DecodeLoop(fields, st, UnknownField(u) + rest) == DecodeLoop(fields, st, rest)
  {
    hide Varint, SkipField, Fixed32, Fixed64, Delimited, TagBytes, DecodeLoop;
    PayloadIsSkipped(u, rest);
    match u
    case UnknownVarint(tag, v) =>
      LoopSkips(fields, st, tag, WT_VARINT, Varint(v) + rest, rest);
      Regroup(TagBytes(tag, WT_VARINT), Varint(v), rest);
    case Unknown64(tag, v) =>
      LoopSkips(fields, st, tag, WT_64BIT, Fixed64(v) + rest, rest);
      Regroup(TagBytes(tag, WT_64BIT), Fixed64(v), rest);
    case UnknownBytes(tag, s) =>
      LoopSkips(fields, st, tag, WT_STRING, Delimited(s) + rest, rest);
      Regroup(TagBytes(tag, WT_STRING), Delimited(s), rest);
    case Unknown32(tag, w) =>
      LoopSkips(fields, st, tag, WT_32BIT, Fixed32(w) + rest, rest);
      Regroup(TagBytes(tag, WT_32BIT), Fixed32(w), rest);
  }

  lemma {:induction false} UnknownsAreSkipped(fields: seq<Field>, st: State, us: seq<Unknown>, rest: Bytes)
    requires |st.slots| == |fields| && forall u :: u in us ==> IsUnknown(fields, u)
    ensures DecodeLoop(fields, st, UnknownFields(us) + rest) == DecodeLoop(fields, st, rest)
    decreases |us|
  {
    hide DecodeLoop, UnknownField, IsUnknown;
    if us == [] {
      assert UnknownFields(us) + rest == rest;
    } else {
      UnknownsAreSkipped(fields, st, us[1..], rest);
      assert UnknownFields(us) + rest == UnknownField(us[0]) + (UnknownFields(us[1..]) + rest);
      UnknownIsSkipped(fields, st, us[0], UnknownFields(us[1..]) + rest);
    }
  }
}
