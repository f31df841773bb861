/** nanopb: schemas, messages, and the bytes that encoding makes of them (nanopb/pb.h,
    nanopb/pb_encode.c; Protocol Buffers Encoding specification, sections "Base 128 Varints",
    "Message Structure" and "Length-Delimited Records"). */
module PbFormat {
  import opened DbFormat
  import opened Coding

  // ----------------------------------------------------- schemas and messages

  /** PB_LTYPE with its data size; integers are given by their width in bits. */
  datatype LType =
    | LBool
    | LVarint(bits: nat)
    | LUVarint(bits: nat)
    | LSVarint(bits: nat)
    | LFixed32
    | LFixed64
    | LBytes(cap: nat)
    | LString(size: nat)
    | LSubmessage(fields: seq<Field>)
    | LFixedBytes(length: nat)

  /** PB_HTYPE; Singular is an optional field without a has_ flag, FixedCount an array
      without a count. */
  datatype HType = Required | Optional | Singular | Repeated(max: nat) | FixedCount(count: nat) | Oneof(union: nat)

  datatype Field = Field(tag: nat, h: HType, l: LType, default: Option<Value>)

  datatype Value = Num(n: int) | Str(s: Bytes) | Msg(slots: seq<Slot>)

  /** A field's place in the struct: `has` is the has_ flag of an optional field, or whether
      which_ names this member of a union; `items` are the values. */
  datatype Slot = Slot(has: bool, items: seq<Value>)

  predicate Packable(l: LType) {
    l.LBool? || l.LVarint? || l.LUVarint? || l.LSVarint? || l.LFixed32? || l.LFixed64?
  }

  predicate IsArray(h: HType) {
    h.Repeated? || h.FixedCount?
  }

  function Room(h: HType): nat
    requires IsArray(h)
  {
    if h.Repeated? then h.max else h.count
  }

  // --------------------------------------------------------------- numbers

  predicate Width(bits: nat) {
    bits == 8 || bits == 16 || bits == 32 || bits == 64
  }

  const HALF_DWORD: nat := 0x8000_0000_0000_0000

  function Half(bits: nat): nat {
    if bits == 8 then 0x80 else if bits == 16 then 0x8000 else if bits == 32 then 0x8000_0000 else HALF_DWORD
  }

  predicate FitsSigned(bits: nat, n: int) {
    -(Half(bits) as int) <= n < Half(bits)
  }

  predicate FitsUnsigned(bits: nat, n: int) {
    0 <= n < 2 * Half(bits)
  }

  /** A 64-bit two's complement number as an unsigned one, and back. */
  function Unsigned(n: int): nat
    requires FitsSigned(64, n)
  {
    if n < 0 then n + DWORD else n
  }

  function Signed(v: nat): int {
    if v < HALF_DWORD then v else v - DWORD
  }

  /** The cast to int32_t. */
  function Signed32(v: nat): int {
    var w := v % WORD;
    if w < 0x8000_0000 then w else w - WORD
  }

  function ZigZag(n: int): nat
    requires FitsSigned(64, n)
  {
    if n < 0 then -2 * n - 1 else 2 * n
  }

  function UnZigZag(v: nat): int {
    if v % 2 == 1 then -(v / 2) - 1 else v / 2
  }

  /** A number that its type can hold. */
  predicate NumberFits(l: LType, n: int) {
    match l
    case LBool => n == 0 || n == 1
    case LVarint(bits) => Width(bits) && FitsSigned(bits, n)
    case LUVarint(bits) => Width(bits) && FitsUnsigned(bits, n)
    case LSVarint(bits) => Width(bits) && FitsSigned(bits, n)
    case LFixed32 => 0 <= n < WORD
    case LFixed64 => 0 <= n < DWORD
    case _ => false
  }

  function NumberBytes(l: LType, n: int): Bytes
    requires NumberFits(l, n)
  {
    match l
    case LBool => Varint(n)
    case LVarint(_) => Varint(Unsigned(n))
    case LUVarint(_) => Varint(n)
    case LSVarint(_) => Varint(ZigZag(n))
    case LFixed32 => Fixed32(n)
    case LFixed64 => Fixed64(n)
  }

  // ------------------------------------------------------ in-bounds messages

  /** The bytes of a string end at the first zero. */
  predicate NoZero(s: Bytes) {
    forall i :: 0 <= i < |s| ==> s[i] != 0
  }

  predicate ValueFits(l: LType, v: Value)
    decreases l, 0
  {
    match v
    case Num(n) => NumberFits(l, n)
    case Str(s) =>
      (match l
       case LBytes(cap) => |s| <= cap
       case LString(size) => |s| < size && NoZero(s)
       case LFixedBytes(length) => |s| == length
       case _ => false)
    case Msg(slots) => l.LSubmessage? && MessageFits(l.fields, slots)
  }

  predicate SlotFits(f: Field, slot: Slot)
    decreases f, 1
  {
    && (forall i :: 0 <= i < |slot.items| ==> ValueFits(f.l, slot.items[i]))
    && match f.h
       case Repeated(max) => |slot.items| <= max
       case FixedCount(count) => |slot.items| == count
       case Oneof(_) => |slot.items| == if slot.has then 1 else 0
       case _ => |slot.items| == 1
  }

  /** At most one member of a union is set. */
  predicate UnionsOk(fields: seq<Field>, slots: seq<Slot>)
    requires |slots| == |fields|
  {
    forall i, j :: 0 <= i < j < |fields| && fields[i].h.Oneof? && fields[j].h == fields[i].h
        ==> !(slots[i].has && slots[j].has)
  }

  predicate MessageFits(fields: seq<Field>, slots: seq<Slot>)
    decreases fields, 2
  {
    && |slots| == |fields| && UnionsOk(fields, slots)
    && forall i :: 0 <= i < |fields| ==> SlotFits(fields[i], slots[i])
  }

  // ----------------------------------------------------------- valid schemas

  predicate TypeOk(l: LType)
    decreases l, 0
  {
    match l
    case LVarint(bits) => Width(bits)
    case LUVarint(bits) => Width(bits)
    case LSVarint(bits) => Width(bits)
    case LSubmessage(fields) => SchemaOk(fields)
    case _ => true
  }

  /** Tags fit behind three bits of wire type; proto3 fields have no default. */
  predicate FieldOk(f: Field)
    decreases f, 1
  {
    && 0 < f.tag < 0x2000_0000 && TypeOk(f.l)
    && (f.h.Singular? ==> f.default.None?)
    && (f.h.FixedCount? ==> f.h.count > 0)
  }

  predicate SchemaOk(fields: seq<Field>)
    decreases fields, 2
  {
    && (forall i :: 0 <= i < |fields| ==> FieldOk(fields[i]))
    && forall i, j :: 0 <= i < j < |fields| ==> fields[i].tag != fields[j].tag
  }

  // ---------------------------------------------------------------- encoding

  const WT_VARINT: nat := 0
  const WT_64BIT: nat := 1
  const WT_STRING: nat := 2
  const WT_32BIT: nat := 5

  function WireType(l: LType): nat {
    match l
    case LFixed32 => WT_32BIT
    case LFixed64 => WT_64BIT
    case LBytes(_) => WT_STRING
    case LString(_) => WT_STRING
    case LSubmessage(_) => WT_STRING
    case LFixedBytes(_) => WT_STRING
    case _ => WT_VARINT
  }

  function TagBytes(tag: nat, wire: nat): Bytes {
    Varint(tag * 8 + wire)
  }

  function Delimited(s: Bytes): Bytes {
    Varint(|s|) + s
  }

  function ValueBytes(l: LType, v: Value): Bytes
    requires ValueFits(l, v)
    decreases l, 0, 0
  {
    match v
    case Num(n) => NumberBytes(l, n)
    case Str(s) => Delimited(s)
    case Msg(slots) => Delimited(MessageBytes(l.fields, slots, |l.fields|))
  }

  /** pb_check_proto3_default_value */
  predicate IsZero(f: Field, slot: Slot)
    requires SlotFits(f, slot)
    decreases f, 2, 0
  {
    match f.h
    case Required => false
    case Repeated(_) => slot.items == []
    case FixedCount(_) => false
    case Oneof(_) => !slot.has
    case Optional => !slot.has
    case Singular =>
      assert ValueFits(f.l, slot.items[0]);
      match slot.items[0]
      case Num(n) => n == 0
      case Str(s) => if f.l.LFixedBytes? then f.l.length == 0 else s == []
      case Msg(slots) =>
        assert MessageFits(f.l.fields, slots);
        forall i :: 0 <= i < |slots| ==> IsZero(f.l.fields[i], slots[i])
  }

  /** The first `n` items, each behind its tag unless packed. */
  function ItemsBytes(f: Field, items: seq<Value>, n: nat, packed: bool): Bytes
    requires n <= |items| && forall i :: 0 <= i < |items| ==> ValueFits(f.l, items[i])
    decreases f, 1, n
  {
    if n == 0 then []
    else
      ItemsBytes(f, items, n - 1, packed)
        + ((if packed then [] else TagBytes(f.tag, WireType(f.l))) + ValueBytes(f.l, items[n - 1]))
  }

  function ArrayBytes(f: Field, items: seq<Value>): Bytes
    requires forall i :: 0 <= i < |items| ==> ValueFits(f.l, items[i])
    decreases f, 2, 0
  {
    if items == [] then []
    else if Packable(f.l) then TagBytes(f.tag, WT_STRING) + Delimited(ItemsBytes(f, items, |items|, true))
    else ItemsBytes(f, items, |items|, false)
  }

  /** Whether encode_basic_field writes the field. */
  predicate Written(f: Field, slot: Slot)
    requires SlotFits(f, slot)
  {
    match f.h
    case Required => true
    case Optional => slot.has
    case Singular => !IsZero(f, slot)
    case Oneof(_) => slot.has
    case _ => slot.items != []
  }

  function FieldBytes(f: Field, slot: Slot): Bytes
    requires SlotFits(f, slot)
    decreases f, 3, 0
  {
    if IsArray(f.h) then ArrayBytes(f, slot.items)
    else if Written(f, slot) then TagBytes(f.tag, WireType(f.l)) + ValueBytes(f.l, slot.items[0])
    else []
  }

  /** pb_encode: the fields in the order of the schema. */
  function MessageBytes(fields: seq<Field>, slots: seq<Slot>, n: nat): Bytes
    requires n <= |fields| && MessageFits(fields, slots)
    decreases fields, 4, n
  {
    if n == 0 then [] else MessageBytes(fields, slots, n - 1) + FieldBytes(fields[n - 1], slots[n - 1])
  }
}
