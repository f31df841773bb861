/** nanopb decoding, from a buffer, into static storage (nanopb/pb_decode.c). */
module PbDecode {
  import opened DbFormat
  import opened Coding
  import opened PbFormat

  const MAX_REQUIRED_FIELDS: nat := 64

  // ---------------------------------------------------------- initial values

  function Zeros(n: nat): Bytes {
    seq(n, _ => 0)
  }

  function Zero(l: LType): Value
    decreases l, 0
  {
    match l
    case LBytes(_) => Str([])
    case LString(_) => Str([])
    case LFixedBytes(length) => Str(Zeros(length))
    case LSubmessage(fields) => Msg(Defaults(fields))
    case _ => Num(0)
  }

  function DefaultValue(f: Field): Value
    decreases f, 1
  {
    if f.l.LSubmessage? || f.default.None? then Zero(f.l) else f.default.value
  }

  /** pb_field_set_to_default */
  function DefaultSlot(f: Field): Slot
    decreases f, 2
  {
    match f.h
    case Optional => Slot(false, [DefaultValue(f)])
    case Repeated(_) => Slot(true, [])
    case FixedCount(_) => Slot(true, [])
    case Oneof(_) => Slot(false, [])
    case _ => Slot(true, [DefaultValue(f)])
  }

  /** pb_message_set_to_defaults */
  function Defaults(fields: seq<Field>): (slots: seq<Slot>)
    ensures |slots| == |fields|
    ensures forall i :: 0 <= i < |fields| ==> slots[i] == DefaultSlot(fields[i])
    decreases fields, 3
  {
    seq(|fields|, i requires 0 <= i < |fields| => DefaultSlot(fields[i]))
  }

  // ---------------------------------------------------------------- numbers

  /** `n` shifted left by `i` times seven bits. */
  function Shifted(n: nat, i: nat): nat {
    n * Capacity(i)
  }

  /** pb_decode_varint32 when `i` bytes have given `result`. What is beyond 32 bits must be
      zero, or the sign extension of a negative number. */
  function Varint32From(input: Bytes, i: nat, result: Word): (r: Option<Got<Word>>)
    ensures r.Some? ==> |r.value.rest| < |input|
  {
    if input == [] then None
    else
      var b: nat, rest := input[0], input[1..];
      if i >= 5 then
        if b % 128 != 0 && (result < 0x8000_0000 || b != SignExtension(7 * i)) then None
        else if b < 128 then Some(Got(result, rest))
        else Varint32From(rest, i + 1, result)
      else
        var next := (result + Shifted(b % 128, i)) % WORD;
        if b >= 128 then Varint32From(rest, i + 1, next)
        else if i == 4 && b >= 16 then None
        else Some(Got(next, rest))
  }

  function SignExtension(bitpos: nat): nat {
    if bitpos < 63 then 0xFF else 0x01
  }

  function TakeVarint32(input: Bytes): (r: Option<Got<Word>>)
    ensures r.Some? ==> |r.value.rest| < |input|
  {
    Varint32From(input, 0, 0)
  }

  /** pb_decode_varint when `i` bytes have given `result`: ten bytes at most, in 64 bits. */
  function Varint64From(input: Bytes, i: nat, result: Dword): (r: Option<Got<Dword>>)
    ensures r.Some? ==> |r.value.rest| < |input|
  {
    if i >= 10 || input == [] then None
    else
      var b: nat, rest := input[0], input[1..];
      var next := (result + Shifted(b % 128, i)) % DWORD;
      if b >= 128 then Varint64From(rest, i + 1, next) else Some(Got(next, rest))
  }

  function TakeVarint64(input: Bytes): (r: Option<Got<Dword>>)
    ensures r.Some? ==> |r.value.rest| < |input|
  {
    Varint64From(input, 0, 0)
  }

  function Take(input: Bytes, n: nat): (r: Option<Got<Bytes>>)
    ensures r.Some? ==> |r.value.value| == n && |r.value.rest| + n == |input|
  {
    if |input| < n then None else Some(Got(input[..n], input[n..]))
  }

  function Checked(fits: bool, n: int, rest: Bytes): Option<Got<int>> {
    if fits then Some(Got(n, rest)) else None
  }

  /** The decoders of pb_dec_bool to pb_dec_fixed64, with their overflow checks. */
  function GetNumber(l: LType, input: Bytes): (r: Option<Got<int>>)
    requires Packable(l)
    ensures r.Some? ==> |r.value.rest| < |input|
  {
    match l
    case LBool =>
      (match TakeVarint32(input)
       case None => None
       case Some(g) => Some(Got(if g.value != 0 then 1 else 0, g.rest)))
    case LVarint(bits) =>
      (match TakeVarint64(input)
       case None => None
       case Some(g) =>
         var n := if bits == 64 then Signed(g.value) else Signed32(g.value);
         Checked(Width(bits) && FitsSigned(bits, n), n, g.rest))
    case LUVarint(bits) =>
      (match TakeVarint64(input)
       case None => None
       case Some(g) => Checked(Width(bits) && FitsUnsigned(bits, g.value), g.value, g.rest))
    case LSVarint(bits) =>
      (match TakeVarint64(input)
       case None => None
       case Some(g) => Checked(Width(bits) && FitsSigned(bits, UnZigZag(g.value)), UnZigZag(g.value), g.rest))
    case LFixed32 =>
      (match Take(input, 4)
       case None => None
       case Some(g) => Some(Got(DecodeFixed32(g.value), g.rest)))
    case LFixed64 =>
      (match Take(input, 8)
       case None => None
       case Some(g) => Some(Got(DecodeFixed64(g.value), g.rest)))
  }

  /** pb_make_string_substream: a length, and that many bytes. */
  function GetDelimited(input: Bytes): (r: Option<Got<Bytes>>)
    ensures r.Some? ==> |r.value.value| + |r.value.rest| < |input|
  {
    match TakeVarint32(input)
    case None => None
    case Some(g) => Take(g.rest, g.value)
  }

  /** What a string buffer shows: the bytes before the first zero. */
  function CString(s: Bytes): Bytes {
    if s == [] || s[0] == 0 then [] else [s[0]] + CString(s[1..])
  }

  // ------------------------------------------------------------------ fields

  /** The message so far, the required fields seen, and the fixed-count array being filled. */
  datatype State = State(slots: seq<Slot>, seen: set<nat>, fixedField: Option<nat>, fixedCount: nat)

  function Fresh(slots: seq<Slot>): State {
    State(slots, {}, None, 0)
  }

  /** required_field_index of field `i`. */
  function RequiredIndex(fields: seq<Field>, i: nat): nat
    requires i <= |fields|
  {
    if i == 0 then 0 else RequiredIndex(fields, i - 1) + if fields[i - 1].h.Required? then 1 else 0
  }

  /** The bit of fields_seen that field `i` sets, if any. */
  function SeenBit(fields: seq<Field>, i: nat): set<nat>
    requires i < |fields|
  {
    if fields[i].h.Required? && RequiredIndex(fields, i) < MAX_REQUIRED_FIELDS then {RequiredIndex(fields, i)} else {}
  }

  /** pb_field_iter_find: the field with this tag. */
  function IndexOf(fields: seq<Field>, tag: nat, n: nat): (r: Option<nat>)
    requires n <= |fields|
    ensures r.Some? ==> r.value < n && fields[r.value].tag == tag
    ensures r.None? ==> forall i :: 0 <= i < n ==> fields[i].tag != tag
  {
    if n == 0 then None
    else if fields[n - 1].tag == tag then Some(n - 1)
    else IndexOf(fields, tag, n - 1)
  }

  lemma {:induction false} IndexIsFound(fields: seq<Field>, i: nat, n: nat)
    requires SchemaOk(fields) && i < n <= |fields|
    ensures IndexOf(fields, fields[i].tag, n) == Some(i)
  {
    if i < n - 1 {
      assert fields[i].tag != fields[n - 1].tag;
      IndexIsFound(fields, i, n - 1);
    }
  }

  /** pb_skip_varint */
  function SkipVarint(input: Bytes): (r: Option<Bytes>)
    ensures r.Some? ==> |r.value| < |input|
  {
    if input == [] then None
    else if input[0] < 128 then Some(input[1..])
    else SkipVarint(input[1..])
  }

  function RestOf(r: Option<Got<Bytes>>): Option<Bytes> {
    if r.None? then None else Some(r.value.rest)
  }

  /** pb_skip_field */
  function SkipField(wire: nat, input: Bytes): (r: Option<Bytes>)
    ensures r.Some? ==> |r.value| <= |input|
  {
    if wire == WT_VARINT then SkipVarint(input)
    else if wire == WT_64BIT then RestOf(Take(input, 8))
    else if wire == WT_STRING then RestOf(GetDelimited(input))
    else if wire == WT_32BIT then RestOf(Take(input, 4))
    else None
  }

  /** A union holds one member: setting it takes the others away. */
  function SetSlot(fields: seq<Field>, slots: seq<Slot>, i: nat, slot: Slot): (r: seq<Slot>)
    requires i < |fields| == |slots|
    ensures |r| == |fields|
  {
    if fields[i].h.Oneof? then
      seq(|fields|, j requires 0 <= j < |fields| =>
        if j == i then slot else if fields[j].h == fields[i].h then Slot(false, []) else slots[j])
    else slots[i := slot]
  }

  // ------------------------------------------------------- values, messages

  /** The field decoders; `cur` is what the destination holds. */
  function DecodeValue(l: LType, cur: Value, input: Bytes): (r: Option<Got<Value>>)
    ensures r.Some? ==> |r.value.rest| <= |input|
    decreases l, 0, 0, 0
  {
    match l
    case LBytes(cap) =>
      (match TakeVarint32(input)
       case None => None
       case Some(g) => if g.value > cap then None else Wrap(Take(g.rest, g.value)))
    case LString(size) =>
      (match TakeVarint32(input)
       case None => None
       case Some(g) =>
         if g.value + 1 > size then None
         else match Take(g.rest, g.value)
           case None => None
           case Some(s) => Some(Got(Str(CString(s.value)), s.rest)))
    case LFixedBytes(length) =>
      (match TakeVarint32(input)
       case None => None
       case Some(g) =>
         if g.value == 0 then Some(Got(Str(Zeros(length)), g.rest))
         else if g.value != length then None
         else Wrap(Take(g.rest, length)))
    case LSubmessage(fields) =>
      (match GetDelimited(input)
       case None => None
       case Some(sub) =>
         var start := if cur.Msg? && |cur.slots| == |fields| then cur.slots else Defaults(fields);
         match DecodeMessage(fields, start, sub.value)
         case None => None
         case Some(slots) => Some(Got(Msg(slots), sub.rest)))
    case _ =>
      match GetNumber(l, input)
      case None => None
      case Some(g) => Some(Got(Num(g.value), g.rest))
  }

  function Wrap(r: Option<Got<Bytes>>): Option<Got<Value>> {
    if r.None? then None else Some(Got(Str(r.value.value), r.value.rest))
  }

  /** The loop over a packed array. */
  function PackedItems(l: LType, items: seq<Value>, max: nat, input: Bytes): Option<seq<Value>>
    requires Packable(l)
    decreases |input|
  {
    if input == [] then Some(items)
    else if |items| >= max then None
    else
      match GetNumber(l, input)
      case None => None
      case Some(g) => PackedItems(l, items + [Num(g.value)], max, g.rest)
  }

  /** The REPEATED case of decode_static_field, for an array that holds `items` of `max`. */
  function DecodeArray(f: Field, items: seq<Value>, max: nat, wire: nat, input: Bytes): (r: Option<Got<seq<Value>>>)
    ensures r.Some? ==> |r.value.rest| <= |input|
    decreases f, 1, 0, 0
  {
    if wire == WT_STRING && Packable(f.l) then
      match GetDelimited(input)
      case None => None
      case Some(sub) =>
        match PackedItems(f.l, items, max, sub.value)
        case None => None
        case Some(all) => Some(Got(all, sub.rest))
    else if |items| >= max then None
    else
      match DecodeValue(f.l, Zero(f.l), input)
      case None => None
      case Some(g) => Some(Got(items + [g.value], g.rest))
  }

  /** What the destination of a single field holds before decoding. */
  function Current(f: Field, slot: Slot): Value {
    if f.h.Oneof? && f.l.LSubmessage? && !slot.has then Zero(f.l)
    else if slot.items == [] then Zero(f.l)
    else slot.items[0]
  }

  function DecodeSingle(f: Field, slot: Slot, input: Bytes): (r: Option<Got<Value>>)
    ensures r.Some? ==> |r.value.rest| <= |input|
    decreases f, 1, 0, 0
  {
    DecodeValue(f.l, Current(f, slot), input)
  }

  /** A fixed-count array left unfinished when another one begins is an error. */
  predicate FixedDone(fields: seq<Field>, st: State) {
    st.fixedField.Some? && st.fixedField.value < |fields| && fields[st.fixedField.value].h.FixedCount? ==>
      st.fixedCount == fields[st.fixedField.value].h.count
  }

  /** decode_static_field, and the bookkeeping around it. */
  function DecodeField(fields: seq<Field>, i: nat, st: State, wire: nat, input: Bytes): (r: Option<Got<State>>)
    requires i < |fields| == |st.slots|
    ensures r.Some? ==> |r.value.rest| <= |input| && |r.value.value.slots| == |fields|
    decreases fields, 2, 0, 0
  {
    var f, slot := fields[i], st.slots[i];
    match f.h
    case Repeated(max) =>
      (match DecodeArray(f, slot.items, max, wire, input)
       case None => None
       case Some(g) => Some(Got(st.(slots := st.slots[i := Slot(true, g.value)]), g.rest)))
    case FixedCount(count) =>
      var again := st.fixedField == Some(i);
      if !again && !FixedDone(fields, st) then None
      else
        (match DecodeArray(f, if again then slot.items else [], count, wire, input)
         case None => None
         case Some(g) =>
           Some(Got(st.(slots := st.slots[i := Slot(true, g.value)], fixedField := Some(i), fixedCount := |g.value|),
               g.rest)))
    case _ =>
      match DecodeSingle(f, slot, input)
      case None => None
      case Some(g) =>
        var slots := SetSlot(fields, st.slots, i, Slot(true, [g.value]));
        Some(Got(st.(slots := slots, seen := st.seen + SeenBit(fields, i)), g.rest))
  }

  /** The loop of pb_decode_noinit: a zero tag ends the message, an unknown one is skipped. */
  function DecodeLoop(fields: seq<Field>, st: State, input: Bytes): (r: Option<State>)
    requires |st.slots| == |fields|
    ensures r.Some? ==> |r.value.slots| == |fields|
    decreases fields, 3, |input|, 0
  {
    if input == [] then Some(st)
    else
      match TakeVarint32(input)
      case None => None
      case Some(key) =>
        if key.value == 0 then Some(st)
        else
          match IndexOf(fields, key.value / 8, |fields|)
          case None =>
            (match SkipField(key.value % 8, key.rest)
             case None => None
             case Some(rest) => DecodeLoop(fields, st, rest))
          case Some(i) =>
            match DecodeField(fields, i, st, key.value % 8, key.rest)
            case None => None
            case Some(g) => DecodeLoop(fields, g.value, g.rest)
  }

  predicate AllRequiredSeen(fields: seq<Field>, seen: set<nat>) {
    forall i :: 0 <= i < |fields| && fields[i].h.Required? && RequiredIndex(fields, i) < MAX_REQUIRED_FIELDS ==>
      RequiredIndex(fields, i) in seen
  }

  /** pb_decode_noinit */
  function DecodeMessage(fields: seq<Field>, slots: seq<Slot>, input: Bytes): (r: Option<seq<Slot>>)
    requires |slots| == |fields|
    ensures r.Some? ==> |r.value| == |fields|
    decreases fields, 4, 0, 0
  {
    match DecodeLoop(fields, Fresh(slots), input)
    case None => None
    case Some(st) => if FixedDone(fields, st) && AllRequiredSeen(fields, st.seen) then Some(st.slots) else None
  }

  /** pb_decode */
  function Decode(fields: seq<Field>, input: Bytes): Option<seq<Slot>> {
    DecodeMessage(fields, Defaults(fields), input)
  }
}
