/** Whole messages of nanopb: decoding restores what was encoded
    (nanopb/pb_encode.c, nanopb/pb_decode.c). */
module PbMessages {
  import opened DbFormat
  import opened Coding
  import opened PbFormat
  import opened PbDecode
  import opened PbRoundTrip

  // ------------------------------------------------ from one field to the next

  lemma FieldFits(fields: seq<Field>, slots: seq<Slot>, i: nat)
    requires MessageFits(fields, slots) && i < |fields|
    ensures |slots| == |fields| && SlotFits(fields[i], slots[i])
  {
  }

  lemma SlotIsPlaced(fields: seq<Field>, slots: seq<Slot>, n: nat)
    requires MessageFits(fields, slots) && n < |fields|
    ensures SlotFits(fields[n], slots[n])
    ensures Partial(fields, slots, n)[n := RestoredSlot(fields[n], slots[n])] == Partial(fields, slots, n + 1)
  {
    hide SlotFits, UnionsOk, RestoredSlot, DefaultSlot;
  }

  /** The other members of a union are not set, before or after this one. */
  lemma UnionIsPlaced(fields: seq<Field>, slots: seq<Slot>, n: nat)
    requires MessageFits(fields, slots) && n < |fields| && !IsArray(fields[n].h) && Written(fields[n], slots[n])
    ensures SlotFits(fields[n], slots[n])
    ensures SetSlot(fields, Partial(fields, slots, n), n, RestoredSlot(fields[n], slots[n]))
            == Partial(fields, slots, n + 1)
  {
    hide ValueFits, RestoredValue, IsZero;
    SlotIsPlaced(fields, slots, n);
    if fields[n].h.Oneof? {
      assert slots[n].has;
      forall j | 0 <= j < |fields| && j != n && fields[j].h == fields[n].h
        ensures Partial(fields, slots, n + 1)[j] == Slot(false, [])
      {
        assert !slots[j].has;
        assert SlotFits(fields[j], slots[j]);
      }
    }
  }

  lemma StateSkips(fields: seq<Field>, slots: seq<Slot>, n: nat)
    requires MessageFits(fields, slots) && n < |fields| && !fields[n].h.Required? && !fields[n].h.FixedCount?
    requires SlotFits(fields[n], slots[n]) && !Written(fields[n], slots[n])
    ensures StateAfter(fields, slots, n + 1) == StateAfter(fields, slots, n)
  {
    hide SlotFits, UnionsOk, Written, DefaultSlot;
    assert Partial(fields, slots, n + 1) == Partial(fields, slots, n);
  }

  lemma CurrentIsZero(f: Field)
    requires f.l.LSubmessage? && !IsArray(f.h)
    ensures Current(f, DefaultSlot(f)) == Zero(f.l)
  {
    hide Zero;
  }

  // ---------------------------------------------------------------- one value

  lemma {:induction false} ValueIsDecoded(l: LType, v: Value, cur: Value, rest: Bytes)
    requires TypeOk(l) && ValueFits(l, v) && |ValueBytes(l, v)| < WORD && (l.LSubmessage? ==> cur == Zero(l))
    ensures DecodeValue(l, cur, ValueBytes(l, v) + rest) == Some(Got(RestoredValue(l, v), rest))
    decreases l, 0, 0
  {
    hide NumberBytes, GetNumber, Delimited, TakeVarint32, GetDelimited, Take, CString, DecodeMessage, Restored,
         MessageBytes, SchemaOk, Defaults;
    match v
    case Num(n) => NumberIsDecoded(l, n, rest);
    case Str(s) =>
      DelimitedLength(s);
      StringIsDecoded(l, s, cur, rest);
    case Msg(slots) =>
      var sub := MessageBytes(l.fields, slots, |l.fields|);
      DelimitedLength(sub);
      DelimitedIsGot(sub, rest);
      PlainIsDecoded(l.fields, slots);
  }

  lemma DelimitedLength(s: Bytes)
    ensures |Delimited(s)| > |s|
  {
    hide Varint;
  }

  // ---------------------------------------------------------------- one field

  lemma {:induction false} SingleValue(f: Field, v: Value, rest: Bytes)
    requires TypeOk(f.l) && !IsArray(f.h) && ValueFits(f.l, v) && |ValueBytes(f.l, v)| < WORD
    ensures DecodeSingle(f, DefaultSlot(f), ValueBytes(f.l, v) + rest) == Some(Got(RestoredValue(f.l, v), rest))
    decreases f, 0, 0
  {
    hide DecodeValue, ValueBytes, ValueFits, RestoredValue, Zero, TypeOk, Current, DefaultSlot;
    if f.l.LSubmessage? { CurrentIsZero(f); }
    ValueIsDecoded(f.l, v, Current(f, DefaultSlot(f)), rest);
  }

  lemma {:induction false} SingleIsDecoded(fields: seq<Field>, slots: seq<Slot>, n: nat, rest: Bytes)
    requires SchemaOk(fields) && MessageFits(fields, slots) && n < |fields| && !IsArray(fields[n].h)
    requires Written(fields[n], slots[n]) && |FieldBytes(fields[n], slots[n])| < WORD
    ensures DecodeLoop(fields, StateAfter(fields, slots, n), FieldBytes(fields[n], slots[n]) + rest)
         == DecodeLoop(fields, StateAfter(fields, slots, n + 1), rest)
    decreases fields, 3, 0
  {
    hide DecodeLoop, TagBytes, ValueBytes, DecodeValue, ValueFits, RestoredValue, Partial, SetSlot, SeenBit, Zero,
         IsZero, TypeOk, WireType;
    var f, v := fields[n], slots[n].items[0];
    assert FieldOk(f) && ValueFits(f.l, v);
    var st := StateAfter(fields, slots, n);
    assert st.slots[n] == DefaultSlot(f);
    SingleValue(f, v, rest);
    UnionIsPlaced(fields, slots, n);
    assert RestoredSlot(f, slots[n]) == Slot(true, [RestoredValue(f.l, v)]);
    WireTypes(f.l);
    LoopDecodes(fields, st, n, WireType(f.l), ValueBytes(f.l, v) + rest, StateAfter(fields, slots, n + 1), rest);
    assert FieldBytes(f, slots[n]) + rest == TagBytes(f.tag, WireType(f.l)) + (ValueBytes(f.l, v) + rest);
  }

  lemma WireTypes(l: LType)
    ensures WireType(l) < 8 && (Packable(l) ==> WireType(l) != WT_STRING)
  {
  }

  // ------------------------------------------------------------------- arrays

  /** The state when the first `k` items of array `n` have been decoded. */
  function ArrayState(fields: seq<Field>, slots: seq<Slot>, n: nat, k: nat): (st: State)
    requires MessageFits(fields, slots) && n < |fields| && IsArray(fields[n].h) && k <= |slots[n].items|
    requires SlotFits(fields[n], slots[n])
    ensures |st.slots| == |fields|
  {
    var st := StateAfter(fields, slots, n);
    if k == 0 then st
    else
      st.(slots := st.slots[n := Slot(true, RestoredItems(fields[n], slots[n].items, k))],
          fixedField := if fields[n].h.FixedCount? then Some(n) else st.fixedField,
          fixedCount := if fields[n].h.FixedCount? then k else st.fixedCount)
  }

  function RestoredItems(f: Field, items: seq<Value>, k: nat): (r: seq<Value>)
    requires k <= |items| && forall i :: 0 <= i < |items| ==> ValueFits(f.l, items[i])
    ensures |r| == k
  {
    seq(k, i requires 0 <= i < k => RestoredValue(f.l, items[i]))
  }

  lemma ArrayIsPlaced(fields: seq<Field>, slots: seq<Slot>, n: nat)
    requires MessageFits(fields, slots) && n < |fields| && IsArray(fields[n].h) && FieldOk(fields[n])
    requires SlotFits(fields[n], slots[n])
    ensures ArrayState(fields, slots, n, |slots[n].items|) == StateAfter(fields, slots, n + 1)
  {
    hide ValueFits, RestoredValue, Partial, DefaultValue, TypeOk;
    var f, slot := fields[n], slots[n];
    if slot.items == [] {
      StateSkips(fields, slots, n);
    } else {
      SlotIsPlaced(fields, slots, n);
      assert RestoredSlot(f, slot) == Slot(true, RestoredItems(f, slot.items, |slot.items|));
      assert SeenAfter(fields, n + 1) == SeenAfter(fields, n);
    }
  }

  lemma StateIsDone(fields: seq<Field>, slots: seq<Slot>, n: nat)
    requires MessageFits(fields, slots) && n <= |fields|
    ensures FixedDone(fields, StateAfter(fields, slots, n)) && StateAfter(fields, slots, n).fixedField != Some(n)
  {
    hide MessageFits, Partial, SeenAfter, FixedAfter;
    FixedAfterIs(fields, n);
  }

  /** What DecodeField makes of an array is what DecodeArray makes of its items. */
  lemma ArrayIsStepped(fields: seq<Field>, slots: seq<Slot>, n: nat, k: nat, m: nat, wire: nat, input: Bytes,
                       rest: Bytes)
    requires MessageFits(fields, slots) && n < |fields| == |slots| && IsArray(fields[n].h) && k < m <= |slots[n].items|
    requires SlotFits(fields[n], slots[n])
    requires DecodeArray(fields[n], RestoredItems(fields[n], slots[n].items, k), Room(fields[n].h), wire, input)
          == Some(Got(RestoredItems(fields[n], slots[n].items, m), rest))
    ensures DecodeField(fields, n, ArrayState(fields, slots, n, k), wire, input)
         == Some(Got(ArrayState(fields, slots, n, m), rest))
  {
    hide ValueFits, RestoredValue, Partial, DecodeArray, MessageFits, FixedDone, SeenAfter, FixedAfter;
    var st := StateAfter(fields, slots, n);
    assert st.slots[n] == DefaultSlot(fields[n]);
    StateIsDone(fields, slots, n);
    if k == 0 {
      assert RestoredItems(fields[n], slots[n].items, 0) == [];
    }
    assert ArrayState(fields, slots, n, k).slots[n := Slot(true, RestoredItems(fields[n], slots[n].items, m))]
        == st.slots[n := Slot(true, RestoredItems(fields[n], slots[n].items, m))];
  }

  lemma ItemFits(f: Field, slot: Slot)
    requires SlotFits(f, slot) && IsArray(f.h)
    ensures forall i :: 0 <= i < |slot.items| ==> ValueFits(f.l, slot.items[i])
    ensures |slot.items| <= Room(f.h)
  {
  }

  /** The numbers of a packed array, from the k-th on. */
  lemma {:induction false} PackedAreDecoded(f: Field, items: seq<Value>, k: nat, max: nat, tail: Bytes)
    requires Packable(f.l) && k <= |items| <= max && forall i :: 0 <= i < |items| ==> ValueFits(f.l, items[i])
    ensures PackedItems(f.l, [], max, ItemsBytes(f, items, k, true) + tail)
         == PackedItems(f.l, RestoredItems(f, items, k), max, tail)
  {
    hide ValueFits, GetNumber, NumberBytes, Packable, RestoredValue;
    if k == 0 {
      assert ItemsBytes(f, items, 0, true) + tail == tail;
      assert RestoredItems(f, items, 0) == [];
    } else {
      var b := ValueBytes(f.l, items[k - 1]);
      PackedAreDecoded(f, items, k - 1, max, b + tail);
      assert ItemsBytes(f, items, k, true) + tail == ItemsBytes(f, items, k - 1, true) + (b + tail);
      PackedOne(f, items, k, max, tail);
    }
  }

  lemma PackedOne(f: Field, items: seq<Value>, k: nat, max: nat, tail: Bytes)
    requires Packable(f.l) && 0 < k <= |items| <= max && forall i :: 0 <= i < |items| ==> ValueFits(f.l, items[i])
    ensures PackedItems(f.l, RestoredItems(f, items, k - 1), max, ValueBytes(f.l, items[k - 1]) + tail)
         == PackedItems(f.l, RestoredItems(f, items, k), max, tail)
  {
    hide GetNumber, NumberBytes;
    var v := items[k - 1];
    assert ValueFits(f.l, v);
    assert v.Num?;
    NumberIsDecoded(f.l, v.n, tail);
    assert RestoredItems(f, items, k - 1) + [v] == RestoredItems(f, items, k);
  }

  lemma PackedArray(f: Field, items: seq<Value>, max: nat, rest: Bytes)
    requires Packable(f.l) && |items| <= max && forall i :: 0 <= i < |items| ==> ValueFits(f.l, items[i])
    requires |ItemsBytes(f, items, |items|, true)| < WORD
    ensures DecodeArray(f, RestoredItems(f, items, 0), max, WT_STRING,
            Delimited(ItemsBytes(f, items, |items|, true)) + rest)
         == Some(Got(RestoredItems(f, items, |items|), rest))
  {
    hide ValueFits, RestoredValue, ItemsBytes, Delimited, GetDelimited;
    var sub := ItemsBytes(f, items, |items|, true);
    DelimitedIsGot(sub, rest);
    PackedAreDecoded(f, items, |items|, max, []);
    assert sub + [] == sub;
    assert RestoredItems(f, items, 0) == [];
  }

  lemma {:induction false} OneItem(f: Field, items: seq<Value>, k: nat, max: nat, rest: Bytes)
    requires !Packable(f.l) && TypeOk(f.l) && k < |items| <= max
    requires forall i :: 0 <= i < |items| ==> ValueFits(f.l, items[i])
    requires |ValueBytes(f.l, items[k])| < WORD
    ensures DecodeArray(f, RestoredItems(f, items, k), max, WireType(f.l), ValueBytes(f.l, items[k]) + rest)
         == Some(Got(RestoredItems(f, items, k + 1), rest))
    decreases f, 0, 0
  {
    hide ValueFits, ValueBytes, RestoredValue, DecodeValue, TypeOk, Zero;
    ValueIsDecoded(f.l, items[k], Zero(f.l), rest);
    assert RestoredItems(f, items, k) + [RestoredValue(f.l, items[k])] == RestoredItems(f, items, k + 1);
  }

  lemma ItemsBytesGrow(f: Field, items: seq<Value>, k: nat, packed: bool)
    requires k < |items| && forall i :: 0 <= i < |items| ==> ValueFits(f.l, items[i])
    ensures |ItemsBytes(f, items, k, packed)| <= |ItemsBytes(f, items, k + 1, packed)|
    ensures |ValueBytes(f.l, items[k])| <= |ItemsBytes(f, items, k + 1, packed)|
  {
    hide ValueFits, ValueBytes, TagBytes;
  }

  lemma {:induction false} ItemsAreDecoded(fields: seq<Field>, slots: seq<Slot>, n: nat, k: nat, rest: Bytes)
    requires SchemaOk(fields) && MessageFits(fields, slots) && n < |fields| == |slots| && IsArray(fields[n].h)
             && !Packable(fields[n].l)
    requires SlotFits(fields[n], slots[n]) && k <= |slots[n].items|
    requires |ItemsBytes(fields[n], slots[n].items, k, false)| < WORD
    ensures DecodeLoop(fields, ArrayState(fields, slots, n, 0), ItemsBytes(fields[n], slots[n].items, k, false) + rest)
         == DecodeLoop(fields, ArrayState(fields, slots, n, k), rest)
    decreases fields, 2, k
  {
    hide DecodeLoop, DecodeField, DecodeArray, TagBytes, ValueBytes, ValueFits, SlotFits, MessageFits, ArrayState,
         RestoredItems, TypeOk, WireType, Packable;
    var f, items := fields[n], slots[n].items;
    ItemFits(f, slots[n]);
    if k == 0 {
      assert ItemsBytes(f, items, 0, false) + rest == rest;
    } else {
      ItemsBytesGrow(f, items, k - 1, false);
      var b := ValueBytes(f.l, items[k - 1]);
      var t := TagBytes(f.tag, WireType(f.l));
      ItemsAreDecoded(fields, slots, n, k - 1, t + (b + rest));
      assert ItemsBytes(f, items, k, false) + rest == ItemsBytes(f, items, k - 1, false) + (t + (b + rest));
      assert FieldOk(f);
      OneItem(f, items, k - 1, Room(f.h), rest);
      ArrayIsStepped(fields, slots, n, k - 1, k, WireType(f.l), b + rest, rest);
      WireTypes(f.l);
      LoopDecodes(fields, ArrayState(fields, slots, n, k - 1), n, WireType(f.l), b + rest,
          ArrayState(fields, slots, n, k), rest);
    }
  }

  lemma {:induction false} ArrayIsDecoded(fields: seq<Field>, slots: seq<Slot>, n: nat, rest: Bytes)
    requires SchemaOk(fields) && MessageFits(fields, slots) && n < |fields| == |slots| && IsArray(fields[n].h)
    requires SlotFits(fields[n], slots[n]) && |FieldBytes(fields[n], slots[n])| < WORD
    ensures DecodeLoop(fields, StateAfter(fields, slots, n), FieldBytes(fields[n], slots[n]) + rest)
         == DecodeLoop(fields, StateAfter(fields, slots, n + 1), rest)
    decreases fields, 3, 0
  {
    hide DecodeLoop, DecodeField, DecodeArray, TagBytes, ItemsBytes, ValueFits, SlotFits, MessageFits, StateAfter,
         RestoredItems, TypeOk, Packable, Delimited;
    var f, items := fields[n], slots[n].items;
    ItemFits(f, slots[n]);
    assert FieldOk(f);
    ArrayIsPlaced(fields, slots, n);
    if items == [] {
      assert FieldBytes(f, slots[n]) + rest == rest;
    } else if Packable(f.l) {
      var sub := ItemsBytes(f, items, |items|, true);
      DelimitedLength(sub);
      PackedArray(f, items, Room(f.h), rest);
      ArrayIsStepped(fields, slots, n, 0, |items|, WT_STRING, Delimited(sub) + rest, rest);
      LoopDecodes(fields, ArrayState(fields, slots, n, 0), n, WT_STRING, Delimited(sub) + rest,
          ArrayState(fields, slots, n, |items|), rest);
      assert FieldBytes(f, slots[n]) + rest == TagBytes(f.tag, WT_STRING) + (Delimited(sub) + rest);
    } else {
      ItemsAreDecoded(fields, slots, n, |items|, rest);
    }
  }

  // ----------------------------------------------------------------- messages

  lemma {:induction false} FieldIsDecoded(fields: seq<Field>, slots: seq<Slot>, n: nat, rest: Bytes)
    requires SchemaOk(fields) && MessageFits(fields, slots) && n < |fields| == |slots|
    requires SlotFits(fields[n], slots[n]) && |FieldBytes(fields[n], slots[n])| < WORD
    ensures DecodeLoop(fields, StateAfter(fields, slots, n), FieldBytes(fields[n], slots[n]) + rest)
         == DecodeLoop(fields, StateAfter(fields, slots, n + 1), rest)
    decreases fields, 3, 1
  {
    hide DecodeLoop, TagBytes, ValueBytes, SlotFits, MessageFits, StateAfter, IsZero, SchemaOk;
    if IsArray(fields[n].h) {
      ArrayIsDecoded(fields, slots, n, rest);
    } else if Written(fields[n], slots[n]) {
      SingleIsDecoded(fields, slots, n, rest);
    } else {
      StateSkips(fields, slots, n);
      assert FieldBytes(fields[n], slots[n]) + rest == rest;
    }
  }

  /** The first `n` fields, with fields that the schema does not know behind each. */
  function WithUnknowns(fields: seq<Field>, slots: seq<Slot>, gaps: seq<seq<Unknown>>, n: nat): Bytes
    requires MessageFits(fields, slots) && |gaps| == |fields| && n <= |fields|
  {
    if n == 0 then []
    else
      WithUnknowns(fields, slots, gaps, n - 1)
      + (FieldBytes(fields[n - 1], slots[n - 1]) + UnknownFields(gaps[n - 1]))
  }

  predicate UnknownGaps(fields: seq<Field>, gaps: seq<seq<Unknown>>) {
    forall i, u :: 0 <= i < |gaps| && u in gaps[i] ==> IsUnknown(fields, u)
  }

  /** Each field takes fewer than 2^32 bytes, so that lengths can be read back. */
  predicate ShortFields(fields: seq<Field>, slots: seq<Slot>)
    requires MessageFits(fields, slots)
  {
    forall i :: 0 <= i < |fields| ==> |FieldBytes(fields[i], slots[i])| < WORD
  }

  lemma {:induction false} FieldsAreDecoded(fields: seq<Field>, slots: seq<Slot>, gaps: seq<seq<Unknown>>, n: nat,
                                            rest: Bytes)
    requires SchemaOk(fields) && MessageFits(fields, slots) && |gaps| == |fields| && n <= |fields|
    requires UnknownGaps(fields, gaps) && ShortFields(fields, slots)
    ensures DecodeLoop(fields, StateAfter(fields, slots, 0), WithUnknowns(fields, slots, gaps, n) + rest)
         == DecodeLoop(fields, StateAfter(fields, slots, n), rest)
    decreases fields, 4, n
  {
    hide DecodeLoop, FieldBytes, UnknownFields, MessageFits, StateAfter, SchemaOk, IsUnknown;
    if n == 0 {
      assert WithUnknowns(fields, slots, gaps, 0) + rest == rest;
    } else {
      FieldFits(fields, slots, n - 1);
      var b, u := FieldBytes(fields[n - 1], slots[n - 1]), UnknownFields(gaps[n - 1]);
      FieldsAreDecoded(fields, slots, gaps, n - 1, b + (u + rest));
      assert WithUnknowns(fields, slots, gaps, n) + rest == WithUnknowns(fields, slots, gaps, n - 1) + (b + (u + rest));
      FieldIsDecoded(fields, slots, n - 1, u + rest);
      UnknownsAreSkipped(fields, StateAfter(fields, slots, n), gaps[n - 1], rest);
    }
  }

  lemma {:induction false} AllAreSeen(fields: seq<Field>, i: nat, n: nat)
    requires i < n <= |fields| && fields[i].h.Required? && RequiredIndex(fields, i) < MAX_REQUIRED_FIELDS
    ensures RequiredIndex(fields, i) in SeenAfter(fields, n)
  {
    if i < n - 1 { AllAreSeen(fields, i, n - 1); }
  }

  lemma StartsFresh(fields: seq<Field>, slots: seq<Slot>)
    requires MessageFits(fields, slots)
    ensures StateAfter(fields, slots, 0) == Fresh(Defaults(fields))
  {
    hide MessageFits, DefaultSlot;
    assert Partial(fields, slots, 0) == Defaults(fields);
  }

  lemma EndsRestored(fields: seq<Field>, slots: seq<Slot>)
    requires MessageFits(fields, slots)
    ensures StateAfter(fields, slots, |fields|).slots == Restored(fields, slots)
    ensures AllRequiredSeen(fields, StateAfter(fields, slots, |fields|).seen)
  {
    hide MessageFits, RestoredSlot, DefaultSlot;
    forall i | 0 <= i < |fields| && fields[i].h.Required? && RequiredIndex(fields, i) < MAX_REQUIRED_FIELDS
      ensures RequiredIndex(fields, i) in SeenAfter(fields, |fields|)
    {
      AllAreSeen(fields, i, |fields|);
    }
  }

  /** Decoding what was encoded, with unknown fields before and between, restores the message. */
  lemma {:induction false} MessageIsDecoded(fields: seq<Field>, slots: seq<Slot>, before: seq<Unknown>,
                                            gaps: seq<seq<Unknown>>)
    requires SchemaOk(fields) && MessageFits(fields, slots) && ShortFields(fields, slots)
    requires |gaps| == |fields| && UnknownGaps(fields, gaps) && forall u :: u in before ==> IsUnknown(fields, u)
    ensures DecodeMessage(fields, Defaults(fields), UnknownFields(before) + WithUnknowns(fields, slots, gaps, |fields|))
         == Some(Restored(fields, slots))
    decreases fields, 5
  {
    hide UnknownFields, WithUnknowns, SchemaOk, MessageFits, Restored, FixedDone, AllRequiredSeen, Defaults,
         UnknownGaps, ShortFields, IsUnknown;
    var b := WithUnknowns(fields, slots, gaps, |fields|);
    StartsFresh(fields, slots);
    UnknownsAreSkipped(fields, Fresh(Defaults(fields)), before, b);
    FieldsAreDecoded(fields, slots, gaps, |fields|, []);
    assert b + [] == b;
    StateIsDone(fields, slots, |fields|);
    EndsRestored(fields, slots);
  }

  lemma {:induction false} PlainBytes(fields: seq<Field>, slots: seq<Slot>, gaps: seq<seq<Unknown>>, n: nat)
    requires MessageFits(fields, slots) && |gaps| == |fields| && n <= |fields|
    requires forall i :: 0 <= i < |gaps| ==> gaps[i] == []
    ensures WithUnknowns(fields, slots, gaps, n) == MessageBytes(fields, slots, n)
  {
    hide FieldBytes, MessageFits;
    if n > 0 {
      FieldFits(fields, slots, n - 1);
      PlainBytes(fields, slots, gaps, n - 1);
      assert FieldBytes(fields[n - 1], slots[n - 1]) + UnknownFields([]) == FieldBytes(fields[n - 1], slots[n - 1]);
    }
  }

  lemma {:induction false} FieldIsShorter(fields: seq<Field>, slots: seq<Slot>, i: nat, n: nat)
    requires MessageFits(fields, slots) && i < n <= |fields|
    ensures |slots| == |fields| && SlotFits(fields[i], slots[i])
    ensures |FieldBytes(fields[i], slots[i])| <= |MessageBytes(fields, slots, n)|
  {
    hide FieldBytes, MessageFits;
    FieldFits(fields, slots, i);
    FieldFits(fields, slots, n - 1);
    if i < n - 1 { FieldIsShorter(fields, slots, i, n - 1); }
  }

  /** pb_decode of pb_encode. */
  lemma {:induction false} PlainIsDecoded(fields: seq<Field>, slots: seq<Slot>)
    requires SchemaOk(fields) && MessageFits(fields, slots) && |MessageBytes(fields, slots, |fields|)| < WORD
    ensures DecodeMessage(fields, Defaults(fields), MessageBytes(fields, slots, |fields|))
            == Some(Restored(fields, slots))
    decreases fields, 6
  {
    hide DecodeMessage, MessageBytes, WithUnknowns, SchemaOk, MessageFits, Restored, Defaults, FieldBytes;
    forall i | 0 <= i < |fields|
      ensures |slots| == |fields| && SlotFits(fields[i], slots[i])
              && |FieldBytes(fields[i], slots[i])| < WORD
    {
      FieldIsShorter(fields, slots, i, |fields|);
    }
    var gaps := seq(|fields|, _ => []);
    PlainBytes(fields, slots, gaps, |fields|);
    MessageIsDecoded(fields, slots, [], gaps);
    assert UnknownFields([]) + MessageBytes(fields, slots, |fields|) == MessageBytes(fields, slots, |fields|);
  }
}
