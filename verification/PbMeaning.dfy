/** What a nanopb message says: fields that are not present do not matter. Decoding keeps it,
    and encoding depends on nothing else (nanopb/pb_encode.c, nanopb/pb_decode.c). */
module PbMeaning {
  import opened DbFormat
  import opened Coding
  import opened PbFormat
  import opened PbDecode
  import opened PbRoundTrip
  import opened PbMessages
  import PbEncode
  import PbStream

  predicate SameValue(l: LType, a: Value, b: Value)
    decreases l, 0
  {
    match a
    case Msg(slots) => l.LSubmessage? && b.Msg? && SameMessage(l.fields, slots, b.slots)
    case _ => a == b
  }

  predicate SameItems(f: Field, a: seq<Value>, b: seq<Value>)
    decreases f, 1
  {
    |a| == |b| && forall i :: 0 <= i < |a| ==> SameValue(f.l, a[i], b[i])
  }

  /** Both absent, or both present with the same values. */
  predicate SameSlot(f: Field, a: Slot, b: Slot)
    decreases f, 2
  {
    if f.h.Optional? || f.h.Oneof? then a.has == b.has && (a.has ==> SameItems(f, a.items, b.items))
    else SameItems(f, a.items, b.items)
  }

  predicate SameMessage(fields: seq<Field>, a: seq<Slot>, b: seq<Slot>)
    decreases fields, 3
  {
    |a| == |b| == |fields| && forall i :: 0 <= i < |fields| ==> SameSlot(fields[i], a[i], b[i])
  }

  // ------------------------------------------------------ decoding keeps it

  lemma {:induction false} ZeroIsDefault(f: Field, slot: Slot)
    requires FieldOk(f) && SlotFits(f, slot) && IsZero(f, slot)
    ensures SameSlot(f, slot, DefaultSlot(f))
    decreases f
  {
    if f.h.Singular? {
      var v := slot.items[0];
      assert ValueFits(f.l, v);
      if v.Msg? {
        var fields := f.l.fields;
        assert MessageFits(fields, v.slots) && |v.slots| == |fields|;
        forall i | 0 <= i < |fields| ensures SameSlot(fields[i], v.slots[i], DefaultSlot(fields[i])) {
          ZeroOfZero(f, v.slots, i);
        }
        assert SameMessage(fields, v.slots, Defaults(fields));
        assert Zero(f.l) == Msg(Defaults(fields));
      } else {
        assert Zeros(0) == [] && (v.Str? ==> v.s == []);
        assert Zero(f.l) == v;
      }
    }
  }

  lemma {:induction false} ZeroOfZero(f: Field, slots: seq<Slot>, i: nat)
    requires FieldOk(f) && f.l.LSubmessage? && MessageFits(f.l.fields, slots) && i < |f.l.fields|
    requires IsZero(f.l.fields[i], slots[i])
    ensures SameSlot(f.l.fields[i], slots[i], DefaultSlot(f.l.fields[i]))
    decreases f, 0
  {
    assert SchemaOk(f.l.fields);
    ZeroIsDefault(f.l.fields[i], slots[i]);
  }

  lemma {:induction false} RestoredValueIsSame(l: LType, v: Value)
    requires TypeOk(l) && ValueFits(l, v)
    ensures SameValue(l, v, RestoredValue(l, v))
    decreases l, 0
  {
    if v.Msg? { RestoredIsSame(l.fields, v.slots); }
  }

  lemma {:induction false} RestoredSlotIsSame(f: Field, slot: Slot)
    requires FieldOk(f) && SlotFits(f, slot)
    ensures SameSlot(f, slot, RestoredSlot(f, slot))
    decreases f, 1
  {
    hide ValueFits, SameValue, RestoredValue, IsZero, TypeOk, Zero;
    if Written(f, slot) {
      forall i | 0 <= i < |slot.items| ensures SameValue(f.l, slot.items[i], RestoredValue(f.l, slot.items[i])) {
        RestoredValueIsSame(f.l, slot.items[i]);
      }
    } else if f.h.Singular? {
      ZeroIsDefault(f, slot);
    }
  }

  /** Every present field comes back with its value, and no other field is present. */
  lemma {:induction false} RestoredIsSame(fields: seq<Field>, slots: seq<Slot>)
    requires SchemaOk(fields) && MessageFits(fields, slots)
    ensures SameMessage(fields, slots, Restored(fields, slots))
    decreases fields, 2
  {
    hide SlotFits, SameSlot, RestoredSlot, FieldOk;
    forall i | 0 <= i < |fields| ensures SameSlot(fields[i], slots[i], Restored(fields, slots)[i]) {
      FieldIsSame(fields, slots, i);
    }
  }

  lemma {:induction false} FieldIsSame(fields: seq<Field>, slots: seq<Slot>, i: nat)
    requires SchemaOk(fields) && MessageFits(fields, slots) && i < |fields|
    ensures SlotFits(fields[i], slots[i]) && SameSlot(fields[i], slots[i], RestoredSlot(fields[i], slots[i]))
    decreases fields, 1
  {
    RestoredSlotIsSame(fields[i], slots[i]);
  }

  /** Decoding an encoded message succeeds and gives a message that says the same, also when
      unknown fields come before and between its fields. */
  lemma MessageRoundTrip(fields: seq<Field>, slots: seq<Slot>, before: seq<Unknown>, gaps: seq<seq<Unknown>>)
    requires SchemaOk(fields) && MessageFits(fields, slots) && ShortFields(fields, slots)
    requires |gaps| == |fields| && UnknownGaps(fields, gaps) && forall u :: u in before ==> IsUnknown(fields, u)
    ensures var r := Decode(fields, UnknownFields(before) + WithUnknowns(fields, slots, gaps, |fields|));
            r.Some? && SameMessage(fields, slots, r.value)
  {
    hide *;
    MessageIsDecoded(fields, slots, before, gaps);
    RestoredIsSame(fields, slots);
    DecodeIs(fields, UnknownFields(before) + WithUnknowns(fields, slots, gaps, |fields|));
  }

  lemma DecodeIs(fields: seq<Field>, input: Bytes)
    ensures Decode(fields, input) == DecodeMessage(fields, Defaults(fields), input)
  {
  }

  // ------------------------------------------ encoding depends on nothing else

  lemma {:induction false} SameZero(f: Field, a: Slot, b: Slot)
    requires SlotFits(f, a) && SlotFits(f, b) && SameSlot(f, a, b)
    ensures IsZero(f, a) == IsZero(f, b)
    decreases f
  {
    if f.h.Singular? {
      var v, w := a.items[0], b.items[0];
      assert SameValue(f.l, v, w) && ValueFits(f.l, v) && ValueFits(f.l, w);
      if v.Msg? {
        var fields := f.l.fields;
        assert MessageFits(fields, v.slots) && MessageFits(fields, w.slots) && |v.slots| == |fields| == |w.slots|;
        forall i | 0 <= i < |fields| ensures IsZero(fields[i], v.slots[i]) == IsZero(fields[i], w.slots[i]) {
          SameZeros(f, v.slots, w.slots, i);
        }
      }
    }
  }

  lemma {:induction false} SameZeros(f: Field, a: seq<Slot>, b: seq<Slot>, i: nat)
    requires f.l.LSubmessage? && i < |f.l.fields| && SameMessage(f.l.fields, a, b)
    requires MessageFits(f.l.fields, a) && MessageFits(f.l.fields, b)
    ensures IsZero(f.l.fields[i], a[i]) == IsZero(f.l.fields[i], b[i])
    decreases f, 0
  {
    SameZero(f.l.fields[i], a[i], b[i]);
  }

  lemma {:induction false} SameValueBytes(l: LType, a: Value, b: Value)
    requires ValueFits(l, a) && ValueFits(l, b) && SameValue(l, a, b)
    ensures ValueBytes(l, a) == ValueBytes(l, b)
    decreases l, 0, 0
  {
    hide NumberBytes, Delimited, MessageBytes;
    if a.Msg? { SameMessageBytes(l.fields, a.slots, b.slots, |l.fields|); }
  }

  lemma {:induction false} SameItemsBytes(f: Field, a: seq<Value>, b: seq<Value>, n: nat, packed: bool)
    requires (forall i :: 0 <= i < |a| ==> ValueFits(f.l, a[i])) && (forall i :: 0 <= i < |b| ==> ValueFits(f.l, b[i]))
    requires SameItems(f, a, b) && n <= |a|
    ensures ItemsBytes(f, a, n, packed) == ItemsBytes(f, b, n, packed)
    decreases f, 0, n
  {
    hide ValueBytes, ValueFits, SameValue, TagBytes;
    if n > 0 {
      SameItemsBytes(f, a, b, n - 1, packed);
      SameValueBytes(f.l, a[n - 1], b[n - 1]);
    }
  }

  lemma {:induction false} SameFieldBytes(f: Field, a: Slot, b: Slot)
    requires SlotFits(f, a) && SlotFits(f, b) && SameSlot(f, a, b)
    ensures FieldBytes(f, a) == FieldBytes(f, b)
    decreases f, 1, 0
  {
    hide ValueBytes, ItemsBytes, ValueFits, SameValue, TagBytes, Delimited, IsZero;
    if IsArray(f.h) {
      SameItemsBytes(f, a.items, b.items, |a.items|, true);
      SameItemsBytes(f, a.items, b.items, |a.items|, false);
    } else {
      SameZero(f, a, b);
      if Written(f, a) { SameValueBytes(f.l, a.items[0], b.items[0]); }
    }
  }

  lemma {:induction false} SameMessageBytes(fields: seq<Field>, a: seq<Slot>, b: seq<Slot>, n: nat)
    requires MessageFits(fields, a) && MessageFits(fields, b) && SameMessage(fields, a, b) && n <= |fields|
    ensures MessageBytes(fields, a, n) == MessageBytes(fields, b, n)
    decreases fields, 2, n
  {
    hide FieldBytes, SlotFits, SameSlot;
    if n > 0 {
      SameMessageBytes(fields, a, b, n - 1);
      SameFieldBytes(fields[n - 1], a[n - 1], b[n - 1]);
    }
  }

  // -------------------------------------------------- and tells messages apart

  lemma {:induction false} CommonValue(l: LType, a: Value, b: Value, c: Value)
    requires SameValue(l, a, c) && SameValue(l, b, c)
    ensures SameValue(l, a, b)
    decreases l, 0
  {
    if a.Msg? { CommonMessage(l.fields, a.slots, b.slots, c.slots); }
  }

  lemma {:induction false} CommonSlot(f: Field, a: Slot, b: Slot, c: Slot)
    requires SameSlot(f, a, c) && SameSlot(f, b, c)
    ensures SameSlot(f, a, b)
    decreases f, 1
  {
    hide SameValue;
    if f.h.Optional? || f.h.Oneof? ==> a.has {
      forall i | 0 <= i < |a.items| ensures SameValue(f.l, a.items[i], b.items[i]) {
        CommonValue(f.l, a.items[i], b.items[i], c.items[i]);
      }
    }
  }

  lemma {:induction false} CommonMessage(fields: seq<Field>, a: seq<Slot>, b: seq<Slot>, c: seq<Slot>)
    requires SameMessage(fields, a, c) && SameMessage(fields, b, c)
    ensures SameMessage(fields, a, b)
    decreases fields, 2
  {
    hide SameSlot;
    forall i | 0 <= i < |fields| ensures SameSlot(fields[i], a[i], b[i]) {
      CommonField(fields, a, b, c, i);
    }
  }

  lemma {:induction false} CommonField(fields: seq<Field>, a: seq<Slot>, b: seq<Slot>, c: seq<Slot>, i: nat)
    requires SameMessage(fields, a, c) && SameMessage(fields, b, c) && i < |fields|
    ensures |a| == |b| == |fields| && SameSlot(fields[i], a[i], b[i])
    decreases fields, 1
  {
    CommonSlot(fields[i], a[i], b[i], c[i]);
  }

  /** Two messages have the same encoding exactly when they say the same. */
  lemma EncodingIsCanonical(fields: seq<Field>, a: seq<Slot>, b: seq<Slot>)
    requires SchemaOk(fields) && MessageFits(fields, a) && MessageFits(fields, b)
    requires |MessageBytes(fields, a, |fields|)| < WORD && |MessageBytes(fields, b, |fields|)| < WORD
    ensures MessageBytes(fields, a, |fields|) == MessageBytes(fields, b, |fields|) <==> SameMessage(fields, a, b)
  {
    hide *;
    if SameMessage(fields, a, b) {
      SameMessageBytes(fields, a, b, |fields|);
    }
    if MessageBytes(fields, a, |fields|) == MessageBytes(fields, b, |fields|) {
      PlainIsDecoded(fields, a);
      PlainIsDecoded(fields, b);
      RestoredIsSame(fields, a);
      RestoredIsSame(fields, b);
      CommonMessage(fields, a, b, Restored(fields, a));
    }
  }

  /** The encoder into a buffer, and the decoder from what it wrote. */
  method EncodeThenDecode(fields: seq<Field>, slots: seq<Slot>, bufsize: nat)
    returns (err: PbEncode.Error, r: Option<seq<Slot>>)
    requires SchemaOk(fields) && MessageFits(fields, slots) && |MessageBytes(fields, slots, |fields|)| < WORD
    ensures err.NoError? <==> |MessageBytes(fields, slots, |fields|)| <= bufsize
    ensures err.NoError? ==> r.Some? && SameMessage(fields, slots, r.value)
  {
    hide MessageBytes, MessageFits, SchemaOk, SameMessage, DecodeMessage, Restored, Defaults;
    ghost var s := MessageBytes(fields, slots, |fields|);
    var size, e, out := PbEncode.EncodeToBuffer(fields, slots, bufsize);
    err, r := e, None;
    if err.NoError? {
      var stream := new PbStream.IStream(out);
      r := stream.Decode(fields);
      PlainIsDecoded(fields, slots);
      RestoredIsSame(fields, slots);
    }
  }
}
