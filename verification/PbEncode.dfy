/** The nanopb encoder: a stream that counts, or counts and writes (nanopb/pb_encode.c). */
module PbEncode {
  import opened DbFormat
  import opened Coding
  import opened PbFormat

  datatype Error = NoError | StreamFull | SizeChanged | ArrayTooLong

  /** A stream without a callback only counts. */
  datatype Stream = Stream(sizing: bool, maxSize: nat, bytesWritten: nat, out: Bytes) {
    predicate Valid() {
      !sizing ==> bytesWritten <= maxSize
    }
  }

  /** The stream took `s`, or there was no room for it and at most a beginning was written. */
  predicate Took(was: Stream, s: Bytes, err: Error, now: Stream) {
    && now.sizing == was.sizing && now.maxSize == was.maxSize && now.Valid()
    && err == (if was.sizing || was.bytesWritten + |s| <= was.maxSize then NoError else StreamFull)
    && (err.NoError? ==>
       now.bytesWritten == was.bytesWritten + |s| && now.out == was.out + if was.sizing then [] else s)
    && was.out <= now.out <= was.out + s
    && (!was.sizing ==> |now.out| - |was.out| == now.bytesWritten - was.bytesWritten)
  }

  lemma TookNothing(a: Stream)
    requires a.Valid()
    ensures Took(a, [], NoError, a)
  {
  }

  lemma StaysValid(a: Stream, s: Bytes, err: Error, b: Stream)
    requires Took(a, s, err, b)
    ensures b.Valid() && b.sizing == a.sizing && b.maxSize == a.maxSize
  {
  }

  lemma TookThen(a: Stream, s: Bytes, b: Stream, t: Bytes, err: Error, c: Stream)
    requires a.Valid() && Took(a, s, NoError, b) && Took(b, t, err, c)
    ensures Took(a, s + t, err, c)
  {
    assert a.out + s + t == a.out + (s + t);
  }

  lemma TookTooLittle(a: Stream, s: Bytes, err: Error, b: Stream, whole: Bytes)
    requires Took(a, s, err, b) && err != NoError && s <= whole
    ensures Took(a, whole, err, b)
  {
    assert a.out + s <= a.out + whole;
  }

  lemma {:induction false} VarintLength(v: nat, n: nat)
    requires v < Capacity(n) && n > 0
    ensures |Varint(v)| <= n
  {
    if v >= 128 { VarintLength(v / 128, n - 1); }
  }

  lemma DwordLength(v: nat)
    requires v < DWORD
    ensures |Varint(v)| <= 10
  {
    assert Capacity(10) >= DWORD by {
      assert Capacity(3) == 128 * Capacity(2) && Capacity(4) == 128 * Capacity(3) && Capacity(5) == 128 * Capacity(4);
      assert Capacity(6) == 128 * Capacity(5) && Capacity(7) == 128 * Capacity(6) && Capacity(8) == 128 * Capacity(7);
      assert Capacity(9) == 128 * Capacity(8) && Capacity(10) == 128 * Capacity(9);
    }
    VarintLength(v, 10);
  }

  /** What is in the buffer of pb_encode_varint while `v` is left to write. */
  ghost predicate Spelling(value: nat, s: Bytes, v: nat) {
    if v == 0 then s != [] && s[|s| - 1] >= 128 && Varint(value) == s[..|s| - 1] + [s[|s| - 1] % 128]
    else Varint(value) == s + Varint(v)
  }

  lemma SpellingNext(value: nat, s: Bytes, v: nat)
    requires v > 0 && Spelling(value, s, v)
    ensures Spelling(value, s + [v % 128 + 128], v / 128)
  {
    var next := s + [v % 128 + 128];
    assert next[..|next| - 1] == s;
    if v >= 128 {
      assert s + ([v % 128 + 128] + Varint(v / 128)) == next + Varint(v / 128);
    }
  }

  class OStream {
    const sizing: bool
    const maxSize: nat
    var bytesWritten: nat
    var out: Bytes

    function Now(): Stream
      reads this
    {
      Stream(sizing, maxSize, bytesWritten, out)
    }

    /** PB_OSTREAM_SIZING */
    constructor Sizing()
      ensures Now() == Stream(true, 0, 0, [])
    {
      sizing, maxSize, bytesWritten, out := true, 0, 0, [];
    }

    /** A stream that writes behind `out`, and at most `maxSize` bytes. */
    constructor Writing(out: Bytes, maxSize: nat)
      ensures Now() == Stream(false, maxSize, 0, out)
    {
      this.sizing, this.maxSize, this.bytesWritten, this.out := false, maxSize, 0, out;
    }

    /** pb_write */
    method Write(buf: Bytes) returns (err: Error)
      requires Now().Valid()
      modifies this
      ensures Took(old(Now()), buf, err, Now())
    {
      if |buf| > 0 && !sizing {
        if bytesWritten + |buf| > maxSize {
          return StreamFull;
        }
        out := out + buf;
      }
      bytesWritten := bytesWritten + |buf|;
      err := NoError;
    }

    /** pb_write without data, when just sizing. */
    method Count(ghost s: Bytes, size: nat) returns (err: Error)
      requires sizing && size == |s|
      modifies this
      ensures Took(old(Now()), s, err, Now())
    {
      bytesWritten := bytesWritten + size;
      err := NoError;
    }

    method EncodeVarint(value: nat) returns (err: Error)
      requires Now().Valid() && value < DWORD
      modifies this
      ensures Took(old(Now()), Varint(value), err, Now())
    {
      hide Took;
      if value <= 0x7F {
        err := Write([value]);
        return;
      }
      DwordLength(value);
      var buffer := new byte[10];
      var v, i := value, 0;
      assert buffer[..0] + Varint(value) == Varint(value);
      while v != 0
        invariant Now() == old(Now())
        invariant 0 <= i <= 10 && Spelling(value, buffer[..i], v)
        decreases v
      {
        SpellingNext(value, buffer[..i], v);
        buffer[i] := v % 128 + 128;
        assert buffer[..i + 1] == buffer[..i] + [v % 128 + 128];
        v, i := v / 128, i + 1;
      }
      ghost var s := buffer[..i];
      buffer[i - 1] := buffer[i - 1] % 128;
      assert buffer[..i] == s[..i - 1] + [s[i - 1] % 128];
      err := Write(buffer[..i]);
    }

    /** pb_encode_svarint: the sign goes to the lowest bit. */
    method EncodeSVarint(n: int) returns (err: Error)
      requires Now().Valid() && FitsSigned(64, n)
      modifies this
      ensures Took(old(Now()), Varint(ZigZag(n)), err, Now())
    {
      var zigzagged;
      if n < 0 {
        zigzagged := DWORD - 1 - 2 * (n + DWORD) % DWORD;
      } else {
        zigzagged := 2 * n % DWORD;
      }
      ZigZagIs(n);
      err := EncodeVarint(zigzagged);
    }

    method EncodeTag(wire: nat, tag: nat) returns (err: Error)
      requires Now().Valid() && wire < 8 && tag < 0x2000_0000
      modifies this
      ensures Took(old(Now()), TagBytes(tag, wire), err, Now())
    {
      err := EncodeVarint(tag * 8 + wire);
    }

    /** pb_encode_string */
    method EncodeString(s: Bytes) returns (err: Error)
      requires Now().Valid() && |s| < DWORD
      modifies this
      ensures Took(old(Now()), Delimited(s), err, Now())
    {
      hide Took;
      var was := Now();
      err := EncodeVarint(|s|);
      if err != NoError {
        TookTooLittle(was, Varint(|s|), err, Now(), Delimited(s));
        return;
      }
      var mid := Now();
      StaysValid(was, Varint(|s|), NoError, mid);
      err := Write(s);
      TookThen(was, Varint(|s|), mid, s, err, Now());
    }

    /** The encoders pb_enc_bool to pb_enc_fixed64. */
    method EncodeNumber(l: LType, n: int) returns (err: Error)
      requires Now().Valid() && NumberFits(l, n)
      modifies this
      ensures Took(old(Now()), NumberBytes(l, n), err, Now())
    {
      hide Took, Varint;
      match l
      case LBool => err := EncodeVarint(if n != 0 then 1 else 0);
      case LVarint(bits) =>
        UnsignedIs(bits, n);
        err := EncodeVarint(n % DWORD);
      case LUVarint(bits) => err := EncodeVarint(n);
      case LSVarint(bits) => err := EncodeSVarint(n);
      case LFixed32 => err := Write(Fixed32(n));
      case LFixed64 => err := Write(Fixed64(n));
    }

    /** pb_check_proto3_default_value */
    static method CheckProto3Default(f: Field, slot: Slot) returns (zero: bool)
      requires SlotFits(f, slot)
      ensures zero == IsZero(f, slot)
      decreases f
    {
      match f.h
      case Required => zero := false;
      case Repeated(_) => zero := slot.items == [];
      case FixedCount(_) => zero := false;
      case Oneof(_) => zero := !slot.has;
      case Optional => zero := !slot.has;
      case Singular =>
        var v := slot.items[0];
        assert ValueFits(f.l, v);
        match v
        case Num(n) => zero := n == 0;
        case Str(s) => zero := if f.l.LFixedBytes? then f.l.length == 0 else s == [];
        case Msg(slots) =>
          var fields := f.l.fields;
          assert MessageFits(fields, slots);
          var i := 0;
          while i < |fields|
            invariant i <= |fields| && forall j :: 0 <= j < i ==> IsZero(fields[j], slots[j])
          {
            var z := CheckProto3Default(fields[i], slots[i]);
            if !z { return false; }
            i := i + 1;
          }
          zero := true;
    }

    method EncodeTagForField(f: Field) returns (err: Error)
      requires Now().Valid() && FieldOk(f)
      modifies this
      ensures Took(old(Now()), TagBytes(f.tag, WireType(f.l)), err, Now())
    {
      err := EncodeTag(WireType(f.l), f.tag);
    }

    method EncodeValue(l: LType, v: Value) returns (err: Error)
      requires Now().Valid() && TypeOk(l) && ValueFits(l, v) && |ValueBytes(l, v)| < DWORD
      modifies this
      ensures Took(old(Now()), ValueBytes(l, v), err, Now())
      decreases l, 0, 0
    {
      hide Took, NumberBytes, NumberFits, Varint, MessageBytes, MessageFits, SchemaOk;
      match v
      case Num(n) => err := EncodeNumber(l, n);
      case Str(s) => err := EncodeString(s);
      case Msg(slots) => err := EncodeSubmessage(l.fields, slots);
    }

    /** pb_encode_submessage: the size first, then the message into exactly that many bytes. */
    method EncodeSubmessage(fields: seq<Field>, slots: seq<Slot>) returns (err: Error)
      requires Now().Valid() && SchemaOk(fields) && MessageFits(fields, slots)
      requires |MessageBytes(fields, slots, |fields|)| < DWORD
      modifies this
      ensures Took(old(Now()), Delimited(MessageBytes(fields, slots, |fields|)), err, Now())
      decreases fields, 5, 0
    {
      hide MessageBytes, MessageFits, SchemaOk, Varint;
      ghost var was, s := Now(), MessageBytes(fields, slots, |fields|);
      var substream := new OStream.Sizing();
      err := substream.Encode(fields, slots);
      if err == NoError {
        var size := substream.bytesWritten;
        assert size == |s|;
        err := EncodeVarint(size);
        ghost var mid := Now();
        if err == NoError {
          if sizing {
            err := Count(s, size);
          } else if bytesWritten + size > maxSize {
            err := StreamFull;
          } else {
            substream := new OStream.Writing(out, size);
            var status := substream.Encode(fields, slots);
            bytesWritten := bytesWritten + substream.bytesWritten;
            out := substream.out;
            err := if substream.bytesWritten != size then SizeChanged else status;
          }
          assert Took(mid, s, err, Now());
          TookThen(was, Varint(size), mid, s, err, Now());
        } else {
          TookTooLittle(was, Varint(size), err, mid, Delimited(s));
        }
      }
    }

    /** The items of a packed array. */
    method EncodeNumbers(f: Field, items: seq<Value>) returns (err: Error)
      requires Now().Valid() && Packable(f.l) && forall i :: 0 <= i < |items| ==> ValueFits(f.l, items[i])
      modifies this
      ensures Took(old(Now()), ItemsBytes(f, items, |items|, true), err, Now())
    {
      hide Took, NumberBytes, ItemsBytes, Packable;
      ghost var was := Now();
      TookNothing(was);
      ItemsBytesNone(f, items, true);
      var i := 0;
      while i < |items|
        invariant i <= |items| && Took(was, ItemsBytes(f, items, i, true), NoError, Now())
      {
        ghost var mid := Now();
        StaysValid(was, ItemsBytes(f, items, i, true), NoError, mid);
        PackedNumber(f, items, i);
        err := EncodeNumber(f.l, items[i].n);
        TookThen(was, ItemsBytes(f, items, i, true), mid, NumberBytes(f.l, items[i].n), err, Now());
        if err != NoError {
          ItemsExtend(f, items, i + 1, |items|, true);
          TookTooLittle(was, ItemsBytes(f, items, i + 1, true), err, Now(), ItemsBytes(f, items, |items|, true));
          return;
        }
        i := i + 1;
      }
      err := NoError;
    }

    /** The total size of a packed array. */
    static method PackedSize(f: Field, items: seq<Value>) returns (size: nat)
      requires Packable(f.l) && forall i :: 0 <= i < |items| ==> ValueFits(f.l, items[i])
      ensures size == |ItemsBytes(f, items, |items|, true)|
    {
      hide NumberBytes, ItemsBytes;
      if f.l.LFixed32? {
        size := 4 * |items|;
        FixedSize(f, items, |items|);
      } else if f.l.LFixed64? {
        size := 8 * |items|;
        FixedSize(f, items, |items|);
      } else {
        var sizestream := new OStream.Sizing();
        var err := sizestream.EncodeNumbers(f, items);
        size := sizestream.bytesWritten;
      }
    }

    method EncodePacked(f: Field, items: seq<Value>) returns (err: Error)
      requires Now().Valid() && Packable(f.l) && forall i :: 0 <= i < |items| ==> ValueFits(f.l, items[i])
      requires FieldOk(f) && |ItemsBytes(f, items, |items|, true)| < DWORD
      modifies this
      ensures Took(old(Now()), TagBytes(f.tag, WT_STRING) + Delimited(ItemsBytes(f, items, |items|, true)), err, Now())
    {
      hide Took, TagBytes, ItemsBytes, Varint, Packable, ValueFits;
      ghost var was, t, s := Now(), TagBytes(f.tag, WT_STRING), ItemsBytes(f, items, |items|, true);
      err := EncodeTag(WT_STRING, f.tag);
      ghost var tagged := Now();
      if err != NoError {
        TookTooLittle(was, t, err, tagged, t + Delimited(s));
        return;
      }
      StaysValid(was, t, NoError, tagged);
      var size := PackedSize(f, items);
      err := EncodeVarint(size);
      ghost var sized := Now();
      TookThen(was, t, tagged, Varint(size), err, sized);
      assert t + Delimited(s) == t + Varint(size) + s;
      if err != NoError {
        TookTooLittle(was, t + Varint(size), err, sized, t + Delimited(s));
        return;
      }
      StaysValid(was, t + Varint(size), NoError, sized);
      if sizing {
        err := Count(s, size);
      } else {
        err := EncodeNumbers(f, items);
      }
      TookThen(was, t + Varint(size), sized, s, err, Now());
    }

    method EncodeItem(f: Field, v: Value) returns (err: Error)
      requires Now().Valid() && FieldOk(f) && ValueFits(f.l, v) && |ValueBytes(f.l, v)| < DWORD
      modifies this
      ensures Took(old(Now()), TagBytes(f.tag, WireType(f.l)) + ValueBytes(f.l, v), err, Now())
      decreases f, 0, 0
    {
      hide Took, TagBytes, ValueBytes, ValueFits, TypeOk, WireType;
      ghost var was, t, s := Now(), TagBytes(f.tag, WireType(f.l)), ValueBytes(f.l, v);
      err := EncodeTagForField(f);
      ghost var tagged := Now();
      if err != NoError {
        TookTooLittle(was, t, err, tagged, t + s);
        return;
      }
      StaysValid(was, t, NoError, tagged);
      err := EncodeValue(f.l, v);
      TookThen(was, t, tagged, s, err, Now());
    }

    /** encode_array */
    method EncodeArray(f: Field, items: seq<Value>) returns (err: Error)
      requires Now().Valid() && FieldOk(f) && IsArray(f.h) && forall i :: 0 <= i < |items| ==> ValueFits(f.l, items[i])
      requires |ArrayBytes(f, items)| < DWORD
      modifies this
      ensures if |items| > Room(f.h) then err == ArrayTooLong && Now() == old(Now())
              else Took(old(Now()), ArrayBytes(f, items), err, Now())
      decreases f, 1, 0
    {
      hide Took, TagBytes, ValueBytes, ValueFits, TypeOk, WireType, ItemsBytes, Packable;
      ghost var was := Now();
      if |items| == 0 {
        TookNothing(was);
        return NoError;
      }
      if |items| > Room(f.h) {
        return ArrayTooLong;
      }
      if Packable(f.l) {
        PackedFits(f, items);
        err := EncodePacked(f, items);
        return;
      }
      TookNothing(was);
      ItemsBytesNone(f, items, false);
      var i := 0;
      while i < |items|
        invariant i <= |items| && Took(was, ItemsBytes(f, items, i, false), NoError, Now())
      {
        ghost var mid := Now();
        StaysValid(was, ItemsBytes(f, items, i, false), NoError, mid);
        NextItem(f, items, i);
        err := EncodeItem(f, items[i]);
        TookThen(was, ItemsBytes(f, items, i, false), mid, TagBytes(f.tag, WireType(f.l)) + ValueBytes(f.l, items[i]),
            err, Now());
        if err != NoError {
          ItemsExtend(f, items, i + 1, |items|, false);
          TookTooLittle(was, ItemsBytes(f, items, i + 1, false), err, Now(), ItemsBytes(f, items, |items|, false));
          return;
        }
        i := i + 1;
      }
      err := NoError;
    }

    /** encode_basic_field */
    method EncodeBasicField(f: Field, slot: Slot) returns (err: Error)
      requires Now().Valid() && FieldOk(f) && SlotFits(f, slot) && |FieldBytes(f, slot)| < DWORD
      modifies this
      ensures Took(old(Now()), FieldBytes(f, slot), err, Now())
      decreases f, 2, 0
    {
      hide Took, TagBytes, ValueBytes, ValueFits, TypeOk, WireType, ArrayBytes, IsZero;
      var written;
      match f.h {
        case Repeated(_) =>
          err := EncodeArray(f, slot.items);
          return;
        case FixedCount(_) =>
          err := EncodeArray(f, slot.items);
          return;
        case Required => written := true;
        case Optional => written := slot.has;
        case Oneof(_) => written := slot.has;
        case Singular =>
          var zero := CheckProto3Default(f, slot);
          written := !zero;
      }
      if written {
        err := EncodeItem(f, slot.items[0]);
      } else {
        TookNothing(Now());
        err := NoError;
      }
    }

    /** pb_encode */
    method Encode(fields: seq<Field>, slots: seq<Slot>) returns (err: Error)
      requires Now().Valid() && SchemaOk(fields) && MessageFits(fields, slots)
      requires |MessageBytes(fields, slots, |fields|)| < DWORD
      modifies this
      ensures Took(old(Now()), MessageBytes(fields, slots, |fields|), err, Now())
      decreases fields, 4, 0
    {
      hide Took, FieldBytes, SlotFits, FieldOk, MessageBytes;
      ghost var was := Now();
      TookNothing(was);
      MessageBytesNone(fields, slots);
      var i := 0;
      while i < |fields|
        invariant i <= |fields| && Took(was, MessageBytes(fields, slots, i), NoError, Now())
      {
        ghost var mid := Now();
        StaysValid(was, MessageBytes(fields, slots, i), NoError, mid);
        NextField(fields, slots, i);
        err := EncodeBasicField(fields[i], slots[i]);
        TookThen(was, MessageBytes(fields, slots, i), mid, FieldBytes(fields[i], slots[i]), err, Now());
        MessageExtends(fields, slots, i + 1, |fields|);
        if err != NoError {
          TookTooLittle(was, MessageBytes(fields, slots, i + 1), err, Now(), MessageBytes(fields, slots, |fields|));
          return;
        }
        i := i + 1;
      }
      err := NoError;
    }
  }

  /** pb_get_encoded_size */
  method GetEncodedSize(fields: seq<Field>, slots: seq<Slot>) returns (size: nat)
    requires SchemaOk(fields) && MessageFits(fields, slots) && |MessageBytes(fields, slots, |fields|)| < DWORD
    ensures size == |MessageBytes(fields, slots, |fields|)|
  {
    hide MessageBytes, MessageFits, SchemaOk;
    var stream := new OStream.Sizing();
    var err := stream.Encode(fields, slots);
    size := stream.bytesWritten;
  }

  /** pb_encode into a buffer: it fails exactly when the buffer is smaller than the size
      counted beforehand, never because a submessage changed its size, and never writes more
      than the buffer holds. */
  method EncodeToBuffer(fields: seq<Field>, slots: seq<Slot>, bufsize: nat) returns (size: nat, err: Error, out: Bytes)
    requires SchemaOk(fields) && MessageFits(fields, slots) && |MessageBytes(fields, slots, |fields|)| < DWORD
    ensures size == |MessageBytes(fields, slots, |fields|)|
    ensures err == (if size <= bufsize then NoError else StreamFull) && |out| <= bufsize
    ensures err == NoError ==> out == MessageBytes(fields, slots, |fields|)
    ensures out <= MessageBytes(fields, slots, |fields|)
  {
    hide MessageBytes, MessageFits, SchemaOk;
    size := GetEncodedSize(fields, slots);
    var stream := new OStream.Writing([], bufsize);
    err := stream.Encode(fields, slots);
    out := stream.out;
  }

  lemma ZigZagIs(n: int)
    requires FitsSigned(64, n)
    ensures ZigZag(n) < DWORD
    ensures ZigZag(n) == if n < 0 then DWORD - 1 - 2 * (n + DWORD) % DWORD else 2 * n % DWORD
  {
    if n < 0 {
      assert 2 * (n + DWORD) == (2 * n + DWORD) + DWORD * 1;
    }
  }

  /** The cast to uint64_t. */
  lemma UnsignedIs(bits: nat, n: int)
    requires Width(bits) && FitsSigned(bits, n)
    ensures FitsSigned(64, n) && n % DWORD == Unsigned(n)
  {
    if n < 0 { assert n == (n + DWORD) + DWORD * -1; }
  }

  // ------------------------------------------------------- bytes of what follows

  lemma ItemsBytesNone(f: Field, items: seq<Value>, packed: bool)
    requires forall i :: 0 <= i < |items| ==> ValueFits(f.l, items[i])
    ensures ItemsBytes(f, items, 0, packed) == []
  {
  }

  lemma PackedNumber(f: Field, items: seq<Value>, i: nat)
    requires Packable(f.l) && i < |items| && forall i :: 0 <= i < |items| ==> ValueFits(f.l, items[i])
    ensures items[i].Num? && NumberFits(f.l, items[i].n)
    ensures ItemsBytes(f, items, i + 1, true) == ItemsBytes(f, items, i, true) + NumberBytes(f.l, items[i].n)
  {
    hide NumberFits, NumberBytes;
    var v := items[i];
    assert ValueFits(f.l, v);
    assert [] + NumberBytes(f.l, v.n) == NumberBytes(f.l, v.n);
  }

  lemma {:induction false} ItemsExtend(f: Field, items: seq<Value>, i: nat, n: nat, packed: bool)
    requires i <= n <= |items| && forall i :: 0 <= i < |items| ==> ValueFits(f.l, items[i])
    ensures ItemsBytes(f, items, i, packed) <= ItemsBytes(f, items, n, packed)
    decreases n
  {
    hide ValueFits, ValueBytes, TagBytes;
    if i < n { ItemsExtend(f, items, i, n - 1, packed); }
  }

  lemma NextItem(f: Field, items: seq<Value>, i: nat)
    requires !Packable(f.l) && i < |items| && forall i :: 0 <= i < |items| ==> ValueFits(f.l, items[i])
    requires |ArrayBytes(f, items)| < DWORD
    ensures |ValueBytes(f.l, items[i])| < DWORD
    ensures ItemsBytes(f, items, i + 1, false)
         == ItemsBytes(f, items, i, false) + (TagBytes(f.tag, WireType(f.l)) + ValueBytes(f.l, items[i]))
  {
    hide ValueFits, ValueBytes, TagBytes, WireType;
    ItemsExtend(f, items, i + 1, |items|, false);
  }

  lemma PackedFits(f: Field, items: seq<Value>)
    requires Packable(f.l) && items != [] && forall i :: 0 <= i < |items| ==> ValueFits(f.l, items[i])
    requires |ArrayBytes(f, items)| < DWORD
    ensures |ItemsBytes(f, items, |items|, true)| < DWORD
  {
    hide ValueFits, ItemsBytes, TagBytes, Varint;
  }

  lemma {:induction false} FixedSize(f: Field, items: seq<Value>, n: nat)
    requires (f.l.LFixed32? || f.l.LFixed64?) && n <= |items|
    requires forall i :: 0 <= i < |items| ==> ValueFits(f.l, items[i])
    ensures |ItemsBytes(f, items, n, true)| == (if f.l.LFixed32? then 4 else 8) * n
  {
    if n > 0 {
      FixedSize(f, items, n - 1);
      PackedNumber(f, items, n - 1);
    }
  }

  lemma MessageBytesNone(fields: seq<Field>, slots: seq<Slot>)
    requires MessageFits(fields, slots)
    ensures MessageBytes(fields, slots, 0) == []
  {
  }

  lemma {:induction false} MessageExtends(fields: seq<Field>, slots: seq<Slot>, i: nat, n: nat)
    requires i <= n <= |fields| && MessageFits(fields, slots)
    ensures MessageBytes(fields, slots, i) <= MessageBytes(fields, slots, n)
    decreases n
  {
    hide FieldBytes, SlotFits;
    if i < n { MessageExtends(fields, slots, i, n - 1); }
  }

  lemma NextField(fields: seq<Field>, slots: seq<Slot>, i: nat)
    requires SchemaOk(fields) && MessageFits(fields, slots) && i < |fields|
    requires |MessageBytes(fields, slots, |fields|)| < DWORD
    ensures |slots| == |fields| && FieldOk(fields[i]) && SlotFits(fields[i], slots[i])
            && |FieldBytes(fields[i], slots[i])| < DWORD
    ensures MessageBytes(fields, slots, i + 1) == MessageBytes(fields, slots, i) + FieldBytes(fields[i], slots[i])
  {
    hide FieldBytes, SlotFits, FieldOk;
    MessageExtends(fields, slots, i + 1, |fields|);
  }
}
