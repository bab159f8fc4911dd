/**
 Whatever the bytes are, what is decoded fits into the struct: numbers within their width, strings with room for the
 terminator, arrays within their capacity, at most one member of a union.  So it can be encoded again.
 */
module PbSound {
  import opened Coding
  import opened Keys
  import opened PbCommon
  import opened PbDecode
  import opened PbEncode
  import opened PbRoundTrip

  // ---------------------------------------------------------------- what fits

  ghost predicate SoundValue(t: LType, v: Value)
    decreases t
  {
    match t
    case ByteArray(cap) => v.Blob? && |v.b| <= cap
    case Text(dataSize) => v.Blob? && |v.b| < dataSize && 0 !in v.b
    case Submessage(fields) => v.Struct? && SoundStruct(fields, v.slots)
    case _ => IsValue(t, v)
  }

  ghost predicate SoundSlot(f: Field, s: Slot)
    decreases f
  {
    match f.htype
    case Required => s.One? && SoundValue(f.ltype, s.v)
    case Optional(hasFlag) => (if hasFlag then s.Maybe? else s.One?) && SoundValue(f.ltype, s.v)
    case Repeated(cap) => s.Many? && |s.items| <= cap && forall k :: 0 <= k < |s.items| ==> SoundValue(f.ltype, s.items[k])
    case Oneof(_) => s.Maybe? && SoundValue(f.ltype, s.v)
  }

  ghost predicate SoundStruct(fields: seq<Field>, slots: seq<Slot>)
    decreases fields
  {
    && |slots| == |fields| && (forall i :: 0 <= i < |fields| ==> SoundSlot(fields[i], slots[i]))
    && OneOfEach(fields, slots)
  }

  /** A union selects at most one of its members. */
  ghost predicate OneOfEach(fields: seq<Field>, slots: seq<Slot>)
    requires |slots| == |fields|
  {
    forall i, j :: 0 <= i < j < |fields| && Rivals(fields, i, j) ==> !(Has(slots[i]) && Has(slots[j]))
  }

  /** Arrays for strings have room for the terminator, also behind their preset. */
  ghost predicate Roomy(fields: seq<Field>)
    decreases fields
  {
    forall i :: 0 <= i < |fields| ==> RoomyField(fields[i])
  }

  ghost predicate RoomyField(f: Field)
    decreases f
  {
    RoomyType(f.ltype) && (f.preset.Some? ==> SoundValue(f.ltype, f.preset.value))
  }

  ghost predicate RoomyType(t: LType)
    decreases t
  {
    match t
    case Text(dataSize) => dataSize > 0
    case Submessage(fields) => Roomy(fields)
    case _ => true
  }

  // ---------------------------------------------------------------- defaults fit

  lemma {:induction false} DefaultIsSound(t: LType, preset: Option<Value>)
    requires TypeOk(t) && RoomyType(t) && (preset.Some? ==> !t.Submessage? && SoundValue(t, preset.value))
    ensures SoundValue(t, DefaultValue(t, preset))
    decreases t
  {
    if t.Submessage? {
      DefaultsAreSound(t.fields);
    }
  }

  lemma {:induction false} DefaultsAreSound(fields: seq<Field>)
    requires WellFormed(fields) && Roomy(fields)
    ensures SoundStruct(fields, Defaults(fields))
    decreases fields
  {
    forall i | 0 <= i < |fields|
      ensures SoundSlot(fields[i], Defaults(fields)[i])
    {
      FieldsOk(fields, i);
      DefaultSlotIsSound(fields[i]);
    }
  }

  lemma {:induction false} DefaultSlotIsSound(f: Field)
    requires FieldOk(f) && RoomyField(f)
    ensures SoundSlot(f, DefaultSlot(f))
    decreases f
  {
    hide SoundValue, DefaultValue, TypeOk, RoomyType, IsValue;
    DefaultIsSound(f.ltype, f.preset);
  }

  // ---------------------------------------------------------------- widths and presets

  /** A number of some bytes is one of two's complement, or below the power of two. */
  lemma WidthsAre(size: nat, n: int)
    requires IsSize(size)
    ensures InSigned(size, n) <==> -(Pow2(8 * size - 1) as int) <= n < Pow2(8 * size - 1)
    ensures InUnsigned(size, n) <==> 0 <= n < Pow2(8 * size)
  {
    assert Pow2(8) == 0x100 && Pow2(7) == 0x80;
    assert Pow2(12) == 0x1000 && Pow2(16) == 0x1_0000 && Pow2(15) == 0x8000;
    assert Pow2(20) == 0x10_0000 && Pow2(24) == 0x100_0000 && Pow2(28) == 0x1000_0000;
    assert Pow2(32) == TWO32 && Pow2(31) == 0x8000_0000;
    Pow64();
  }

  lemma Pow64()
    ensures Pow2(64) == TWO64 && Pow2(63) == 0x8000_0000_0000_0000
  {
    assert Pow2(4) == 16 && Pow2(8) == 0x100 && Pow2(12) == 0x1000 && Pow2(16) == 0x1_0000;
    assert Pow2(20) == 0x10_0000 && Pow2(24) == 0x100_0000 && Pow2(28) == 0x1000_0000 && Pow2(32) == TWO32;
    assert Pow2(36) == 16 * TWO32 && Pow2(40) == 0x100 * TWO32 && Pow2(44) == 0x1000 * TWO32 && Pow2(48) == 0x1_0000 * TWO32;
    assert Pow2(52) == 0x10_0000 * TWO32 && Pow2(56) == 0x100_0000 * TWO32 && Pow2(60) == 0x1000_0000 * TWO32;
  }

  ghost predicate IsUnset(f: Field, s: Slot) {
    match f.htype
    case Repeated(_) => s == Many([])
    case _ =>
      && !s.Many? && (s.Maybe? ==> !s.has)
      && (f.preset.Some? ==> s.v == f.preset.value)
      && (f.preset.None? ==> match f.ltype
          case ByteArray(_) => s.v == Blob([])
          case Text(_) => s.v == Blob([])
          case Inline(length) => s.v == Blob(Zeros(length))
          case Submessage(fields) => s.v.Struct? && |s.v.slots| == |fields|
          case _ => s.v == Num(0))
  }

  /** Nothing on the wire: every field is unset and has its preset or zero, unless some field is required. */
  lemma NothingDecodes(fields: seq<Field>)
    requires WellFormed(fields)
    ensures
      var r := DecodeMessage(fields, [], Defaults(fields));
      if forall i :: 0 <= i < |fields| ==> !fields[i].htype.Required?
      then r.Got? && |r.value| == |fields| && forall i :: 0 <= i < |fields| ==> IsUnset(fields[i], r.value[i])
      else r == Fail
  {
    hide IsUnset, WellFormed, DefaultSlot, DecodeLoop, FieldOk;
    NoMoreInput(fields, Filling(Defaults(fields), {}));
    NoneRequired(fields, |fields|);
    NothingComplete(fields);
    forall i | 0 <= i < |fields|
      ensures IsUnset(fields[i], Defaults(fields)[i])
    {
      FieldsOk(fields, i);
      DefaultIsUnset(fields[i]);
    }
  }

  lemma NothingComplete(fields: seq<Field>)
    ensures Complete(fields, {}) <==> RequiredBefore(fields, |fields|) == 0
  {
    hide RequiredBefore;
    var none: set<nat> := {};
    assert Complete(fields, none) && RequiredBefore(fields, |fields|) > 0 ==> 0 in none;
  }

  lemma DefaultIsUnset(f: Field)
    requires FieldOk(f)
    ensures IsUnset(f, DefaultSlot(f))
  {
    hide TypeOk, IsValue;
  }

  lemma {:induction false} NoneRequired(fields: seq<Field>, n: nat)
    requires n <= |fields|
    ensures RequiredBefore(fields, n) == 0 <==> forall i :: 0 <= i < n ==> !fields[i].htype.Required?
  {
    if n > 0 {
      NoneRequired(fields, n - 1);
    }
  }

  // ---------------------------------------------------------------- items

  lemma ScalarIsSound(t: LType, input: Bytes, there: Value)
    requires TypeOk(t) && !t.Submessage? && DecodeValue(t, input, there).Got?
    ensures SoundValue(t, DecodeValue(t, input, there).value)
  {
    hide TakeU32, Take64, DecodeFixed32, DecodeFixed64, AsSigned, AsSigned32, UnZigZag, UpToZero;
  }

  lemma {:induction false} ValueIsSound(t: LType, input: Bytes, there: Value)
    requires TypeOk(t) && RoomyType(t) && SoundValue(t, there) && DecodeValue(t, input, there).Got?
    ensures SoundValue(t, DecodeValue(t, input, there).value)
    decreases t, 0
  {
    if t.Submessage? {
      var body := TakeString(input).value;
      MessageIsSound(t.fields, body, there.slots);
    } else {
      ScalarIsSound(t, input, there);
    }
  }

  lemma {:induction false} PackedIsSound(t: LType, cap: nat, input: Bytes, items: seq<Value>)
    requires TypeOk(t) && Packable(t) && |items| <= cap && (forall k :: 0 <= k < |items| ==> SoundValue(t, items[k]))
    requires DecodePacked(t, cap, input, items).Some?
    ensures
      var r := DecodePacked(t, cap, input, items).value;
      |r| <= cap && forall k :: 0 <= k < |r| ==> SoundValue(t, r[k])
    decreases |input|
  {
    hide SoundValue, DecodeValue, TypeOk;
    if input != [] {
      ScalarIsSound(t, input, Zero(t));
      var r := DecodeValue(t, input, Zero(t));
      PackedIsSound(t, cap, r.rest, items + [r.value]);
    }
  }

  lemma {:induction false} FieldIsSound(f: Field, wire: nat, input: Bytes, s: Slot)
    requires FieldOk(f) && RoomyType(f.ltype) && SoundSlot(f, s) && DecodeField(f, wire, input, s).Got?
    ensures SoundSlot(f, DecodeField(f, wire, input, s).value)
    decreases f, 0
  {
    hide SoundValue, DecodeValue, TypeOk, RoomyType, DefaultValue, TakeString, DecodePacked;
    TypeOfField(f);
    DefaultIsSound(f.ltype, None);
    match f.htype
    case Required => ValueIsSound(f.ltype, input, s.v);
    case Optional(_) => ValueIsSound(f.ltype, input, s.v);
    case Oneof(_) => ValueIsSound(f.ltype, input, if s.has then s.v else DefaultValue(f.ltype, None));
    case Repeated(cap) =>
      if wire == WT_STRING && Packable(f.ltype) {
        PackedIsSound(f.ltype, cap, TakeString(input).value, s.items);
      } else {
        ValueIsSound(f.ltype, input, DefaultValue(f.ltype, None));
      }
  }

  lemma TypeOfField(f: Field)
    requires FieldOk(f)
    ensures TypeOk(f.ltype)
  {
  }

  // ---------------------------------------------------------------- messages

  /** Storing one field keeps the others, and clears the rivals of a union member. */
  lemma StoreIsSound(fields: seq<Field>, slots: seq<Slot>, i: nat, s: Slot)
    requires SoundStruct(fields, slots) && i < |fields| && SoundSlot(fields[i], s)
    ensures SoundStruct(fields, Store(fields, slots, i, s))
  {
    hide SoundValue;
  }

  lemma SlotOf(fields: seq<Field>, slots: seq<Slot>, i: nat)
    requires SoundStruct(fields, slots) && Roomy(fields) && WellFormed(fields) && i < |fields|
    ensures |slots| == |fields| && SoundSlot(fields[i], slots[i]) && RoomyType(fields[i].ltype) && FieldOk(fields[i])
  {
  }

  lemma {:induction false} LoopIsSound(fields: seq<Field>, input: Bytes, x: Filling)
    requires WellFormed(fields) && Roomy(fields) && SoundStruct(fields, x.slots) && |x.slots| == |fields|
    requires DecodeLoop(fields, input, x).Got?
    ensures SoundStruct(fields, DecodeLoop(fields, input, x).value.slots)
    decreases fields, |input|, 1
  {
    hide SoundStruct, WellFormed, Roomy, DecodeField, Store, See, TakeTag, SkipField, FieldOk, SoundSlot;
    if input != [] {
      match TurnOf(fields, input, x)
      case Ended(_) =>
      case Goes(rest, y) =>
        TurnIsSound(fields, input, x);
        LoopIsSound(fields, rest, y);
    }
  }

  lemma {:induction false} TurnIsSound(fields: seq<Field>, input: Bytes, x: Filling)
    requires WellFormed(fields) && Roomy(fields) && SoundStruct(fields, x.slots) && |x.slots| == |fields|
    requires TurnOf(fields, input, x).Goes?
    ensures SoundStruct(fields, TurnOf(fields, input, x).x.slots)
    decreases fields, |input|, 0
  {
    hide SoundStruct, WellFormed, Roomy, DecodeField, Store, See, SkipField, FieldOk, SoundSlot, TakeTag, RoomyType;
    var r := TakeTag(input);
    var i := IndexOf(fields, r.tag);
    if i < |fields| {
      SlotOf(fields, x.slots, i);
      FieldIsSound(fields[i], r.wire, r.rest, x.slots[i]);
      StoreIsSound(fields, x.slots, i, DecodeField(fields[i], r.wire, r.rest, x.slots[i]).value);
    }
  }

  /** Any input that decodes into a struct in order leaves it in order. */
  lemma {:induction false} MessageIsSound(fields: seq<Field>, input: Bytes, slots: seq<Slot>)
    requires WellFormed(fields) && Roomy(fields) && SoundStruct(fields, slots) && |slots| == |fields|
    requires DecodeMessage(fields, input, slots).Got?
    ensures SoundStruct(fields, DecodeMessage(fields, input, slots).value)
    decreases fields, |input| + 1
  {
    hide SoundStruct, WellFormed, Roomy, DecodeLoop;
    LoopIsSound(fields, input, Filling(slots, {}));
  }

  // ---------------------------------------------------------------- encoding what was decoded

  lemma {:induction false} SoundIsValue(t: LType, v: Value)
    requires TypeOk(t) && SoundValue(t, v)
    ensures IsValue(t, v) && EncodeValue(t, v).Some? && Terminated(t, v)
    decreases t, 0
  {
    hide Varint, LengthPrefixed, EncodeFixed32, EncodeFixed64;
    if t.Submessage? {
      SoundIsStruct(t.fields, v.slots);
      FromSomewhere(t.fields, v.slots, 0);
    }
  }

  lemma {:induction false} SlotIsSlot(f: Field, s: Slot)
    requires FieldOk(f) && SoundSlot(f, s)
    ensures IsSlot(f, s) && EncodeField(f, s).Some? && SlotEnds(f, s)
    decreases f, 0
  {
    hide TypeOk, SoundValue, IsValue, EncodeValue, Terminated, IsZero, Varint, LengthPrefixed, EncodePacked, EncodeTagged;
    TypeOfField(f);
    if f.htype.Repeated? {
      forall k | 0 <= k < |s.items|
        ensures IsValue(f.ltype, s.items[k]) && EncodeValue(f.ltype, s.items[k]).Some? && Terminated(f.ltype, s.items[k])
      {
        SoundIsValue(f.ltype, s.items[k]);
      }
      AllEncode(f.tag, f.ltype, s.items);
    } else {
      SoundIsValue(f.ltype, s.v);
    }
  }

  lemma {:induction false} AllEncode(tag: nat, t: LType, items: seq<Value>)
    requires forall k :: 0 <= k < |items| ==> IsValue(t, items[k]) && EncodeValue(t, items[k]).Some?
    ensures EncodePacked(t, items).Some? && EncodeTagged(tag, t, items).Some?
    decreases |items|
  {
    hide IsValue, EncodeValue, Varint;
    if items != [] {
      AllEncode(tag, t, items[1..]);
    }
  }

  lemma {:induction false} SoundIsStruct(fields: seq<Field>, slots: seq<Slot>)
    requires WellFormed(fields) && SoundStruct(fields, slots)
    ensures IsStruct(fields, slots) && StringsEnd(fields, slots) && |slots| == |fields|
    ensures forall i :: 0 <= i < |fields| ==> IsSlot(fields[i], slots[i]) && EncodeField(fields[i], slots[i]).Some?
    decreases fields, |fields|
  {
    hide IsSlot, EncodeField, SlotEnds, SoundSlot, FieldOk;
    forall i | 0 <= i < |fields|
      ensures IsSlot(fields[i], slots[i]) && EncodeField(fields[i], slots[i]).Some? && SlotEnds(fields[i], slots[i])
    {
      FieldsOk(fields, i);
      SlotIsSlot(fields[i], slots[i]);
    }
  }

  lemma {:induction false} FromSomewhere(fields: seq<Field>, slots: seq<Slot>, i: nat)
    requires IsStruct(fields, slots) && i <= |fields| == |slots|
    requires forall j :: 0 <= j < |fields| ==> IsSlot(fields[j], slots[j]) && EncodeField(fields[j], slots[j]).Some?
    ensures EncodeFrom(fields, slots, i).Some?
    decreases |fields| - i
  {
    hide IsStruct, IsSlot, EncodeField;
    if i < |fields| {
      FromSomewhere(fields, slots, i + 1);
    }
  }

  /**
   Whatever was decoded, from any bytes, encodes again, and as long as that is less than 4 GB it decodes to the same,
   up to the memory of absent fields.
   */
  lemma DecodedRoundTrip(fields: seq<Field>, input: Bytes)
    requires WellFormed(fields) && Roomy(fields) && DecodeMessage(fields, input, Defaults(fields)).Got?
    ensures
      var slots := DecodeMessage(fields, input, Defaults(fields)).value;
      && SoundStruct(fields, slots) && IsStruct(fields, slots) && EncodeFrom(fields, slots, 0).Some?
      && var b := EncodeFrom(fields, slots, 0).value;
         |b| < TWO32 ==> DecodeMessage(fields, b, Defaults(fields)) == Got(NormSlots(fields, slots), [])
  {
    hide SoundStruct, WellFormed, Roomy, DecodeMessage, IsStruct, EncodeFrom, StringsEnd, NormSlots, Defaults;
    DefaultsAreSound(fields);
    MessageIsSound(fields, input, Defaults(fields));
    var slots := DecodeMessage(fields, input, Defaults(fields)).value;
    SoundIsStruct(fields, slots);
    FromSomewhere(fields, slots, 0);
    if |EncodeFrom(fields, slots, 0).value| < TWO32 {
      MessageRoundTrip(fields, slots);
    }
  }
}
