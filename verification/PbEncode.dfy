/** Encoding a struct, as nanopb does it: a sizing pass for every submessage and packed array, then the bytes. */
module PbEncode {
  import opened Coding
  import opened Keys
  import opened PbCommon

  const WT_VARINT: nat := 0
  const WT_64BIT: nat := 1
  const WT_STRING: nat := 2
  const WT_32BIT: nat := 5

  // ---------------------------------------------------------------- what the bytes are

  function WireType(t: LType): nat {
    match t
    case Boolean => WT_VARINT
    case Int(_) => WT_VARINT
    case UInt(_) => WT_VARINT
    case SInt(_) => WT_VARINT
    case Bits32 => WT_32BIT
    case Bits64 => WT_64BIT
    case _ => WT_STRING
  }

  function Tag(tag: nat, wire: nat): Bytes { Varint(tag * 8 + wire) }

  /** A signed number as 64 bits. */
  function AsUnsigned(n: int): (u: nat)
    requires -0x8000_0000_0000_0000 <= n < 0x8000_0000_0000_0000
    ensures u < TWO64
  {
    if n < 0 then n + TWO64 else n
  }

  /** Small magnitudes to small numbers: 0, -1, 1, -2, ... */
  function ZigZag(n: int): (u: nat)
    requires -0x8000_0000_0000_0000 <= n < 0x8000_0000_0000_0000
    ensures u < TWO64
  {
    if n < 0 then -2 * n - 1 else 2 * n
  }

  function Join(a: Option<Bytes>, b: Option<Bytes>): Option<Bytes> {
    if a.Some? && b.Some? then Some(a.value + b.value) else None
  }

  /** The wire form of one item, without its tag. */
  ghost function EncodeValue(t: LType, v: Value): Option<Bytes>
    requires IsValue(t, v)
    decreases t, 0
  {
    match t
    case Boolean => Some(Varint(v.n))
    case Int(size) => InWide(size, v.n); Some(Varint(AsUnsigned(v.n)))
    case UInt(_) => Some(Varint(v.n))
    case SInt(size) => InWide(size, v.n); Some(Varint(ZigZag(v.n)))
    case Bits32 => Some(EncodeFixed32(v.n))
    case Bits64 => Some(EncodeFixed64(v.n))
    case ByteArray(cap) => if |v.b| > cap then None else Some(LengthPrefixed(v.b))
    case Text(_) => Some(LengthPrefixed(v.b))
    case Inline(_) => Some(LengthPrefixed(v.b))
    case Submessage(fields) =>
      Sized(EncodeFrom(fields, v.slots, 0))
  }

  lemma InWide(size: nat, n: int)
    requires IsSize(size) && InSigned(size, n)
    ensures -0x8000_0000_0000_0000 <= n < 0x8000_0000_0000_0000
  {
  }

  /** Items one after the other: a packed array. */
  ghost function EncodePacked(t: LType, items: seq<Value>): Option<Bytes>
    requires forall k :: 0 <= k < |items| ==> IsValue(t, items[k])
    decreases t, 1, |items|
  {
    if items == [] then Some([]) else Join(EncodeValue(t, items[0]), EncodePacked(t, items[1..]))
  }

  /** Items each with its own tag. */
  ghost function EncodeTagged(tag: nat, t: LType, items: seq<Value>): Option<Bytes>
    requires forall k :: 0 <= k < |items| ==> IsValue(t, items[k])
    decreases t, 1, |items|
  {
    if items == [] then Some([])
    else Join(Join(Some(Tag(tag, WireType(t))), EncodeValue(t, items[0])), EncodeTagged(tag, t, items[1..]))
  }

  /** What counts as zero for a proto3 field, and as nothing to say for the fields of a proto3 submessage. */
  ghost predicate IsDefault(f: Field, s: Slot)
    requires IsSlot(f, s)
    decreases f
  {
    match f.htype
    case Required => false
    case Optional(hasFlag) => if hasFlag then !s.has else IsZero(f.ltype, s.v)
    case Repeated(_) => s.items == []
    case Oneof(_) => !s.has
  }

  ghost predicate IsZero(t: LType, v: Value)
    requires IsValue(t, v)
    decreases t
  {
    match t
    case ByteArray(_) => v.b == []
    case Text(_) => v.b == []
    case Inline(length) => length == 0
    case Submessage(fields) => StructParts(fields, v.slots); forall i :: 0 <= i < |fields| ==> IsDefault(fields[i], v.slots[i])
    case _ => v.n == 0
  }

  ghost predicate IsPresent(f: Field, s: Slot)
    requires IsSlot(f, s) && !f.htype.Repeated?
  {
    match f.htype
    case Required => true
    case Optional(hasFlag) => if hasFlag then s.has else !IsZero(f.ltype, s.v)
    case Oneof(_) => s.has
  }

  ghost function EncodeField(f: Field, s: Slot): Option<Bytes>
    requires IsSlot(f, s)
    decreases f
  {
    if !f.htype.Repeated? then
      if IsPresent(f, s) then Join(Some(Tag(f.tag, WireType(f.ltype))), EncodeValue(f.ltype, s.v)) else Some([])
    else if s.items == [] then Some([])
    else if |s.items| > f.htype.cap then None
    else if Packable(f.ltype) then
      match EncodePacked(f.ltype, s.items)
      case None => None
      case Some(body) => Some(Tag(f.tag, WT_STRING) + LengthPrefixed(body))
    else EncodeTagged(f.tag, f.ltype, s.items)
  }

  function Sized(body: Option<Bytes>): Option<Bytes> {
    if body.Some? then Some(LengthPrefixed(body.value)) else None
  }

  /** The fields from `i` on, in the descriptor's order. */
  ghost function EncodeFrom(fields: seq<Field>, slots: seq<Slot>, i: nat): Option<Bytes>
    requires IsStruct(fields, slots) && i <= |fields|
    decreases fields, |fields| - i
  {
    if i == |fields| then Some([]) else Join(EncodeField(fields[i], slots[i]), EncodeFrom(fields, slots, i + 1))
  }

  // ---------------------------------------------------------------- the output stream

  /** Bytes go to a buffer of `maxSize`; a stream that does not write only counts them. */
  class OStream {
    const writes: bool
    const maxSize: nat
    var state: Bytes
    var bytesWritten: nat

    predicate Valid() reads this { writes ==> bytesWritten <= maxSize }

    predicate Room(n: nat) reads this { writes ==> bytesWritten + n <= maxSize }

    /** The stream as it is after these bytes. */
    predicate Has(state0: Bytes, written0: nat, b: Bytes)
      reads this
    {
      bytesWritten == written0 + |b| && state == if writes then state0 + b else state0
    }

    constructor (writes: bool, maxSize: nat, state: Bytes)
      ensures Valid() && this.writes == writes && this.maxSize == maxSize && this.state == state && bytesWritten == 0
    {
      this.writes, this.maxSize, this.state, bytesWritten := writes, maxSize, state, 0;
    }

    method Write(buf: Bytes) returns (ok: bool)
      requires Valid()
      modifies this
      ensures Valid() && ok == old(Room(|buf|)) && (ok ==> Has(old(state), old(bytesWritten), buf))
    {
      if |buf| > 0 && writes {
        if bytesWritten + |buf| > maxSize { return false; }
        state := state + buf;
      }
      bytesWritten := bytesWritten + |buf|;
      ok := true;
    }

    /** Count bytes of a stream that does not write. */
    method Count(size: nat)
      requires !writes
      modifies `bytesWritten
      ensures bytesWritten == old(bytesWritten) + size
    {
      bytesWritten := bytesWritten + size;
    }

    /** Seven bits at a time, the top bit set on all but the last byte. */
    method EncodeVarint(value: nat) returns (ok: bool)
      requires Valid()
      modifies this
      ensures Valid() && ok == old(Room(|Varint(value)|)) && (ok ==> Has(old(state), old(bytesWritten), Varint(value)))
    {
      hide Varint;
      VarintStep(value);
      if value <= 0x7F {
        ok := Write([ToByte(value)]);
        return;
      }
      var buffer: Bytes, v: nat := [], value;
      while v > 0
        invariant v > 0 ==> Varint(value) == buffer + Varint(v)
        invariant v == 0 ==> buffer != [] && buffer[|buffer| - 1] >= 0x80
        invariant v == 0 ==> Varint(value) == buffer[..|buffer| - 1] + [ToByte(buffer[|buffer| - 1] - 0x80)]
        modifies {}
      {
        VarintStep(v);
        ghost var before := buffer;
        buffer := buffer + [ToByte(v % 128 + 0x80)];
        assert buffer[..|buffer| - 1] == before;
        if v >= 128 { Assoc(before, [ToByte(v % 128 + 0x80)], Varint(v / 128)); }
        v := v / 128;
      }
      var last := |buffer| - 1;
      buffer := buffer[last := ToByte(buffer[last] - 0x80)];
      assert buffer == buffer[..last] + [buffer[last]];
      ok := Write(buffer);
    }

    method EncodeSVarint(value: int) returns (ok: bool)
      requires Valid() && InSigned(8, value)
      modifies this
      ensures Valid() && ok == old(Room(|Varint(ZigZag(value))|))
      ensures ok ==> Has(old(state), old(bytesWritten), Varint(ZigZag(value)))
    {
      var zigzagged := 0;
      if value < 0 {
        zigzagged := TWO64 - 1 - (value + TWO64) * 2 % TWO64;
      } else {
        zigzagged := value * 2 % TWO64;
      }
      ok := EncodeVarint(zigzagged);
    }

    method EncodeTag(wire: nat, tag: nat) returns (ok: bool)
      requires Valid() && wire < 8 && tag < 0x2000_0000
      modifies this
      ensures Valid() && ok == old(Room(|Tag(tag, wire)|)) && (ok ==> Has(old(state), old(bytesWritten), Tag(tag, wire)))
    {
      ok := EncodeVarint(tag * 8 + wire);
    }

    /** A length and that many bytes. */
    method EncodeString(b: Bytes) returns (ok: bool)
      requires Valid()
      modifies this
      ensures Valid() && ok == old(Room(|LengthPrefixed(b)|)) && (ok ==> Has(old(state), old(bytesWritten), LengthPrefixed(b)))
    {
      ok := EncodeVarint(|b|);
      if ok {
        ok := Write(b);
      }
    }

    // -------------------------------------------------------------- items and fields

    /** The encoder of an item's type. */
    method EncValue(t: LType, v: Value) returns (ok: bool)
      requires Valid() && TypeOk(t) && IsValue(t, v)
      modifies this
      ensures Valid() && ok == (EncodeValue(t, v).Some? && old(Room(|EncodeValue(t, v).value|)))
      ensures ok ==> Has(old(state), old(bytesWritten), EncodeValue(t, v).value)
      decreases t, 0
    {
      hide Varint, WellFormed, IsStruct, EncodeFrom, EncodeFixed32, EncodeFixed64, LengthPrefixed;
      match t
      case Boolean => ok := EncodeVarint(if v.n != 0 then 1 else 0);
      case Int(size) => ok := EncodeVarint(v.n % TWO64);
      case UInt(size) => ok := EncodeVarint(v.n);
      case SInt(size) => ok := EncodeSVarint(v.n);
      case Bits32 => ok := Write(EncodeFixed32(v.n));
      case Bits64 => ok := Write(EncodeFixed64(v.n));
      case ByteArray(cap) =>
        if |v.b| > cap { return false; }
        ok := EncodeString(v.b);
      case Text(dataSize) => ok := EncodeString(v.b);
      case Inline(length) => ok := EncodeString(v.b);
      case Submessage(fields) => ok := EncodeSubmessage(fields, v.slots);
    }

    /** Count the submessage, write its size, and write it through a stream that allows no more than that. */
    method EncodeSubmessage(fields: seq<Field>, slots: seq<Slot>) returns (ok: bool)
      requires Valid() && WellFormed(fields) && IsStruct(fields, slots)
      modifies this
      ensures Valid()
      ensures
        var e := Sized(EncodeFrom(fields, slots, 0));
        ok == (e.Some? && old(Room(|e.value|))) && (ok ==> Has(old(state), old(bytesWritten), e.value))
      decreases fields, |fields| + 2
    {
      hide EncodeFrom;
      var substream := new OStream(false, 0, []);
      ok := substream.Encode(fields, slots);
      if !ok { return false; }
      var size := substream.bytesWritten;
      ok := EncodeVarint(size);
      if !ok { return false; }
      if !writes {
        Count(size);
        return true;
      }
      if bytesWritten + size > maxSize { return false; }
      substream := new OStream(writes, size, state);
      var status := substream.Encode(fields, slots);
      bytesWritten := bytesWritten + substream.bytesWritten;
      state := substream.state;
      if substream.bytesWritten != size { return false; }
      ok := status;
    }

    /** The fields in order. */
    method Encode(fields: seq<Field>, slots: seq<Slot>) returns (ok: bool)
      requires Valid() && WellFormed(fields) && IsStruct(fields, slots)
      modifies this
      ensures Valid()
      ensures
        var e := EncodeFrom(fields, slots, 0);
        ok == (e.Some? && old(Room(|e.value|))) && (ok ==> Has(old(state), old(bytesWritten), e.value))
      decreases fields, |fields| + 1
    {
      hide WellFormed, IsStruct, EncodeField, EncodeFrom, FieldOk, IsSlot, RequiredBefore;
      LastFields(fields, slots);
      StructSize(fields, slots);
      var iter := new FieldIter(fields, slots);
      ok := iter.Begin();
      if !ok { return true; }
      ghost var done: Bytes := [];
      JoinNothing(EncodeFrom(fields, slots, 0));
      while true
        invariant Valid() && iter.Valid() && iter.fields == fields && iter.dest == slots && iter.pos < |fields|
        invariant EncodeFrom(fields, slots, 0) == Join(Some(done), EncodeFrom(fields, slots, iter.pos))
        invariant Has(old(state), old(bytesWritten), done)
        decreases |fields| - iter.pos
      {
        ghost var i := iter.pos;
        FieldParts(fields, slots, i);
        ok := EncodeOneField(fields[iter.pos], iter.dest[iter.pos]);
        if !ok { return false; }
        JoinMore(done, EncodeField(fields[i], slots[i]), EncodeFrom(fields, slots, i + 1));
        done := done + EncodeField(fields[i], slots[i]).value;
        var more := iter.Next();
        if !more { break; }
      }
      ok := true;
    }

    /** Whether the field is there, then its tag and its items. */
    method EncodeOneField(f: Field, s: Slot) returns (ok: bool)
      requires Valid() && FieldOk(f) && IsSlot(f, s)
      modifies this
      ensures Valid()
      ensures
        var e := EncodeField(f, s);
        ok == (e.Some? && old(Room(|e.value|))) && (ok ==> Has(old(state), old(bytesWritten), e.value))
      decreases f
    {
      hide TypeOk, IsValue, IsZero, EncodeValue, EncodePacked, EncodeTagged, Varint;
      match f.htype
      case Repeated(cap) => ok := EncodeArray(f, s.items);
      case Required => ok := EncodeWithTag(f, s.v);
      case Optional(hasFlag) =>
        var has := true;
        if hasFlag {
          has := s.has;
        } else {
          has := CheckProto3Default(f.ltype, s.v);
          has := !has;
        }
        if has {
          ok := EncodeWithTag(f, s.v);
        } else {
          ok := true;
        }
      case Oneof(_) =>
        if s.has {
          ok := EncodeWithTag(f, s.v);
        } else {
          ok := true;
        }
    }

    method EncodeWithTag(f: Field, v: Value) returns (ok: bool)
      requires Valid() && FieldOk(f) && IsValue(f.ltype, v)
      modifies this
      ensures Valid()
      ensures
        var e := Join(Some(Tag(f.tag, WireType(f.ltype))), EncodeValue(f.ltype, v));
        ok == (e.Some? && old(Room(|e.value|))) && (ok ==> Has(old(state), old(bytesWritten), e.value))
      decreases f.ltype, 1
    {
      hide TypeOk, IsValue, EncodeValue, Varint;
      ok := EncodeTag(WireType(f.ltype), f.tag);
      if ok {
        ok := EncValue(f.ltype, v);
      }
    }

    /** A repeated field: packed behind one tag where the type allows it, else each item with its own. */
    method EncodeArray(f: Field, items: seq<Value>) returns (ok: bool)
      requires Valid() && FieldOk(f) && f.htype.Repeated? && IsSlot(f, Many(items))
      modifies this
      ensures Valid()
      ensures
        var e := EncodeField(f, Many(items));
        ok == (e.Some? && old(Room(|e.value|))) && (ok ==> Has(old(state), old(bytesWritten), e.value))
      decreases f.ltype, 2
    {
      hide TypeOk, IsValue, EncodeValue, EncodePacked, EncodeTagged, Varint;
      var count := |items|;
      if count == 0 { return true; }
      if count > f.htype.cap { return false; }
      if Packable(f.ltype) {
        ok := EncodePackedArray(f, items);
      } else {
        ok := EncodeUnpackedArray(f, items);
      }
    }

    method EncodePackedArray(f: Field, items: seq<Value>) returns (ok: bool)
      requires Valid() && FieldOk(f) && Packable(f.ltype)
      requires forall k :: 0 <= k < |items| ==> IsValue(f.ltype, items[k])
      modifies this
      ensures Valid() && EncodePacked(f.ltype, items).Some?
      ensures
        var e := Tag(f.tag, WT_STRING) + LengthPrefixed(EncodePacked(f.ltype, items).value);
        ok == old(Room(|e|)) && (ok ==> Has(old(state), old(bytesWritten), e))
      decreases f.ltype, 1
    {
      hide TypeOk, IsValue, EncodeValue, EncodePacked, Varint, FieldOk, Tag, LengthPrefixed;
      FieldBounds(f);
      PackedIsThere(f.ltype, items);
      ghost var body := EncodePacked(f.ltype, items).value;
      PackedIs(Tag(f.tag, WT_STRING), body);
      ok := EncodeTag(WT_STRING, f.tag);
      if !ok { return false; }
      var size := 0;
      if f.ltype.Bits32? {
        size := 4 * |items|;
      } else if f.ltype.Bits64? {
        size := 8 * |items|;
      } else {
        var sizestream := new OStream(false, 0, []);
        var _ := sizestream.EncodeItems(f.ltype, items);
        size := sizestream.bytesWritten;
      }
      ok := EncodeVarint(size);
      if !ok { return false; }
      if !writes {
        Count(size);
        return true;
      }
      ok := EncodeItems(f.ltype, items);
    }

    /** The items of a packed array. */
    method EncodeItems(t: LType, items: seq<Value>) returns (ok: bool)
      requires Valid() && TypeOk(t) && Packable(t)
      requires forall k :: 0 <= k < |items| ==> IsValue(t, items[k])
      modifies this
      ensures Valid() && EncodePacked(t, items).Some?
      ensures ok == old(Room(|EncodePacked(t, items).value|))
      ensures ok ==> Has(old(state), old(bytesWritten), EncodePacked(t, items).value)
      decreases t, 1, 0
    {
      hide TypeOk, IsValue, EncodeValue, EncodePacked, Varint;
      PackedIsThere(t, items);
      ghost var done: Bytes := [];
      assert items[0..] == items;
      JoinNothing(EncodePacked(t, items));
      for i := 0 to |items|
        invariant Valid() && Has(old(state), old(bytesWritten), done)
        invariant EncodePacked(t, items) == Join(Some(done), EncodePacked(t, items[i..]))
      {
        PackedStep(t, items, i);
        ok := EncValue(t, items[i]);
        if !ok { return false; }
        JoinMore(done, EncodeValue(t, items[i]), EncodePacked(t, items[i + 1..]));
        done := done + EncodeValue(t, items[i]).value;
      }
      PackedEnd(t, items);
      ok := true;
    }

    method EncodeUnpackedArray(f: Field, items: seq<Value>) returns (ok: bool)
      requires Valid() && FieldOk(f)
      requires forall k :: 0 <= k < |items| ==> IsValue(f.ltype, items[k])
      modifies this
      ensures Valid()
      ensures
        var e := EncodeTagged(f.tag, f.ltype, items);
        ok == (e.Some? && old(Room(|e.value|))) && (ok ==> Has(old(state), old(bytesWritten), e.value))
      decreases f.ltype, 1, 1
    {
      hide TypeOk, IsValue, EncodeValue, EncodeTagged, Varint, FieldOk, Tag;
      FieldBounds(f);
      ghost var done: Bytes := [];
      assert items[0..] == items;
      JoinNothing(EncodeTagged(f.tag, f.ltype, items));
      for i := 0 to |items|
        invariant Valid() && Has(old(state), old(bytesWritten), done)
        invariant EncodeTagged(f.tag, f.ltype, items) == Join(Some(done), EncodeTagged(f.tag, f.ltype, items[i..]))
      {
        TaggedStep(f.tag, f.ltype, items, i);
        ok := EncodeTag(WireType(f.ltype), f.tag);
        if !ok { return false; }
        ok := EncValue(f.ltype, items[i]);
        if !ok { return false; }
        ghost var tag := Tag(f.tag, WireType(f.ltype));
        ghost var one := Join(Some(tag), EncodeValue(f.ltype, items[i]));
        Assoc(old(state) + done, tag, EncodeValue(f.ltype, items[i]).value);
        Assoc(old(state), done, one.value);
        JoinMore(done, one, EncodeTagged(f.tag, f.ltype, items[i + 1..]));
        done := done + one.value;
      }
      TaggedEnd(f.tag, f.ltype, items);
      ok := true;
    }
  }

  /** `pb_get_encoded_size`: the sizing pass counts what a writing pass emits. */
  method GetEncodedSize(fields: seq<Field>, slots: seq<Slot>) returns (ok: bool, size: nat)
    requires WellFormed(fields) && IsStruct(fields, slots)
    ensures ok == EncodeFrom(fields, slots, 0).Some? && (ok ==> size == |EncodeFrom(fields, slots, 0).value|)
  {
    var stream := new OStream(false, 0, []);
    ok := stream.Encode(fields, slots);
    size := stream.bytesWritten;
  }

  /** Whether a proto3 field is left out because it is zero; a submessage is, when no field has anything to say. */
  method CheckProto3Default(t: LType, v: Value) returns (r: bool)
    requires IsValue(t, v)
    ensures r == IsZero(t, v)
    decreases t
  {
    match t
    case ByteArray(_) => r := |v.b| == 0;
    case Text(_) => r := |v.b| == 0;
    case Inline(length) => r := length == 0;
    case Submessage(fields) =>
      StructParts(fields, v.slots);
      var iter := new FieldIter(fields, v.slots);
      var more := iter.Begin();
      while more
        invariant iter.Valid() && iter.fields == fields && iter.dest == v.slots
        invariant if more then forall i :: 0 <= i < iter.pos ==> IsDefault(fields[i], v.slots[i])
          else forall i :: 0 <= i < |fields| ==> IsDefault(fields[i], v.slots[i])
        decreases more, |fields| - iter.pos
      {
        var f, s := iter.fields[iter.pos], iter.dest[iter.pos];
        var d := false;
        SlotKind(f, s);
        match f.htype {
          case Required => d := false;
          case Optional(hasFlag) =>
            if hasFlag {
              d := !s.has;
            } else {
              d := CheckProto3Default(f.ltype, s.v);
            }
          case Repeated(_) => d := |s.items| == 0;
          case Oneof(_) => d := !s.has;
        }
        if !d { return false; }
        more := iter.Next();
      }
      r := true;
    case _ => r := v.n == 0;
  }

  // ---------------------------------------------------------------- steps of the encoding

  lemma VarintStep(v: nat)
    ensures Varint(v) == if v < 128 then [ToByte(v)] else [ToByte(v % 128 + 128)] + Varint(v / 128)
  {
  }

  lemma FieldBounds(f: Field)
    requires FieldOk(f)
    ensures TypeOk(f.ltype) && 0 < f.tag < 0x2000_0000
  {
  }

  lemma PackedIs(tag: Bytes, body: Bytes)
    ensures tag + LengthPrefixed(body) == tag + Varint(|body|) + body
  {
    hide Varint;
    Assoc(tag, Varint(|body|), body);
  }

  lemma JoinNothing(e: Option<Bytes>)
    ensures Join(Some([]), e) == e
  {
    if e.Some? { assert [] + e.value == e.value; }
  }

  lemma JoinMore(done: Bytes, a: Option<Bytes>, b: Option<Bytes>)
    requires a.Some?
    ensures Join(Some(done), Join(a, b)) == Join(Some(done + a.value), b)
  {
    if b.Some? { Assoc(done, a.value, b.value); }
  }

  lemma StructSize(fields: seq<Field>, slots: seq<Slot>)
    requires IsStruct(fields, slots)
    ensures |slots| == |fields|
  {
  }

  lemma LastFields(fields: seq<Field>, slots: seq<Slot>)
    requires IsStruct(fields, slots)
    ensures EncodeFrom(fields, slots, |fields|) == Some([])
  {
  }

  lemma FieldParts(fields: seq<Field>, slots: seq<Slot>, i: nat)
    requires WellFormed(fields) && IsStruct(fields, slots) && i < |fields|
    ensures |slots| == |fields| && FieldOk(fields[i]) && IsSlot(fields[i], slots[i])
    ensures EncodeFrom(fields, slots, i) == Join(EncodeField(fields[i], slots[i]), EncodeFrom(fields, slots, i + 1))
  {
  }

  lemma {:induction false} PackedIsThere(t: LType, items: seq<Value>)
    requires Packable(t) && forall k :: 0 <= k < |items| ==> IsValue(t, items[k])
    ensures EncodePacked(t, items).Some?
    ensures t.Bits32? ==> |EncodePacked(t, items).value| == 4 * |items|
    ensures t.Bits64? ==> |EncodePacked(t, items).value| == 8 * |items|
  {
    if items != [] {
      PackedIsThere(t, items[1..]);
    }
  }

  lemma PackedStep(t: LType, items: seq<Value>, i: nat)
    requires i < |items| && forall k :: 0 <= k < |items| ==> IsValue(t, items[k])
    ensures EncodePacked(t, items[i..]) == Join(EncodeValue(t, items[i]), EncodePacked(t, items[i + 1..]))
  {
    assert items[i..][1..] == items[i + 1..];
  }

  lemma PackedEnd(t: LType, items: seq<Value>)
    requires forall k :: 0 <= k < |items| ==> IsValue(t, items[k])
    ensures EncodePacked(t, items[|items|..]) == Some([]) && EncodePacked(t, []) == Some([])
  {
  }

  lemma TaggedStep(tag: nat, t: LType, items: seq<Value>, i: nat)
    requires i < |items| && forall k :: 0 <= k < |items| ==> IsValue(t, items[k])
    ensures EncodeTagged(tag, t, items[i..])
         == Join(Join(Some(Tag(tag, WireType(t))), EncodeValue(t, items[i])), EncodeTagged(tag, t, items[i + 1..]))
  {
    assert items[i..][1..] == items[i + 1..];
  }

  lemma TaggedEnd(tag: nat, t: LType, items: seq<Value>)
    requires forall k :: 0 <= k < |items| ==> IsValue(t, items[k])
    ensures EncodeTagged(tag, t, items[|items|..]) == Some([])
  {
  }
}
