/**
 The message descriptions of nanopb, the structs they describe, and the iterator over fields.

 A descriptor is a tree: a submessage's type holds the fields of the submessage.  All fields are static; the wire
 format is that of the Protocol Buffers encoding guide, sections "Base 128 Varints" and "Message Structure".
 */
module PbCommon {
  import opened Coding
  import opened Keys

  // ---------------------------------------------------------------- descriptors and values

  /** What one item of a field is; `size` is the C integer's width in bytes. */
  datatype LType =
    | Boolean
    | Int(size: nat)
    | UInt(size: nat)
    | SInt(size: nat)
    | Bits32
    | Bits64
    | ByteArray(cap: nat)
    | Text(dataSize: nat)
    | Inline(length: nat)
    | Submessage(fields: seq<Field>)

  /** How often: an optional field has a flag or, as in proto3, is there unless it is zero. */
  datatype HType = Required | Optional(hasFlag: bool) | Repeated(cap: nat) | Oneof(union_: nat)

  datatype Field = Field(tag: nat, ltype: LType, htype: HType, preset: Option<Value>)

  /** A number, a string of bytes, or the slots of a submessage's struct. */
  datatype Value = Num(n: int) | Blob(b: Bytes) | Struct(slots: seq<Slot>)

  /** A field's part of the struct: the item, the item and its flag (or its union's selector), or counted items. */
  datatype Slot = One(v: Value) | Maybe(has: bool, v: Value) | Many(items: seq<Value>)

  predicate Packable(t: LType) { t.Boolean? || t.Int? || t.UInt? || t.SInt? || t.Bits32? || t.Bits64? }

  predicate IsSize(size: nat) { size == 1 || size == 2 || size == 4 || size == 8 }

  predicate InSigned(size: nat, n: int)
    requires IsSize(size)
  {
    match size
    case 1 => -0x80 <= n < 0x80
    case 2 => -0x8000 <= n < 0x8000
    case 4 => -0x8000_0000 <= n < 0x8000_0000
    case _ => -0x8000_0000_0000_0000 <= n < 0x8000_0000_0000_0000
  }

  predicate InUnsigned(size: nat, n: int)
    requires IsSize(size)
  {
    match size
    case 1 => 0 <= n < 0x100
    case 2 => 0 <= n < 0x1_0000
    case 4 => 0 <= n < TWO32
    case _ => 0 <= n < TWO64
  }

  /** Descriptors that the generator makes: unique tags that fit, integer widths, presets that the struct can hold. */
  ghost predicate WellFormed(fields: seq<Field>)
    decreases fields
  {
    && (forall i :: 0 <= i < |fields| ==> FieldOk(fields[i]))
    && forall i, j :: 0 <= i < j < |fields| ==> fields[i].tag != fields[j].tag
  }

  ghost predicate FieldOk(f: Field)
    decreases f
  {
    && 0 < f.tag < 0x2000_0000 && TypeOk(f.ltype) && (f.htype.Repeated? ==> f.htype.cap < TWO32)
    && (f.preset.Some? ==> !f.ltype.Submessage? && IsValue(f.ltype, f.preset.value) && (f.htype.Required? || f.htype == Optional(true)))
  }

  ghost predicate TypeOk(t: LType)
    decreases t
  {
    match t
    case Int(size) => IsSize(size)
    case UInt(size) => IsSize(size)
    case SInt(size) => IsSize(size)
    case ByteArray(cap) => cap < TWO32
    case Text(dataSize) => dataSize < TWO32
    case Inline(length) => length < TWO32
    case Submessage(fields) => WellFormed(fields)
    case _ => true
  }

  // ---------------------------------------------------------------- what a struct's memory can hold

  ghost predicate IsValue(t: LType, v: Value)
    decreases t
  {
    match t
    case Boolean => v == Num(0) || v == Num(1)
    case Int(size) => v.Num? && IsSize(size) && InSigned(size, v.n)
    case UInt(size) => v.Num? && IsSize(size) && InUnsigned(size, v.n)
    case SInt(size) => v.Num? && IsSize(size) && InSigned(size, v.n)
    case Bits32 => v.Num? && 0 <= v.n < TWO32
    case Bits64 => v.Num? && 0 <= v.n < TWO64
    case ByteArray(_) => v.Blob?
    case Text(dataSize) => v.Blob? && |v.b| <= dataSize && 0 !in v.b
    case Inline(length) => v.Blob? && |v.b| == length
    case Submessage(fields) => v.Struct? && IsStruct(fields, v.slots)
  }

  ghost predicate IsSlot(f: Field, s: Slot)
    decreases f
  {
    match f.htype
    case Required => s.One? && IsValue(f.ltype, s.v)
    case Optional(hasFlag) => (if hasFlag then s.Maybe? else s.One?) && IsValue(f.ltype, s.v)
    case Repeated(_) => s.Many? && forall k :: 0 <= k < |s.items| ==> IsValue(f.ltype, s.items[k])
    case Oneof(_) => s.Maybe? && IsValue(f.ltype, s.v)
  }

  /** One slot for each field; a union selects at most one of its members. */
  ghost predicate IsStruct(fields: seq<Field>, slots: seq<Slot>)
    decreases fields
  {
    && |slots| == |fields| && (forall i :: 0 <= i < |fields| ==> IsSlot(fields[i], slots[i]))
    && forall i, j :: 0 <= i < j < |fields| && Rivals(fields, i, j) ==> !(Has(slots[i]) && Has(slots[j]))
  }

  lemma StructParts(fields: seq<Field>, slots: seq<Slot>)
    requires IsStruct(fields, slots)
    ensures |slots| == |fields| && forall i :: 0 <= i < |fields| ==> IsSlot(fields[i], slots[i])
  {
  }

  lemma SlotKind(f: Field, s: Slot)
    requires IsSlot(f, s)
    ensures match f.htype
      case Required => s.One? && IsValue(f.ltype, s.v)
      case Optional(hasFlag) => (if hasFlag then s.Maybe? else s.One?) && IsValue(f.ltype, s.v)
      case Repeated(_) => s.Many? && forall k :: 0 <= k < |s.items| ==> IsValue(f.ltype, s.items[k])
      case Oneof(_) => s.Maybe? && IsValue(f.ltype, s.v)
  {
  }

  predicate Has(s: Slot) { s.Maybe? && s.has }

  /** Two members of the same union. */
  predicate Rivals(fields: seq<Field>, i: nat, j: nat)
    requires i < |fields| && j < |fields|
  {
    i != j && fields[i].htype.Oneof? && fields[j].htype == fields[i].htype
  }

  // ---------------------------------------------------------------- defaults

  function DefaultValue(t: LType, preset: Option<Value>): Value
    decreases t
  {
    match t
    case Submessage(fields) => Struct(Defaults(fields))
    case _ => if preset.Some? then preset.value else Zero(t)
  }

  function Zero(t: LType): Value {
    match t
    case ByteArray(_) => Blob([])
    case Text(_) => Blob([])
    case Inline(length) => Blob(Zeros(length))
    case _ => Num(0)
  }

  /** `pb_field_set_to_default`: no flag, no items, no union member; otherwise the preset, or zero. */
  function DefaultSlot(f: Field): Slot
    decreases f
  {
    match f.htype
    case Required => One(DefaultValue(f.ltype, f.preset))
    case Optional(hasFlag) =>
      if hasFlag then Maybe(false, DefaultValue(f.ltype, f.preset)) else One(DefaultValue(f.ltype, f.preset))
    case Repeated(_) => Many([])
    case Oneof(_) => Maybe(false, DefaultValue(f.ltype, f.preset))
  }

  function Defaults(fields: seq<Field>): (slots: seq<Slot>)
    ensures |slots| == |fields|
    decreases fields
  {
    seq(|fields|, i requires 0 <= i < |fields| => DefaultSlot(fields[i]))
  }

  // ---------------------------------------------------------------- the field iterator

  function RequiredBefore(fields: seq<Field>, i: nat): (n: nat)
    requires i <= |fields|
    ensures n <= i
  {
    if i == 0 then 0 else RequiredBefore(fields, i - 1) + if fields[i - 1].htype.Required? then 1 else 0
  }

  /** The position `k` steps on from `start`, round the end. */
  function Around(start: nat, k: nat, n: nat): (i: nat)
    requires start < n && k < n
    ensures i < n
  {
    if start + k < n then start + k else start + k - n
  }

  class FieldIter {
    const fields: seq<Field>
    var pos: nat
    var requiredFieldIndex: nat
    var dest: seq<Slot>

    /** The iterator is at a field, with the number of required fields before it. */
    predicate Valid()
      reads this
    {
      && |dest| == |fields| && (if fields == [] then pos == 0 else pos < |fields|)
      && requiredFieldIndex == RequiredBefore(fields, pos)
    }

    constructor (fields: seq<Field>, dest: seq<Slot>)
      requires |dest| == |fields|
      ensures Valid() && pos == 0 && this.fields == fields && this.dest == dest
    {
      this.fields, this.dest, pos, requiredFieldIndex := fields, dest, 0, 0;
    }

    /** Back at the first field; false when there is none. */
    method Begin() returns (ok: bool)
      requires |dest| == |fields|
      modifies `pos, `requiredFieldIndex
      ensures Valid() && pos == 0 && ok == (fields != [])
    {
      pos, requiredFieldIndex := 0, 0;
      ok := |fields| > 0;
    }

    /** The next field, or false and the first one. */
    method Next() returns (ok: bool)
      requires Valid()
      modifies `pos, `requiredFieldIndex
      ensures Valid() && ok == (old(pos) + 1 < |fields|) && pos == if ok then old(pos) + 1 else 0
    {
      if |fields| == 0 { return false; }
      if pos + 1 == |fields| {
        var _ := Begin();
        return false;
      }
      if fields[pos].htype.Required? {
        requiredFieldIndex := requiredFieldIndex + 1;
      }
      pos := pos + 1;
      ok := true;
    }

    /** Go round from here until a field has the tag. */
    method Find(tag: nat) returns (found: bool)
      requires Valid()
      modifies `pos, `requiredFieldIndex
      ensures Valid()
      ensures found <==> (exists i :: 0 <= i < |fields| && fields[i].tag == tag) || (fields == [] && tag == 0)
      ensures if found && fields != [] then fields[pos].tag == tag else pos == old(pos)
    {
      var start, n := pos, |fields|;
      if n == 0 { return tag == 0; }  // at the descriptor's end, whose tag is 0
      ghost var seen := 0;
      while true
        invariant Valid() && 0 <= seen < n && pos == Around(start, seen, n)
        invariant forall k :: 0 <= k < seen ==> fields[Around(start, k, n)].tag != tag
        decreases n - seen
      {
        if fields[pos].tag == tag { return true; }
        var _ := Next();
        seen := seen + 1;
        if pos == start {
          forall i | 0 <= i < n
            ensures fields[i].tag != tag
          {
            var k := if i >= start then i - start else i - start + n;
            assert fields[Around(start, k, n)].tag != tag;
          }
          return false;
        }
      }
    }
  }
}
