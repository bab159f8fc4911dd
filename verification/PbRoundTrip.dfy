/** Decoding what was encoded gives the struct back, up to the memory that an absent field leaves undefined. */
module PbRoundTrip {
  import opened Coding
  import opened Keys
  import opened PbCommon
  import opened PbDecode
  import opened PbEncode

  // ---------------------------------------------------------------- what comes back

  /** An item with the memory of its absent fields set to their defaults. */
  ghost function NormValue(t: LType, v: Value): Value
    requires IsValue(t, v)
    decreases t, 0
  {
    match t
    case Submessage(fields) => Struct(NormSlots(fields, v.slots))
    case _ => v
  }

  ghost function NormSlot(f: Field, s: Slot): Slot
    requires IsSlot(f, s)
    decreases f
  {
    match f.htype
    case Required => One(NormValue(f.ltype, s.v))
    case Optional(hasFlag) =>
      if !hasFlag then One(NormValue(f.ltype, s.v))
      else if s.has then Maybe(true, NormValue(f.ltype, s.v)) else DefaultSlot(f)
    case Repeated(_) => Many(NormItems(f.ltype, s.items))
    case Oneof(_) => if s.has then Maybe(true, NormValue(f.ltype, s.v)) else DefaultSlot(f)
  }

  ghost function NormItems(t: LType, items: seq<Value>): (r: seq<Value>)
    requires forall k :: 0 <= k < |items| ==> IsValue(t, items[k])
    ensures |r| == |items|
    decreases t, 1
  {
    seq(|items|, k requires 0 <= k < |items| => NormValue(t, items[k]))
  }

  ghost function NormSlots(fields: seq<Field>, slots: seq<Slot>): (r: seq<Slot>)
    requires IsStruct(fields, slots)
    ensures |r| == |fields|
    decreases fields
  {
    StructParts(fields, slots);
    seq(|fields|, i requires 0 <= i < |fields| => NormSlot(fields[i], slots[i]))
  }

  /** Every string that is encoded ends within its array. */
  ghost predicate Terminated(t: LType, v: Value)
    requires IsValue(t, v)
    decreases t
  {
    match t
    case Text(dataSize) => |v.b| < dataSize
    case Submessage(fields) => StringsEnd(fields, v.slots)
    case _ => true
  }

  ghost predicate StringsEnd(fields: seq<Field>, slots: seq<Slot>)
    requires IsStruct(fields, slots)
    decreases fields
  {
    StructParts(fields, slots);
    forall i :: 0 <= i < |fields| ==> SlotEnds(fields[i], slots[i])
  }

  ghost predicate SlotEnds(f: Field, s: Slot)
    requires IsSlot(f, s)
    decreases f
  {
    if f.htype.Repeated? then forall k :: 0 <= k < |s.items| ==> Terminated(f.ltype, s.items[k])
    else IsPresent(f, s) ==> Terminated(f.ltype, s.v)
  }

  // ---------------------------------------------------------------- numbers and strings

  lemma Powers7()
    ensures Pow2(7) == 0x80 && Pow2(14) == 0x4000 && Pow2(21) == 0x20_0000 && Pow2(28) == 0x1000_0000
  {
    assert Pow2(4) == 16;
    assert Pow2(8) == 0x100 && Pow2(7) == 0x80;
    assert Pow2(11) == 0x800;
    assert Pow2(14) == 0x4000;
    assert Pow2(17) == 0x2_0000;
    assert Pow2(21) == 0x20_0000;
    assert Pow2(24) == 0x100_0000;
    assert Pow2(28) == 0x1000_0000;
  }

  function Scale(k: nat): (p: nat)
    requires 1 <= k <= 4
  {
    if k == 1 then 0x80 else if k == 2 then 0x4000 else if k == 3 then 0x20_0000 else 0x1000_0000
  }

  lemma NoFifthDigit(v: nat, k: nat, result: nat)
    requires 1 <= k <= 4 && v >= 128 && result + v * Scale(k) < TWO32
    ensures k < 4
  {
  }

  lemma DigitScales(v: nat, k: nat, result: nat)
    requires 1 <= k < 4 && v >= 128 && result < Scale(k) && result + v * Scale(k) < TWO32
    ensures result + v % 128 * Scale(k) < Scale(k + 1)
    ensures result + v % 128 * Scale(k) + v / 128 * Scale(k + 1) == result + v * Scale(k)
  {
    assert v == 128 * (v / 128) + v % 128;
    match k
    case 1 =>
    case 2 =>
    case 3 =>
  }

  lemma RestStep(digit: nat, more: bool, rest: Bytes, k: nat, result: nat)
    requires 1 <= k <= 4 && digit < 128 && result + digit * Scale(k) < TWO32
    ensures
      var sum := result + digit * Scale(k);
      TakeRest32([ToByte(if more then digit + 128 else digit)] + rest, 7 * k, result)
        == if more then TakeRest32(rest, 7 * k + 7, sum) else Got(sum, rest)
  {
    hide Pow2;
    Powers7();
    FirstBytes([ToByte(if more then digit + 128 else digit)], rest);
    match k
    case 1 =>
    case 2 =>
    case 3 =>
    case 4 =>
  }

  lemma {:induction false} Rest32RoundTrip(v: nat, rest: Bytes, k: nat, result: nat)
    requires 1 <= k <= 4 && v > 0 && result < Scale(k) && result + v * Scale(k) < TWO32
    ensures TakeRest32(Varint(v) + rest, 7 * k, result) == Got(result + v * Scale(k), rest)
    decreases v
  {
    hide Varint, TakeRest32, Scale;
    VarintStep(v);
    if v < 128 {
      RestStep(v, false, rest, k, result);
    } else {
      NoFifthDigit(v, k, result);
      DigitScales(v, k, result);
      Below32(v, k, result);
      RestStep(v % 128, true, Varint(v / 128) + rest, k, result);
      Assoc([ToByte(v % 128 + 128)], Varint(v / 128), rest);
      Rest32RoundTrip(v / 128, rest, k + 1, result + v % 128 * Scale(k));
    }
  }

  lemma Below32(v: nat, k: nat, result: nat)
    requires 1 <= k <= 4 && result + v * Scale(k) < TWO32
    ensures result + v % 128 * Scale(k) < TWO32
  {
    match k
    case 1 =>
    case 2 =>
    case 3 =>
    case 4 =>
  }

  lemma U32RoundTrip(v: nat, rest: Bytes)
    requires v < TWO32
    ensures TakeU32(Varint(v) + rest) == Got(v, rest)
  {
    hide TakeRest32;
    var all := Varint(v) + rest;
    if v < 128 {
      assert all[1..] == rest;
    } else {
      assert all[1..] == Varint(v / 128) + rest;
      Rest32RoundTrip(v / 128, rest, 1, v % 128);
    }
  }

  lemma TagRoundTrip(tag: nat, wire: nat, rest: Bytes)
    requires 0 < tag < 0x2000_0000 && wire < 8
    ensures TakeTag(Tag(tag, wire) + rest) == GoodTag(tag, wire, rest)
  {
    hide Varint, TakeU32;
    U32RoundTrip(tag * 8 + wire, rest);
  }

  lemma StringRoundTrip(b: Bytes, rest: Bytes)
    requires |b| < TWO32
    ensures TakeU32(LengthPrefixed(b) + rest) == Got(|b|, b + rest)
    ensures Read(b + rest, |b|) == Got(b, rest)
    ensures TakeString(LengthPrefixed(b) + rest) == Got(b, rest)
  {
    hide Varint, TakeU32;
    Assoc(Varint(|b|), b, rest);
    U32RoundTrip(|b|, b + rest);
  }

  /** Two's complement and zigzag lose nothing. */
  lemma SignedRoundTrip(size: nat, n: int)
    requires IsSize(size) && InSigned(size, n)
    ensures -0x8000_0000_0000_0000 <= n < 0x8000_0000_0000_0000
    ensures (if size == 8 then AsSigned(AsUnsigned(n)) else AsSigned32(AsUnsigned(n))) == n
    ensures UnZigZag(ZigZag(n)) == n
  {
  }

  /** Everything but a submessage comes back, except a string that does not end. */
  lemma ScalarRoundTrip(t: LType, v: Value, rest: Bytes, there: Value)
    requires TypeOk(t) && IsValue(t, v) && !t.Submessage? && EncodeValue(t, v).Some?
    ensures DecodeValue(t, EncodeValue(t, v).value + rest, there) == if Terminated(t, v) then Got(v, rest) else Fail
  {
    hide Varint, TakeU32, Take64, TakeVarint64, EncodeFixed32, EncodeFixed64, DecodeFixed32, DecodeFixed64, LengthPrefixed, UpToZero,
      Read, AsSigned, AsSigned32, ZigZag, UnZigZag, AsUnsigned;
    match t
    case Boolean => U32RoundTrip(v.n, rest);
    case Int(size) => SignedRoundTrip(size, v.n); Wide64(AsUnsigned(v.n), rest);
    case UInt(size) => Wide64(v.n, rest);
    case SInt(size) => SignedRoundTrip(size, v.n); Wide64(ZigZag(v.n), rest);
    case Bits32 => FixedRoundTrip(v.n); FirstBytes(EncodeFixed32(v.n), rest);
    case Bits64 => Fixed64RoundTrip(v.n); FirstBytes(EncodeFixed64(v.n), rest);
    case ByteArray(cap) => StringRoundTrip(v.b, rest);
    case Text(dataSize) => StringRoundTrip(v.b, rest);
    case Inline(length) => StringRoundTrip(v.b, rest); NoBytes(v.b, rest);
  }

  lemma Wide64(u: nat, rest: Bytes)
    requires u < TWO64
    ensures Take64(Varint(u) + rest) == Got(u, rest)
  {
    hide Varint, TakeVarint64;
    Varint64RoundTrip(u, rest);
  }

  lemma FirstBytes(a: Bytes, rest: Bytes)
    ensures (a + rest)[..|a|] == a && (a + rest)[|a|..] == rest
  {
  }

  lemma NoBytes(b: Bytes, rest: Bytes)
    ensures |b| == 0 ==> b == Zeros(0) && b + rest == rest
  {
  }

  // ---------------------------------------------------------------- defaults

  /** A proto3 field that is zero, and so not encoded, is what an unset one is. */
  lemma {:induction false} ZeroIsDefault(t: LType, v: Value)
    requires TypeOk(t) && IsValue(t, v) && IsZero(t, v)
    ensures NormValue(t, v) == DefaultValue(t, None)
    decreases t
  {
    match t
    case Submessage(fields) =>
      StructParts(fields, v.slots);
      forall i | 0 <= i < |fields|
        ensures NormSlot(fields[i], v.slots[i]) == DefaultSlot(fields[i])
      {
        FieldsOk(fields, i);
        DefaultIsDefault(fields[i], v.slots[i]);
      }
      assert NormSlots(fields, v.slots) == Defaults(fields);
    case Inline(length) => NoBytes(v.b, []);
    case _ =>
  }

  lemma FieldsOk(fields: seq<Field>, i: nat)
    requires WellFormed(fields) && i < |fields|
    ensures FieldOk(fields[i])
  {
  }

  lemma {:induction false} DefaultIsDefault(f: Field, s: Slot)
    requires FieldOk(f) && IsSlot(f, s) && IsDefault(f, s)
    ensures NormSlot(f, s) == DefaultSlot(f)
    decreases f
  {
    if f.htype == Optional(false) {
      ZeroIsDefault(f.ltype, s.v);
    }
  }

  /** A field that is not encoded. */
  lemma AbsentIsDefault(f: Field, s: Slot)
    requires FieldOk(f) && IsSlot(f, s) && (if f.htype.Repeated? then s.items == [] else !IsPresent(f, s))
    ensures NormSlot(f, s) == DefaultSlot(f) && EncodeField(f, s) == Some([])
  {
    hide TypeOk, IsValue, IsZero, NormValue, EncodeValue, Varint;
    if f.htype == Optional(false) {
      ZeroIsDefault(f.ltype, s.v);
    }
  }

  // ---------------------------------------------------------------- messages

  /** Half-way: the fields before `i` decoded, the others as they start. */
  ghost function Mixed(fields: seq<Field>, slots: seq<Slot>, i: nat): (r: seq<Slot>)
    requires IsStruct(fields, slots)
    ensures |r| == |fields|
  {
    StructParts(fields, slots);
    seq(|fields|, j requires 0 <= j < |fields| => if j < i then NormSlot(fields[j], slots[j]) else DefaultSlot(fields[j]))
  }

  ghost predicate SeenAll(fields: seq<Field>, seen: set<nat>, i: nat)
    requires i <= |fields|
  {
    forall k :: 0 <= k < RequiredBefore(fields, i) && k < MAX_REQUIRED ==> k in seen
  }

  lemma SeesNext(fields: seq<Field>, seen: set<nat>, i: nat)
    requires i < |fields| && SeenAll(fields, seen, i)
    ensures SeenAll(fields, See(fields, seen, i), i + 1)
    ensures !fields[i].htype.Required? ==> SeenAll(fields, seen, i + 1)
  {
  }

  /** One turn of the loop on a field's tag. */
  lemma LoopTurn(fields: seq<Field>, i: nat, wire: nat, more: Bytes, x: Filling, s: Slot, rest: Bytes)
    requires WellFormed(fields) && i < |fields| && wire < 8 && |x.slots| == |fields|
    requires DecodeField(fields[i], wire, more, x.slots[i]) == Got(s, rest)
    ensures DecodeLoop(fields, Tag(fields[i].tag, wire) + more, x)
         == DecodeLoop(fields, rest, Filling(Store(fields, x.slots, i, s), See(fields, x.seen, i)))
  {
    hide DecodeField, Store, See, Tag, TakeTag, WellFormed, FieldOk;
    FieldsOk(fields, i);
    TagOk(fields[i]);
    TagsDiffer(fields);
    IndexIsUnique(fields, i);
    TagRoundTrip(fields[i].tag, wire, more);
    TagIsSome(fields[i].tag, wire);
  }

  lemma LoopFails(fields: seq<Field>, i: nat, wire: nat, more: Bytes, x: Filling)
    requires WellFormed(fields) && i < |fields| && wire < 8 && |x.slots| == |fields|
    requires DecodeField(fields[i], wire, more, x.slots[i]) == Fail
    ensures DecodeLoop(fields, Tag(fields[i].tag, wire) + more, x) == Fail
  {
    hide DecodeField, Store, See, Tag, TakeTag, WellFormed, FieldOk;
    FieldsOk(fields, i);
    TagOk(fields[i]);
    TagsDiffer(fields);
    IndexIsUnique(fields, i);
    TagRoundTrip(fields[i].tag, wire, more);
    TagIsSome(fields[i].tag, wire);
  }

  lemma TagOk(f: Field)
    requires FieldOk(f)
    ensures 0 < f.tag < 0x2000_0000
  {
  }

  lemma TagIsSome(tag: nat, wire: nat)
    ensures Tag(tag, wire) != []
  {
  }

  /** Storing the decoded field makes one more field decoded: a union's other members had nothing. */
  lemma StoresNext(fields: seq<Field>, slots: seq<Slot>, i: nat)
    requires IsStruct(fields, slots) && i < |fields|
    requires !fields[i].htype.Repeated? && IsSlot(fields[i], slots[i]) && IsPresent(fields[i], slots[i])
    ensures Store(fields, Mixed(fields, slots, i), i, NormSlot(fields[i], slots[i])) == Mixed(fields, slots, i + 1)
  {
    hide IsValue, NormValue, DefaultValue, IsZero;
    StructParts(fields, slots);
    var a, b := Store(fields, Mixed(fields, slots, i), i, NormSlot(fields[i], slots[i])), Mixed(fields, slots, i + 1);
    forall j | 0 <= j < |fields|
      ensures a[j] == b[j]
    {
      SlotKind(fields[j], slots[j]);
      if Rivals(fields, i, j) && j < i {
        assert Rivals(fields, j, i);
      }
    }
  }

  // ---------------------------------------------------------------- the induction over the descriptor

  /** Encoded values are no longer than the message they are in. */
  lemma JoinSize(a: Option<Bytes>, b: Option<Bytes>)
    ensures Join(a, b).Some? ==> a.Some? && b.Some? && Join(a, b).value == a.value + b.value
  {
  }

  ghost function Outcome(t: LType, v: Value, rest: Bytes): Taken<Value>
    requires IsValue(t, v)
  {
    if Terminated(t, v) then Got(NormValue(t, v), rest) else Fail
  }

  /**
   An item comes back, whatever follows it, unless it has a string that does not end; a submessage is decoded into
   its defaults.
   */
  lemma {:induction false} ValueRoundTrip(t: LType, v: Value, rest: Bytes)
    requires TypeOk(t) && IsValue(t, v)
    requires EncodeValue(t, v).Some? && |EncodeValue(t, v).value| < TWO32
    ensures forall preset ::
      DecodeValue(t, EncodeValue(t, v).value + rest, DefaultValue(t, preset)) == Outcome(t, v, rest)
    decreases t, 0
  {
    if t.Submessage? {
      var fields := t.fields;
      var body := EncodeFrom(fields, v.slots, 0).value;
      BodyIsShort(body);
      MessageRoundTrip(fields, v.slots);
      StringRoundTrip(body, rest);
    } else {
      forall preset
        ensures DecodeValue(t, EncodeValue(t, v).value + rest, DefaultValue(t, preset)) == Outcome(t, v, rest)
      {
        ScalarRoundTrip(t, v, rest, DefaultValue(t, preset));
      }
    }
  }

  lemma OutcomeIs(t: LType, v: Value, rest: Bytes)
    requires IsValue(t, v)
    ensures Outcome(t, v, rest) == if Terminated(t, v) then Got(NormValue(t, v), rest) else Fail
  {
  }

  lemma BodyIsShort(body: Bytes)
    ensures |body| < |LengthPrefixed(body)|
  {
    hide Varint;
  }

  /**
   Decoding an encoded message into the defaults gives the message, and leaves nothing, if and only if every string
   in it ends within its array.
   */
  lemma {:induction false} MessageRoundTrip(fields: seq<Field>, slots: seq<Slot>)
    requires WellFormed(fields) && IsStruct(fields, slots)
    requires EncodeFrom(fields, slots, 0).Some? && |EncodeFrom(fields, slots, 0).value| < TWO32
    ensures DecodeMessage(fields, EncodeFrom(fields, slots, 0).value, Defaults(fields))
         == if StringsEnd(fields, slots) then Got(NormSlots(fields, slots), []) else Fail
    decreases fields, |fields| + 3
  {
    hide DecodeLoop, EncodeFrom, WellFormed;
    assert Mixed(fields, slots, 0) == Defaults(fields);
    var b := EncodeFrom(fields, slots, 0).value;
    var x := LoopRoundTrip(fields, slots, 0, {}, []);
    assert b + [] == b;
    NoMoreInput(fields, x);
  }

  lemma NoMoreInput(fields: seq<Field>, x: Filling)
    requires |x.slots| == |fields|
    ensures DecodeLoop(fields, [], x) == Got(x, [])
    ensures forall rest: Bytes :: DecodeLoop(fields, [0] + rest, x) == Got(x, rest)
  {
    hide DecodeField, Store, See, SkipField;
    forall rest: Bytes
      ensures TakeTag([0] + rest) == EndOfMessage(rest)
    {
      FirstBytes([0], rest);
    }
  }

  /** A zero byte ends a message, and what follows is left. */
  lemma ZeroEndsMessage(fields: seq<Field>, slots: seq<Slot>, rest: Bytes)
    requires WellFormed(fields) && IsStruct(fields, slots)
    requires EncodeFrom(fields, slots, 0).Some? && |EncodeFrom(fields, slots, 0).value| < TWO32
    ensures DecodeMessage(fields, EncodeFrom(fields, slots, 0).value + ([0] + rest), Defaults(fields))
         == if StringsEnd(fields, slots) then Got(NormSlots(fields, slots), rest) else Fail
  {
    hide DecodeLoop, EncodeFrom, WellFormed;
    assert Mixed(fields, slots, 0) == Defaults(fields);
    var x := LoopRoundTrip(fields, slots, 0, {}, [0] + rest);
    if StringsEnd(fields, slots) {
      NoMoreInput(fields, x);
    }
  }

  /** A message may come in parts: what follows one is decoded into it. */
  lemma MessageInParts(fields: seq<Field>, slots: seq<Slot>, rest: Bytes) returns (seen: set<nat>)
    requires WellFormed(fields) && IsStruct(fields, slots) && StringsEnd(fields, slots)
    requires EncodeFrom(fields, slots, 0).Some? && |EncodeFrom(fields, slots, 0).value| < TWO32
    ensures Complete(fields, seen)
    ensures DecodeLoop(fields, EncodeFrom(fields, slots, 0).value + rest, Filling(Defaults(fields), {}))
         == DecodeLoop(fields, rest, Filling(NormSlots(fields, slots), seen))
  {
    hide DecodeLoop, EncodeFrom, WellFormed;
    assert Mixed(fields, slots, 0) == Defaults(fields);
    var x := LoopRoundTrip(fields, slots, 0, {}, rest);
    seen := x.seen;
  }

  /** Whether the strings of the fields from `i` on end. */
  ghost predicate EndsFrom(fields: seq<Field>, slots: seq<Slot>, i: nat)
    requires IsStruct(fields, slots)
  {
    StructParts(fields, slots);
    forall j :: i <= j < |fields| ==> SlotEnds(fields[j], slots[j])
  }

  /** The loop on the fields from `i` on, and whatever follows them. */
  lemma {:induction false} LoopRoundTrip(fields: seq<Field>, slots: seq<Slot>, i: nat, seen: set<nat>, more: Bytes)
    returns (x: Filling)
    requires WellFormed(fields) && IsStruct(fields, slots) && i <= |fields|
    requires EncodeFrom(fields, slots, i).Some? && |EncodeFrom(fields, slots, i).value| < TWO32
    requires SeenAll(fields, seen, i)
    ensures |x.slots| == |fields|
    ensures DecodeLoop(fields, EncodeFrom(fields, slots, i).value + more, Filling(Mixed(fields, slots, i), seen))
         == if EndsFrom(fields, slots, i) then DecodeLoop(fields, more, x) else Fail
    ensures EndsFrom(fields, slots, i) ==> x.slots == NormSlots(fields, slots) && Complete(fields, x.seen)
    decreases fields, |fields| - i + 2
  {
    hide *;
    if i == |fields| {
      x := Filling(Mixed(fields, slots, i), seen);
      AtEnd(fields, slots, seen);
      assert [] + more == more;
    } else {
      FieldParts(fields, slots, i);
      EndParts(fields, slots, i);
      var f, s, rest := fields[i], slots[i], EncodeFrom(fields, slots, i + 1);
      JoinSize(EncodeField(f, s), rest);
      Assoc(EncodeField(f, s).value, rest.value, more);
      SeesNext(fields, seen, i);
      if f.htype.Repeated? {
        RepeatedTurns(fields, slots, i, seen, rest.value + more);
        x := LoopRoundTrip(fields, slots, i + 1, seen, more);
      } else if IsPresent(f, s) {
        PresentTurn(fields, slots, i, seen, rest.value + more);
        x := LoopRoundTrip(fields, slots, i + 1, See(fields, seen, i), more);
      } else {
        AbsentTurn(fields, slots, i, rest.value + more);
        x := LoopRoundTrip(fields, slots, i + 1, seen, more);
      }
    }
  }

  lemma AtEnd(fields: seq<Field>, slots: seq<Slot>, seen: set<nat>)
    requires IsStruct(fields, slots) && SeenAll(fields, seen, |fields|)
    ensures EncodeFrom(fields, slots, |fields|) == Some([]) && Mixed(fields, slots, |fields|) == NormSlots(fields, slots)
    ensures DecodeLoop(fields, [], Filling(Mixed(fields, slots, |fields|), seen)) == Got(Filling(Mixed(fields, slots, |fields|), seen), [])
    ensures Complete(fields, seen) && EndsFrom(fields, slots, |fields|)
  {
  }

  lemma EndParts(fields: seq<Field>, slots: seq<Slot>, i: nat)
    requires IsStruct(fields, slots) && i < |fields|
    ensures |slots| == |fields| && IsSlot(fields[i], slots[i])
    ensures EndsFrom(fields, slots, i) <==> SlotEnds(fields[i], slots[i]) && EndsFrom(fields, slots, i + 1)
  {
    StructParts(fields, slots);
  }

  lemma AbsentTurn(fields: seq<Field>, slots: seq<Slot>, i: nat, rest: Bytes)
    requires WellFormed(fields) && IsStruct(fields, slots) && i < |fields| && |slots| == |fields|
    requires IsSlot(fields[i], slots[i]) && !fields[i].htype.Repeated? && !IsPresent(fields[i], slots[i])
    ensures !fields[i].htype.Required?
    ensures Mixed(fields, slots, i + 1) == Mixed(fields, slots, i)
    ensures EncodeField(fields[i], slots[i]) == Some([]) && [] + rest == rest && SlotEnds(fields[i], slots[i])
  {
    FieldsOk(fields, i);
    AbsentIsDefault(fields[i], slots[i]);
    hide NormSlot, DefaultSlot;
  }

  /** A field with one item. */
  lemma {:induction false} PresentTurn(fields: seq<Field>, slots: seq<Slot>, i: nat, seen: set<nat>, rest: Bytes)
    requires WellFormed(fields) && IsStruct(fields, slots) && i < |fields| && |slots| == |fields|
    requires IsSlot(fields[i], slots[i]) && !fields[i].htype.Repeated? && IsPresent(fields[i], slots[i])
    requires EncodeField(fields[i], slots[i]).Some? && |EncodeField(fields[i], slots[i]).value| < TWO32
    ensures DecodeLoop(fields, EncodeField(fields[i], slots[i]).value + rest, Filling(Mixed(fields, slots, i), seen))
         == if SlotEnds(fields[i], slots[i]) then DecodeLoop(fields, rest, Filling(Mixed(fields, slots, i + 1), See(fields, seen, i)))
            else Fail
    decreases fields, 0
  {
    hide *;
    var f, s := fields[i], slots[i];
    FieldsOk(fields, i);
    SingleParts(f, s);
    var tag, item := Tag(f.tag, WireType(f.ltype)), EncodeValue(f.ltype, s.v).value;
    assert f.ltype < f;
    ValueRoundTrip(f.ltype, s.v, rest);
    MixedAt(fields, slots, i);
    DecodesSingle(f, s, WireType(f.ltype), item + rest, rest);
    Assoc(tag, item, rest);
    WireBelow8(f.ltype);
    if SlotEnds(f, s) {
      LoopTurn(fields, i, WireType(f.ltype), item + rest, Filling(Mixed(fields, slots, i), seen), NormSlot(f, s), rest);
      StoresNext(fields, slots, i);
    } else {
      LoopFails(fields, i, WireType(f.ltype), item + rest, Filling(Mixed(fields, slots, i), seen));
    }
  }

  lemma SingleParts(f: Field, s: Slot)
    requires FieldOk(f) && IsSlot(f, s) && !f.htype.Repeated? && IsPresent(f, s)
    requires EncodeField(f, s).Some?
    ensures !s.Many? && TypeOk(f.ltype) && IsValue(f.ltype, s.v) && (SlotEnds(f, s) <==> Terminated(f.ltype, s.v))
    ensures EncodeValue(f.ltype, s.v).Some?
    ensures EncodeField(f, s).value == Tag(f.tag, WireType(f.ltype)) + EncodeValue(f.ltype, s.v).value
    ensures |EncodeValue(f.ltype, s.v).value| <= |EncodeField(f, s).value|
  {
    hide Varint, EncodeValue, IsValue, TypeOk, Terminated, IsZero;
  }

  lemma WireBelow8(t: LType)
    ensures WireType(t) < 8
  {
  }

  lemma MixedAt(fields: seq<Field>, slots: seq<Slot>, i: nat)
    requires IsStruct(fields, slots) && i < |fields|
    ensures Mixed(fields, slots, i)[i] == DefaultSlot(fields[i]) && |Mixed(fields, slots, i)| == |fields|
  {
  }

  lemma DecodesSingle(f: Field, s: Slot, wire: nat, input: Bytes, rest: Bytes)
    requires IsSlot(f, s) && !f.htype.Repeated? && !s.Many? && IsPresent(f, s) && IsValue(f.ltype, s.v)
    requires forall preset :: DecodeValue(f.ltype, input, DefaultValue(f.ltype, preset)) == Outcome(f.ltype, s.v, rest)
    ensures DecodeField(f, wire, input, DefaultSlot(f)) == if Terminated(f.ltype, s.v) then Got(NormSlot(f, s), rest) else Fail
  {
    hide DecodeValue, NormValue, DefaultValue, IsValue, IsZero, Terminated;
  }

  // ---------------------------------------------------------------- repeated fields

  /** The items of a packed array come back behind those already there. */
  lemma {:induction false} PackedRoundTrip(t: LType, cap: nat, items: seq<Value>, got: seq<Value>)
    requires TypeOk(t) && Packable(t) && |got| + |items| <= cap
    requires forall k :: 0 <= k < |items| ==> IsValue(t, items[k])
    requires EncodePacked(t, items).Some?
    ensures DecodePacked(t, cap, EncodePacked(t, items).value, got) == Some(got + items)
    decreases |items|
  {
    hide IsValue, TypeOk, Terminated, DecodeValue, EncodeValue;
    if items == [] {
      assert got + items == got;
    } else {
      var rest := EncodePacked(t, items[1..]);
      ItemsAreTerminated(t, items[0]);
      JoinSize(EncodeValue(t, items[0]), rest);
      ScalarRoundTrip(t, items[0], rest.value, Zero(t));
      SomeBytes(t, items[0], rest.value);
      PackedRoundTrip(t, cap, items[1..], got + [items[0]]);
      assert got + [items[0]] + items[1..] == got + items;
    }
  }

  lemma ItemsAreTerminated(t: LType, v: Value)
    requires Packable(t) && IsValue(t, v)
    ensures Terminated(t, v) && !t.Submessage? && NormValue(t, v) == v
  {
  }

  lemma SomeBytes(t: LType, v: Value, rest: Bytes)
    requires Packable(t) && IsValue(t, v)
    ensures EncodeValue(t, v).Some? && EncodeValue(t, v).value + rest != []
  {
    hide Varint;
  }

  /** A packed array takes one turn. */
  lemma PackedTurn(fields: seq<Field>, slots: seq<Slot>, i: nat, seen: set<nat>, rest: Bytes)
    requires WellFormed(fields) && IsStruct(fields, slots) && i < |fields| && |slots| == |fields|
    requires IsSlot(fields[i], slots[i]) && fields[i].htype.Repeated? && Packable(fields[i].ltype) && slots[i].items != []
    requires EncodeField(fields[i], slots[i]).Some? && |EncodeField(fields[i], slots[i]).value| < TWO32
    ensures SlotEnds(fields[i], slots[i])
    ensures DecodeLoop(fields, EncodeField(fields[i], slots[i]).value + rest, Filling(Mixed(fields, slots, i), seen))
         == DecodeLoop(fields, rest, Filling(Mixed(fields, slots, i + 1), seen))
  {
    hide *;
    SlotKind(fields[i], slots[i]);
    var f, items := fields[i], slots[i].items;
    FieldsOk(fields, i);
    PackedParts(f, slots[i]);
    var tag, body := Tag(f.tag, WT_STRING), EncodePacked(f.ltype, items).value;
    BodyIsShort(body);
    PackedRoundTrip(f.ltype, f.htype.cap, items, []);
    StringRoundTrip(body, rest);
    DecodesPacked(f, items, LengthPrefixed(body) + rest, body, rest);
    MixedAt(fields, slots, i);
    Assoc(tag, LengthPrefixed(body), rest);
    StringWire();
    LoopTurn(fields, i, WT_STRING, LengthPrefixed(body) + rest, Filling(Mixed(fields, slots, i), seen), Many(items), rest);
    NormOfPacked(f, slots[i]);
    StoresItems(fields, slots, i, Mixed(fields, slots, i), Many(items));
    MixedNext(fields, slots, i);
    SeesNothing(fields, seen, i);
  }

  lemma StringWire()
    ensures WT_STRING < 8
  {
  }

  lemma PackedParts(f: Field, s: Slot)
    requires FieldOk(f) && IsSlot(f, s) && f.htype.Repeated? && Packable(f.ltype) && s.items != [] && EncodeField(f, s).Some?
    ensures TypeOk(f.ltype) && |s.items| <= f.htype.cap && (forall k :: 0 <= k < |s.items| ==> IsValue(f.ltype, s.items[k]))
    ensures EncodePacked(f.ltype, s.items).Some? && [] + s.items == s.items
    ensures EncodeField(f, s).value == Tag(f.tag, WT_STRING) + LengthPrefixed(EncodePacked(f.ltype, s.items).value)
    ensures |LengthPrefixed(EncodePacked(f.ltype, s.items).value)| <= |EncodeField(f, s).value| && SlotEnds(f, s)
  {
    hide Varint, IsValue, TypeOk, EncodePacked;
  }

  lemma DecodesPacked(f: Field, items: seq<Value>, input: Bytes, body: Bytes, rest: Bytes)
    requires f.htype.Repeated? && Packable(f.ltype) && TakeString(input) == Got(body, rest)
    requires DecodePacked(f.ltype, f.htype.cap, body, []) == Some(items)
    ensures DecodeField(f, WT_STRING, input, DefaultSlot(f)) == Got(Many(items), rest)
  {
    hide DecodePacked, TakeString;
  }

  lemma NormOfPacked(f: Field, s: Slot)
    requires IsSlot(f, s) && f.htype.Repeated? && Packable(f.ltype)
    ensures NormSlot(f, s) == Many(s.items)
  {
    forall k | 0 <= k < |s.items|
      ensures NormValue(f.ltype, s.items[k]) == s.items[k]
    {
      ItemsAreTerminated(f.ltype, s.items[k]);
    }
    assert NormItems(f.ltype, s.items) == s.items;
  }

  /** A repeated field is in no union. */
  lemma StoresItems(fields: seq<Field>, slots: seq<Slot>, i: nat, there: seq<Slot>, s: Slot)
    requires i < |fields| == |there| && fields[i].htype.Repeated?
    ensures Store(fields, there, i, s) == there[i := s]
  {
  }

  lemma MixedNext(fields: seq<Field>, slots: seq<Slot>, i: nat)
    requires IsStruct(fields, slots) && i < |fields| && |slots| == |fields| && IsSlot(fields[i], slots[i])
    ensures Mixed(fields, slots, i)[i := NormSlot(fields[i], slots[i])] == Mixed(fields, slots, i + 1)
  {
    hide NormSlot, DefaultSlot, IsSlot, IsStruct;
  }

  lemma SeesNothing(fields: seq<Field>, seen: set<nat>, i: nat)
    requires i < |fields| && fields[i].htype.Repeated?
    ensures See(fields, seen, i) == seen
  {
  }

  ghost predicate ItemsEnd(t: LType, items: seq<Value>, k: nat)
    requires forall j :: 0 <= j < |items| ==> IsValue(t, items[j])
  {
    forall j :: k <= j < |items| ==> Terminated(t, items[j])
  }

  lemma ItemsEndFrom(t: LType, items: seq<Value>, k: nat)
    requires k <= |items| && forall j :: 0 <= j < |items| ==> IsValue(t, items[j])
    ensures if k == |items| then ItemsEnd(t, items, k)
      else ItemsEnd(t, items, k) <==> Terminated(t, items[k]) && ItemsEnd(t, items, k + 1)
  {
  }

  /** The items from `k` on, each with its tag, take a turn each. */
  lemma {:induction false} TaggedTurns(fields: seq<Field>, i: nat, items: seq<Value>, k: nat, there: seq<Slot>, seen: set<nat>, rest: Bytes)
    requires WellFormed(fields) && i < |fields| == |there| && fields[i].htype.Repeated? && k <= |items| <= fields[i].htype.cap
    requires TypeOk(fields[i].ltype) && !Packable(fields[i].ltype)
    requires forall j :: 0 <= j < |items| ==> IsValue(fields[i].ltype, items[j])
    requires EncodeTagged(fields[i].tag, fields[i].ltype, items[k..]).Some?
    requires |EncodeTagged(fields[i].tag, fields[i].ltype, items[k..]).value| < TWO32
    requires there[i] == Many(NormItems(fields[i].ltype, items)[..k])
    ensures DecodeLoop(fields, EncodeTagged(fields[i].tag, fields[i].ltype, items[k..]).value + rest, Filling(there, seen))
         == if ItemsEnd(fields[i].ltype, items, k)
            then DecodeLoop(fields, rest, Filling(there[i := Many(NormItems(fields[i].ltype, items))], seen)) else Fail
    decreases fields, 0, |items| - k
  {
    hide *;
    var f, t := fields[i], fields[i].ltype;
    var norm := NormItems(t, items);
    ItemsEndFrom(t, items, k);
    if k == |items| {
      TaggedEnd(f.tag, t, items);
      assert norm[..k] == norm;
      assert [] + rest == rest && there[i := Many(norm)] == there;
    } else {
      TaggedStep(f.tag, t, items, k);
      var tail := EncodeTagged(f.tag, t, items[k + 1..]);
      var tag, item := Tag(f.tag, WireType(t)), EncodeValue(t, items[k]);
      JoinSize(Join(Some(tag), item), tail);
      JoinSize(Some(tag), item);
      assert f.ltype < f;
      ValueRoundTrip(t, items[k], tail.value + rest);
      NormItem(t, items, k);
      assert Outcome(t, items[k], tail.value + rest)
          == if Terminated(t, items[k]) then Got(NormValue(t, items[k]), tail.value + rest) else Fail by { OutcomeIs(t, items[k], tail.value + rest); }
      DecodesOne(f, WireType(t), item.value + (tail.value + rest), norm[..k], NormValue(t, items[k]), Terminated(t, items[k]), tail.value + rest);
      Regroup(tag, item.value, tail.value, rest);
      WireBelow8(t);
      if Terminated(t, items[k]) {
        LoopTurn(fields, i, WireType(t), item.value + (tail.value + rest), Filling(there, seen), Many(norm[..k + 1]), tail.value + rest);
        StoresItems(fields, there, i, there, Many(norm[..k + 1]));
        SeesNothing(fields, seen, i);
        TaggedTurns(fields, i, items, k + 1, there[i := Many(norm[..k + 1])], seen, rest);
        assert there[i := Many(norm[..k + 1])][i := Many(norm)] == there[i := Many(norm)];
      } else {
        LoopFails(fields, i, WireType(t), item.value + (tail.value + rest), Filling(there, seen));
      }
    }
  }

  lemma Regroup(a: Bytes, b: Bytes, c: Bytes, d: Bytes)
    ensures a + b + c + d == a + (b + (c + d))
  {
  }

  lemma NormItem(t: LType, items: seq<Value>, k: nat)
    requires k < |items| && forall j :: 0 <= j < |items| ==> IsValue(t, items[j])
    ensures NormItems(t, items)[..k + 1] == NormItems(t, items)[..k] + [NormValue(t, items[k])]
  {
    hide IsValue, NormValue;
  }

  lemma DecodesOne(f: Field, wire: nat, input: Bytes, got: seq<Value>, v: Value, ends: bool, rest: Bytes)
    requires f.htype.Repeated? && !Packable(f.ltype) && |got| < f.htype.cap
    requires forall preset :: DecodeValue(f.ltype, input, DefaultValue(f.ltype, preset)) == if ends then Got(v, rest) else Fail
    ensures DecodeField(f, wire, input, Many(got)) == if ends then Got(Many(got + [v]), rest) else Fail
  {
    hide DecodeValue, DefaultValue;
  }

  /** All turns of the loop that a repeated field takes. */
  lemma {:induction false} RepeatedTurns(fields: seq<Field>, slots: seq<Slot>, i: nat, seen: set<nat>, rest: Bytes)
    requires WellFormed(fields) && IsStruct(fields, slots) && i < |fields| && |slots| == |fields|
    requires IsSlot(fields[i], slots[i]) && fields[i].htype.Repeated?
    requires EncodeField(fields[i], slots[i]).Some? && |EncodeField(fields[i], slots[i]).value| < TWO32
    ensures DecodeLoop(fields, EncodeField(fields[i], slots[i]).value + rest, Filling(Mixed(fields, slots, i), seen))
         == if SlotEnds(fields[i], slots[i]) then DecodeLoop(fields, rest, Filling(Mixed(fields, slots, i + 1), seen)) else Fail
    decreases fields, 1
  {
    hide *;
    var f, s := fields[i], slots[i];
    FieldsOk(fields, i);
    SlotKind(f, s);
    if s.items == [] {
      EmptyIsDefault(fields, slots, i, rest);
    } else if Packable(f.ltype) {
      PackedTurn(fields, slots, i, seen, rest);
    } else {
      TaggedParts(f, s);
      MixedAt(fields, slots, i);
      NothingYet(f, s.items);
      assert s.items[0..] == s.items;
      TaggedTurns(fields, i, s.items, 0, Mixed(fields, slots, i), seen, rest);
      NormOfTagged(f, s);
      MixedNext(fields, slots, i);
    }
  }

  lemma EmptyIsDefault(fields: seq<Field>, slots: seq<Slot>, i: nat, rest: Bytes)
    requires WellFormed(fields) && IsStruct(fields, slots) && i < |fields| && |slots| == |fields|
    requires IsSlot(fields[i], slots[i]) && fields[i].htype.Repeated? && slots[i].items == []
    ensures EncodeField(fields[i], slots[i]) == Some([]) && [] + rest == rest && SlotEnds(fields[i], slots[i])
    ensures Mixed(fields, slots, i + 1) == Mixed(fields, slots, i)
  {
    FieldsOk(fields, i);
    AbsentIsDefault(fields[i], slots[i]);
    hide NormSlot, DefaultSlot;
  }

  lemma TaggedParts(f: Field, s: Slot)
    requires FieldOk(f) && IsSlot(f, s) && f.htype.Repeated? && !Packable(f.ltype) && s.items != []
    requires EncodeField(f, s).Some?
    ensures TypeOk(f.ltype) && |s.items| <= f.htype.cap
    ensures forall k :: 0 <= k < |s.items| ==> IsValue(f.ltype, s.items[k])
    ensures SlotEnds(f, s) <==> ItemsEnd(f.ltype, s.items, 0)
    ensures EncodeField(f, s) == EncodeTagged(f.tag, f.ltype, s.items)
  {
    hide Varint, IsValue, TypeOk, Terminated, EncodeTagged;
  }

  lemma NothingYet(f: Field, items: seq<Value>)
    requires f.htype.Repeated? && forall k :: 0 <= k < |items| ==> IsValue(f.ltype, items[k])
    ensures DefaultSlot(f) == Many(NormItems(f.ltype, items)[..0])
  {
  }

  lemma NormOfTagged(f: Field, s: Slot)
    requires IsSlot(f, s) && f.htype.Repeated? && forall k :: 0 <= k < |s.items| ==> IsValue(f.ltype, s.items[k])
    ensures NormSlot(f, s) == Many(NormItems(f.ltype, s.items))
  {
  }

  // ---------------------------------------------------------------- a string that fills its array

  /** A message of one string whose array of one byte has no room for the terminator: it encodes and does not decode. */
  lemma FullStringIsLost()
    ensures
      var fields, slots := [Field(1, Text(1), Required, None)], [One(Blob([65]))];
      && WellFormed(fields) && IsStruct(fields, slots)
      && EncodeFrom(fields, slots, 0) == Some([10, 1, 65])
      && DecodeMessage(fields, [10, 1, 65], Defaults(fields)) == Fail
  {
    var f, s := Field(1, Text(1), Required, None), One(Blob([65]));
    var fields: seq<Field>, slots: seq<Slot> := [f], [s];
    assert fields[0] == f && slots[0] == s;
    FullStringEncodes(f, s);
    FieldAlone(fields, slots);
    MessageRoundTrip(fields, slots);
  }

  lemma FullStringEncodes(f: Field, s: Slot)
    requires f == Field(1, Text(1), Required, None) && s == One(Blob([65]))
    ensures IsSlot(f, s) && EncodeField(f, s) == Some([10, 1, 65])
  {
    assert Varint(10) == [10] && Varint(1) == [1];
    assert Tag(1, WT_STRING) == [10];
    assert LengthPrefixed([65]) == [1, 65];
    assert EncodeValue(f.ltype, s.v) == Some([1, 65]);
    assert [10] + [1, 65] == [10, 1, 65];
  }

  lemma FieldAlone(fields: seq<Field>, slots: seq<Slot>)
    requires IsStruct(fields, slots) && |fields| == |slots| == 1 && IsSlot(fields[0], slots[0])
    ensures EncodeFrom(fields, slots, 0) == EncodeField(fields[0], slots[0])
  {
    hide EncodeField;
    assert EncodeFrom(fields, slots, 1) == Some([]);
    if EncodeField(fields[0], slots[0]).Some? {
      var b := EncodeField(fields[0], slots[0]).value;
      assert b + [] == b;
    }
  }
}
