/**
 What a reader that knows fewer fields makes of an encoded message: the wire type in front of an item tells it how much
 to skip, and the fields it does know come back.
 */
module PbForward {
  import opened Coding
  import opened Keys
  import opened PbCommon
  import opened PbDecode
  import opened PbEncode
  import opened PbRoundTrip

  // ---------------------------------------------------------------- wire types

  /** The wire types of the encoding guide, section "Message Structure". */
  ghost predicate IsWireType(t: LType, wire: nat) {
    match t
    case Bits64 => wire == 1
    case Bits32 => wire == 5
    case ByteArray(_) => wire == 2
    case Text(_) => wire == 2
    case Inline(_) => wire == 2
    case Submessage(_) => wire == 2
    case _ => wire == 0
  }

  /** An encoded field begins with its number and the wire type of its items; an array's is that of a string. */
  lemma TagOnTheWire(f: Field, s: Slot)
    requires FieldOk(f) && IsSlot(f, s) && EncodeField(f, s).Some? && EncodeField(f, s).value != []
    ensures
      var r := TakeTag(EncodeField(f, s).value);
      && r.GoodTag? && r.tag == f.tag && (if f.htype.Repeated? then r.wire == 2 else IsWireType(f.ltype, r.wire))
      && EncodeField(f, s).value == Varint(8 * r.tag + r.wire) + r.rest
  {
    hide *;
    TagOk(f);
    if !f.htype.Repeated? {
      SingleTag(f, s);
      WireBelow8(f.ltype);
      TagRoundTrip(f.tag, WireType(f.ltype), EncodeValue(f.ltype, s.v).value);
    } else {
      SlotKind(f, s);
      if Packable(f.ltype) {
        PackedTag(f, s);
        StringWire();
        TagRoundTrip(f.tag, WT_STRING, LengthPrefixed(EncodePacked(f.ltype, s.items).value));
      } else {
        FirstTag(f, s);
        WireBelow8(f.ltype);
        var item, rest := EncodeValue(f.ltype, s.items[0]).value, EncodeTagged(f.tag, f.ltype, s.items[1..]).value;
        TagRoundTrip(f.tag, WireType(f.ltype), item + rest);
      }
    }
  }

  lemma SingleTag(f: Field, s: Slot)
    requires IsSlot(f, s) && !f.htype.Repeated? && EncodeField(f, s).Some? && EncodeField(f, s).value != []
    ensures !s.Many? && IsValue(f.ltype, s.v) && EncodeValue(f.ltype, s.v).Some?
    ensures EncodeField(f, s).value == Tag(f.tag, WireType(f.ltype)) + EncodeValue(f.ltype, s.v).value
    ensures Tag(f.tag, WireType(f.ltype)) == Varint(8 * f.tag + WireType(f.ltype)) && IsWireType(f.ltype, WireType(f.ltype))
  {
    hide Varint, EncodeValue, IsValue, IsZero;
  }

  lemma PackedTag(f: Field, s: Slot)
    requires IsSlot(f, s) && f.htype.Repeated? && Packable(f.ltype) && EncodeField(f, s).Some? && EncodeField(f, s).value != []
    ensures s.Many? && (forall k :: 0 <= k < |s.items| ==> IsValue(f.ltype, s.items[k])) && EncodePacked(f.ltype, s.items).Some?
    ensures EncodeField(f, s).value == Tag(f.tag, WT_STRING) + LengthPrefixed(EncodePacked(f.ltype, s.items).value)
    ensures Tag(f.tag, WT_STRING) == Varint(8 * f.tag + WT_STRING) && WT_STRING == 2
  {
    hide Varint, EncodePacked, IsValue;
  }

  lemma FirstTag(f: Field, s: Slot)
    requires IsSlot(f, s) && f.htype.Repeated? && !Packable(f.ltype) && EncodeField(f, s).Some? && EncodeField(f, s).value != []
    ensures s.Many? && (forall k :: 0 <= k < |s.items| ==> IsValue(f.ltype, s.items[k])) && s.items != []
    ensures EncodeValue(f.ltype, s.items[0]).Some? && EncodeTagged(f.tag, f.ltype, s.items[1..]).Some?
    ensures EncodeField(f, s).value == Tag(f.tag, WireType(f.ltype))
      + (EncodeValue(f.ltype, s.items[0]).value + EncodeTagged(f.tag, f.ltype, s.items[1..]).value)
    ensures Tag(f.tag, WireType(f.ltype)) == Varint(8 * f.tag + WireType(f.ltype)) && WireType(f.ltype) == 2
  {
    hide Varint, EncodeValue, IsValue;
    SlotKind(f, s);
    var tag, item, rest := Tag(f.tag, WireType(f.ltype)), EncodeValue(f.ltype, s.items[0]), EncodeTagged(f.tag, f.ltype, s.items[1..]);
    JoinSize(Join(Some(tag), item), rest);
    JoinSize(Some(tag), item);
    Assoc(tag, item.value, rest.value);
  }

  // ---------------------------------------------------------------- skipping

  lemma {:induction false} SkipsVarint(n: nat, rest: Bytes)
    ensures SkipVarint(Varint(n) + rest) == Got((), rest)
    decreases n
  {
    hide Varint;
    VarintStep(n);
    if n < 128 {
      FirstBytes([ToByte(n)], rest);
    } else {
      var first := [ToByte(n % 128 + 128)];
      SkipsVarint(n / 128, rest);
      Assoc(first, Varint(n / 128), rest);
      FirstBytes(first, Varint(n / 128) + rest);
    }
  }

  /** Skipping by an item's own wire type goes to just behind the item. */
  lemma SkipsItem(t: LType, v: Value, rest: Bytes)
    requires TypeOk(t) && IsValue(t, v) && EncodeValue(t, v).Some? && |EncodeValue(t, v).value| < TWO32
    ensures SkipField(WireType(t), EncodeValue(t, v).value + rest) == Got((), rest)
  {
    hide Varint, SkipVarint, TakeU32, TakeString, EncodeFixed32, EncodeFixed64, LengthPrefixed, EncodeFrom, ZigZag, AsUnsigned;
    match t
    case Boolean => SkipsVarint(v.n, rest);
    case Int(size) => InWide(size, v.n); SkipsVarint(AsUnsigned(v.n), rest);
    case UInt(_) => SkipsVarint(v.n, rest);
    case SInt(size) => InWide(size, v.n); SkipsVarint(ZigZag(v.n), rest);
    case Bits32 => FirstBytes(EncodeFixed32(v.n), rest);
    case Bits64 => FirstBytes(EncodeFixed64(v.n), rest);
    case ByteArray(_) => SkipsString(v.b, rest);
    case Text(_) => SkipsString(v.b, rest);
    case Inline(_) => SkipsString(v.b, rest);
    case Submessage(fields) => SkipsString(EncodeFrom(fields, v.slots, 0).value, rest);
  }

  /** And so for a packed array, or any other string of bytes. */
  lemma SkipsString(b: Bytes, rest: Bytes)
    requires |LengthPrefixed(b)| < TWO32
    ensures SkipField(WT_STRING, LengthPrefixed(b) + rest) == Got((), rest)
  {
    hide LengthPrefixed, TakeString;
    BodyIsShort(b);
    StringRoundTrip(b, rest);
  }

  ghost predicate Unknown(fields: seq<Field>, tag: nat) {
    forall i :: 0 <= i < |fields| ==> fields[i].tag != tag
  }

  /** One turn of the loop on a field that the message type does not have. */
  lemma UnknownLoopTurn(fields: seq<Field>, tag: nat, wire: nat, more: Bytes, x: Filling, rest: Bytes)
    requires Unknown(fields, tag) && 0 < tag < 0x2000_0000 && wire < 8 && |x.slots| == |fields|
    requires SkipField(wire, more) == Got((), rest)
    ensures DecodeLoop(fields, Tag(tag, wire) + more, x) == DecodeLoop(fields, rest, x)
  {
    hide Tag, TakeTag, SkipField, DecodeField, Store, See;
    TagRoundTrip(tag, wire, more);
    TagIsSome(tag, wire);
  }

  lemma {:induction false} UnknownItems(fields: seq<Field>, tag: nat, t: LType, items: seq<Value>, x: Filling, rest: Bytes)
    requires Unknown(fields, tag) && 0 < tag < 0x2000_0000 && |x.slots| == |fields| && TypeOk(t)
    requires forall k :: 0 <= k < |items| ==> IsValue(t, items[k])
    requires EncodeTagged(tag, t, items).Some? && |EncodeTagged(tag, t, items).value| < TWO32
    ensures DecodeLoop(fields, EncodeTagged(tag, t, items).value + rest, x) == DecodeLoop(fields, rest, x)
    decreases |items|
  {
    hide IsValue, EncodeValue, DecodeLoop, SkipField, Unknown;
    if items == [] {
      assert [] + rest == rest;
    } else {
      var head, item, tail := Tag(tag, WireType(t)), EncodeValue(t, items[0]), EncodeTagged(tag, t, items[1..]);
      JoinSize(Join(Some(head), item), tail);
      JoinSize(Some(head), item);
      Regroup(head, item.value, tail.value, rest);
      SkipsItem(t, items[0], tail.value + rest);
      WireBelow8(t);
      UnknownLoopTurn(fields, tag, WireType(t), item.value + (tail.value + rest), x, tail.value + rest);
      UnknownItems(fields, tag, t, items[1..], x, rest);
    }
  }

  /** Every occurrence of an unknown field is skipped, whatever it is. */
  lemma UnknownField(fields: seq<Field>, f: Field, s: Slot, x: Filling, rest: Bytes)
    requires FieldOk(f) && IsSlot(f, s) && Unknown(fields, f.tag) && |x.slots| == |fields|
    requires EncodeField(f, s).Some? && |EncodeField(f, s).value| < TWO32
    ensures DecodeLoop(fields, EncodeField(f, s).value + rest, x) == DecodeLoop(fields, rest, x)
  {
    hide *;
    TagOk(f);
    if EncodeField(f, s).value == [] {
      assert [] + rest == rest;
    } else if !f.htype.Repeated? {
      SingleTag(f, s);
      TypeOfField(f);
      var tag, item := Tag(f.tag, WireType(f.ltype)), EncodeValue(f.ltype, s.v).value;
      SkipsItem(f.ltype, s.v, rest);
      WireBelow8(f.ltype);
      Assoc(tag, item, rest);
      UnknownLoopTurn(fields, f.tag, WireType(f.ltype), item + rest, x, rest);
    } else if Packable(f.ltype) {
      PackedTag(f, s);
      var tag, body := Tag(f.tag, WT_STRING), EncodePacked(f.ltype, s.items).value;
      SkipsString(body, rest);
      Assoc(tag, LengthPrefixed(body), rest);
      UnknownLoopTurn(fields, f.tag, WT_STRING, LengthPrefixed(body) + rest, x, rest);
    } else {
      FirstTag(f, s);
      TaggedParts(f, s);
      UnknownItems(fields, f.tag, f.ltype, s.items, x, rest);
    }
  }

  lemma TypeOfField(f: Field)
    requires FieldOk(f)
    ensures TypeOk(f.ltype)
  {
  }

  // ---------------------------------------------------------------- a message type that lacks fields

  /** Of the first `n` of a list, those that are kept. */
  ghost function Keep<T>(s: seq<T>, keep: set<nat>, n: nat): (r: seq<T>)
    requires n <= |s|
    ensures |r| <= n
  {
    if n == 0 then [] else Keep(s, keep, n - 1) + if n - 1 in keep then [s[n - 1]] else []
  }

  lemma {:induction false} KeptAreThere(fields: seq<Field>, slots: seq<Slot>, keep: set<nat>, n: nat, k: nat) returns (i: nat)
    requires n <= |fields| == |slots| && k < |Keep(fields, keep, n)|
    ensures |Keep(slots, keep, n)| == |Keep(fields, keep, n)| && i < n && i in keep
    ensures Keep(fields, keep, n)[k] == fields[i] && Keep(slots, keep, n)[k] == slots[i] && |Keep(fields, keep, i)| == k
  {
    KeptAlike(fields, slots, keep, n - 1);
    if k < |Keep(fields, keep, n - 1)| {
      i := KeptAreThere(fields, slots, keep, n - 1, k);
    } else {
      i := n - 1;
    }
  }

  lemma {:induction false} KeptAlike(fields: seq<Field>, slots: seq<Slot>, keep: set<nat>, n: nat)
    requires n <= |fields| == |slots|
    ensures |Keep(slots, keep, n)| == |Keep(fields, keep, n)|
  {
    if n > 0 {
      KeptAlike(fields, slots, keep, n - 1);
    }
  }

  /** What is kept of the first `i` is a beginning of what is kept. */
  lemma {:induction false} KeepPrefix<T>(s: seq<T>, keep: set<nat>, i: nat, n: nat)
    requires i <= n <= |s|
    ensures Keep(s, keep, i) <= Keep(s, keep, n)
    decreases n - i
  {
    if i < n {
      KeepPrefix(s, keep, i, n - 1);
    }
  }

  /** The next field is the next one kept, or is not kept. */
  lemma KeepNext(fields: seq<Field>, slots: seq<Slot>, keep: set<nat>, i: nat)
    requires i < |fields| == |slots|
    ensures
      var known, there, c := Keep(fields, keep, |fields|), Keep(slots, keep, |fields|), |Keep(fields, keep, i)|;
      && |there| == |known| && c <= |known|
      && (if i in keep then c < |known| && known[c] == fields[i] && there[c] == slots[i] && |Keep(fields, keep, i + 1)| == c + 1
          else |Keep(fields, keep, i + 1)| == c)
  {
    KeptAlike(fields, slots, keep, |fields|);
    KeptAlike(fields, slots, keep, i);
    KeepPrefix(fields, keep, i, |fields|);
    KeepPrefix(fields, keep, i + 1, |fields|);
    KeepPrefix(slots, keep, i + 1, |fields|);
  }

  lemma KeptTagsDiffer(fields: seq<Field>, slots: seq<Slot>, keep: set<nat>)
    requires WellFormed(fields) && |slots| == |fields|
    ensures WellFormed(Keep(fields, keep, |fields|))
    ensures forall i :: 0 <= i < |fields| && i !in keep ==> Unknown(Keep(fields, keep, |fields|), fields[i].tag)
  {
    var known := Keep(fields, keep, |fields|);
    hide Keep;
    forall k | 0 <= k < |known|
      ensures FieldOk(known[k])
      ensures forall l :: k < l < |known| ==> known[k].tag != known[l].tag
      ensures forall i :: 0 <= i < |fields| && i !in keep ==> known[k].tag != fields[i].tag
    {
      var i := KeptAreThere(fields, slots, keep, |fields|, k);
      forall l | k < l < |known|
        ensures known[k].tag != known[l].tag
      {
        var j := KeptAreThere(fields, slots, keep, |fields|, l);
      }
    }
  }

  lemma KeptIsStruct(fields: seq<Field>, slots: seq<Slot>, keep: set<nat>)
    requires IsStruct(fields, slots)
    ensures |slots| == |fields| && IsStruct(Keep(fields, keep, |fields|), Keep(slots, keep, |fields|))
  {
    StructParts(fields, slots);
    KeptAlike(fields, slots, keep, |fields|);
    var known, there := Keep(fields, keep, |fields|), Keep(slots, keep, |fields|);
    hide Keep, IsSlot;
    forall k | 0 <= k < |known|
      ensures IsSlot(known[k], there[k])
      ensures forall l :: k < l < |known| && Rivals(known, k, l) ==> !(Has(there[k]) && Has(there[l]))
    {
      var i := KeptAreThere(fields, slots, keep, |fields|, k);
      forall l | k < l < |known| && Rivals(known, k, l)
        ensures !(Has(there[k]) && Has(there[l]))
      {
        var j := KeptAreThere(fields, slots, keep, |fields|, l);
        assert Rivals(fields, i, j) && Rivals(fields, j, i);
      }
    }
  }

  /** The loop on the fields from `i` on: the kept ones take their turns, the others are skipped. */
  lemma {:induction false} ForwardLoop(fields: seq<Field>, slots: seq<Slot>, keep: set<nat>, known: seq<Field>,
      there: seq<Slot>, i: nat, seen: set<nat>) returns (x: Filling)
    requires WellFormed(fields) && IsStruct(fields, slots) && i <= |fields| == |slots|
    requires EncodeFrom(fields, slots, i).Some? && |EncodeFrom(fields, slots, i).value| < TWO32
    requires known == Keep(fields, keep, |fields|) && there == Keep(slots, keep, |fields|)
    requires WellFormed(known) && IsStruct(known, there) && |Keep(fields, keep, i)| <= |known|
    requires SeenAll(known, seen, |Keep(fields, keep, i)|)
    ensures
      var c := |Keep(fields, keep, i)|;
      && DecodeLoop(known, EncodeFrom(fields, slots, i).value, Filling(Mixed(known, there, c), seen))
           == (if EndsFrom(known, there, c) then Got(x, []) else Fail)
      && (EndsFrom(known, there, c) ==> x.slots == NormSlots(known, there) && Complete(known, x.seen))
    decreases |fields| - i
  {
    hide *;
    var c := |Keep(fields, keep, i)|;
    if i == |fields| {
      x := Filling(Mixed(known, there, c), seen);
      NothingLeft(fields, slots);
      AtEnd(known, there, seen);
    } else {
      FieldParts(fields, slots, i);
      KeepNext(fields, slots, keep, i);
      FieldsOk(fields, i);
      var f, s, rest := fields[i], slots[i], EncodeFrom(fields, slots, i + 1);
      JoinSize(EncodeField(f, s), rest);
      if i !in keep {
        KeptTagsDiffer(fields, slots, keep);
        UnknownField(known, f, s, Filling(Mixed(known, there, c), seen), rest.value);
        x := ForwardLoop(fields, slots, keep, known, there, i + 1, seen);
      } else {
        EndParts(known, there, c);
        SeesNext(known, seen, c);
        if f.htype.Repeated? {
          RepeatedTurns(known, there, c, seen, rest.value);
          x := ForwardLoop(fields, slots, keep, known, there, i + 1, seen);
        } else if IsPresent(f, s) {
          PresentTurn(known, there, c, seen, rest.value);
          x := ForwardLoop(fields, slots, keep, known, there, i + 1, See(known, seen, c));
        } else {
          AbsentTurn(known, there, c, rest.value);
          x := ForwardLoop(fields, slots, keep, known, there, i + 1, seen);
        }
      }
    }
  }

  lemma NothingLeft(fields: seq<Field>, slots: seq<Slot>)
    requires IsStruct(fields, slots)
    ensures EncodeFrom(fields, slots, |fields|) == Some([])
  {
  }

  /**
   A reader whose message type lacks some of the fields gets the others, as if only they had been written, if and only
   if every string in those ends within its array.
   */
  lemma ForwardRoundTrip(fields: seq<Field>, slots: seq<Slot>, keep: set<nat>)
    requires WellFormed(fields) && IsStruct(fields, slots)
    requires EncodeFrom(fields, slots, 0).Some? && |EncodeFrom(fields, slots, 0).value| < TWO32
    ensures |slots| == |fields|
    ensures
      var known, there := Keep(fields, keep, |fields|), Keep(slots, keep, |fields|);
      && WellFormed(known) && IsStruct(known, there)
      && DecodeMessage(known, EncodeFrom(fields, slots, 0).value, Defaults(known))
           == if StringsEnd(known, there) then Got(NormSlots(known, there), []) else Fail
  {
    KeptIsStruct(fields, slots, keep);
    KeptTagsDiffer(fields, slots, keep);
    var known, there := Keep(fields, keep, |fields|), Keep(slots, keep, |fields|);
    hide DecodeLoop, EncodeFrom, WellFormed, IsStruct;
    assert Keep(fields, keep, 0) == [];
    AtStart(known, there);
    var x := ForwardLoop(fields, slots, keep, known, there, 0, {});
  }

  lemma AtStart(known: seq<Field>, there: seq<Slot>)
    requires IsStruct(known, there)
    ensures Mixed(known, there, 0) == Defaults(known) && SeenAll(known, {}, 0)
    ensures EndsFrom(known, there, 0) <==> StringsEnd(known, there)
  {
    hide IsStruct, DefaultSlot, NormSlot, SlotEnds, IsSlot;
    StructParts(known, there);
  }

  // ---------------------------------------------------------------- a message type that has more fields

  /** Of the required fields that the decoder counts, all were written. */
  ghost predicate RequiredKept(fields: seq<Field>, keep: set<nat>) {
    forall i: nat :: i < |fields| && fields[i].htype.Required? && RequiredBefore(fields, i) < MAX_REQUIRED ==> i in keep
  }

  ghost predicate IsKeptRequired(fields: seq<Field>, keep: set<nat>, i: nat, k: nat)
    requires i <= |fields|
  {
    exists j: nat :: j < i && j in keep && fields[j].htype.Required? && RequiredBefore(fields, j) == k
  }

  /** The required fields seen so far are the kept ones of the first `i`. */
  ghost predicate SeenKept(fields: seq<Field>, keep: set<nat>, seen: set<nat>, i: nat)
    requires i <= |fields|
  {
    forall k: nat :: k in seen <==> k < MAX_REQUIRED && IsKeptRequired(fields, keep, i, k)
  }

  ghost predicate OthersAreDefault(fields: seq<Field>, slots: seq<Slot>, keep: set<nat>)
    requires |slots| == |fields|
  {
    forall i: nat :: i < |fields| && i !in keep ==> slots[i] == DefaultSlot(fields[i])
  }

  lemma {:induction false} RequiredAt(fields: seq<Field>, n: nat, k: nat) returns (j: nat)
    requires n <= |fields| && k < RequiredBefore(fields, n)
    ensures j < n && fields[j].htype.Required? && RequiredBefore(fields, j) == k
  {
    if k < RequiredBefore(fields, n - 1) {
      j := RequiredAt(fields, n - 1, k);
    } else {
      j := n - 1;
    }
  }

  lemma {:induction false} RequiredGrows(fields: seq<Field>, i: nat, j: nat)
    requires i < j <= |fields| && fields[i].htype.Required?
    ensures RequiredBefore(fields, i) < RequiredBefore(fields, j)
  {
    if i + 1 < j {
      RequiredGrows(fields, i, j - 1);
    }
  }

  lemma AllSeen(fields: seq<Field>, keep: set<nat>, seen: set<nat>)
    requires SeenKept(fields, keep, seen, |fields|)
    ensures Complete(fields, seen) <==> RequiredKept(fields, keep)
  {
    hide RequiredBefore;
    if Complete(fields, seen) {
      forall i: nat | i < |fields| && fields[i].htype.Required? && RequiredBefore(fields, i) < MAX_REQUIRED
        ensures i in keep
      {
        RequiredGrows(fields, i, |fields|);
        assert RequiredBefore(fields, i) in seen;
        var j: nat :| j < |fields| && j in keep && fields[j].htype.Required? && RequiredBefore(fields, j) == RequiredBefore(fields, i);
        if i < j {
          RequiredGrows(fields, i, j);
        } else if j < i {
          RequiredGrows(fields, j, i);
        }
      }
    }
    if RequiredKept(fields, keep) {
      forall k: nat | k < RequiredBefore(fields, |fields|) && k < MAX_REQUIRED
        ensures k in seen
      {
        var j := RequiredAt(fields, |fields|, k);
      }
    }
  }

  lemma SeesKept(fields: seq<Field>, keep: set<nat>, seen: set<nat>, i: nat)
    requires i < |fields| && SeenKept(fields, keep, seen, i)
    ensures i in keep ==> SeenKept(fields, keep, See(fields, seen, i), i + 1)
    ensures i !in keep || !fields[i].htype.Required? ==> SeenKept(fields, keep, seen, i + 1)
  {
    hide RequiredBefore;
  }

  /** What a field starts with is what it is when it is not written. */
  lemma {:induction false} NormOfDefault(f: Field)
    requires FieldOk(f) && IsSlot(f, DefaultSlot(f))
    ensures NormSlot(f, DefaultSlot(f)) == DefaultSlot(f)
    decreases f
  {
    if f.ltype.Submessage? && (f.htype.Required? || f.htype == Optional(false)) {
      var fields := f.ltype.fields;
      assert IsValue(f.ltype, DefaultValue(f.ltype, f.preset));
      StructParts(fields, Defaults(fields));
      forall i | 0 <= i < |fields|
        ensures NormSlot(fields[i], Defaults(fields)[i]) == DefaultSlot(fields[i])
      {
        FieldsOk(fields, i);
        NormOfDefault(fields[i]);
      }
      assert NormSlots(fields, Defaults(fields)) == Defaults(fields);
    }
  }

  lemma UnkeptIsDefault(fields: seq<Field>, slots: seq<Slot>, keep: set<nat>, i: nat)
    requires WellFormed(fields) && IsStruct(fields, slots) && i < |fields| == |slots| && i !in keep
    requires OthersAreDefault(fields, slots, keep)
    ensures Mixed(fields, slots, i + 1) == Mixed(fields, slots, i)
  {
    FieldsOk(fields, i);
    StructParts(fields, slots);
    NormOfDefault(fields[i]);
    hide NormSlot, DefaultSlot, IsSlot, WellFormed;
  }

  /** The reader's loop on the fields from `i` on: the kept ones take their turns, the others have nothing on the wire. */
  lemma {:induction false} BackwardLoop(fields: seq<Field>, slots: seq<Slot>, keep: set<nat>, known: seq<Field>,
      there: seq<Slot>, i: nat, seen: set<nat>) returns (x: Filling)
    requires WellFormed(fields) && IsStruct(fields, slots) && i <= |fields| == |slots|
    requires OthersAreDefault(fields, slots, keep)
    requires known == Keep(fields, keep, |fields|) && there == Keep(slots, keep, |fields|)
    requires WellFormed(known) && IsStruct(known, there) && |Keep(fields, keep, i)| <= |known|
    requires
      var c := |Keep(fields, keep, i)|;
      EncodeFrom(known, there, c).Some? && |EncodeFrom(known, there, c).value| < TWO32
    requires SeenKept(fields, keep, seen, i)
    ensures
      var c := |Keep(fields, keep, i)|;
      && DecodeLoop(fields, EncodeFrom(known, there, c).value, Filling(Mixed(fields, slots, i), seen))
           == (if EndsFrom(known, there, c) then Got(x, []) else Fail)
      && (EndsFrom(known, there, c) ==>
            x.slots == NormSlots(fields, slots) && (Complete(fields, x.seen) <==> RequiredKept(fields, keep)))
    decreases |fields| - i
  {
    hide *;
    var c := |Keep(fields, keep, i)|;
    if i == |fields| {
      x := Filling(Mixed(fields, slots, i), seen);
      NothingLeft(known, there);
      NoneToEnd(known, there);
      AllMixed(fields, slots, seen);
      AllSeen(fields, keep, seen);
    } else {
      KeepNext(fields, slots, keep, i);
      SeesKept(fields, keep, seen, i);
      if i !in keep {
        UnkeptIsDefault(fields, slots, keep, i);
        x := BackwardLoop(fields, slots, keep, known, there, i + 1, seen);
      } else {
        FieldParts(known, there, c);
        FieldParts(fields, slots, i);
        EndParts(known, there, c);
        var f, s, rest := fields[i], slots[i], EncodeFrom(known, there, c + 1);
        JoinSize(EncodeField(f, s), rest);
        if f.htype.Repeated? {
          RepeatedTurns(fields, slots, i, seen, rest.value);
          x := BackwardLoop(fields, slots, keep, known, there, i + 1, seen);
        } else if IsPresent(f, s) {
          PresentTurn(fields, slots, i, seen, rest.value);
          x := BackwardLoop(fields, slots, keep, known, there, i + 1, See(fields, seen, i));
        } else {
          AbsentTurn(fields, slots, i, rest.value);
          x := BackwardLoop(fields, slots, keep, known, there, i + 1, seen);
        }
      }
    }
  }

  lemma NoneToEnd(fields: seq<Field>, slots: seq<Slot>)
    requires IsStruct(fields, slots)
    ensures EndsFrom(fields, slots, |fields|)
  {
  }

  lemma AllMixed(fields: seq<Field>, slots: seq<Slot>, seen: set<nat>)
    requires IsStruct(fields, slots)
    ensures Mixed(fields, slots, |fields|) == NormSlots(fields, slots)
    ensures DecodeLoop(fields, [], Filling(Mixed(fields, slots, |fields|), seen)) == Got(Filling(Mixed(fields, slots, |fields|), seen), [])
  {
    hide IsStruct, NormSlot, DefaultSlot;
  }

  /**
   A reader whose message type has more fields gets what was written, and the defaults for the others, if and only if
   the strings end within their arrays and no required field, of the first 64, is among the others.
   */
  lemma BackwardRoundTrip(fields: seq<Field>, slots: seq<Slot>, keep: set<nat>)
    requires WellFormed(fields) && IsStruct(fields, slots) && |slots| == |fields| && OthersAreDefault(fields, slots, keep)
    requires WellFormed(Keep(fields, keep, |fields|)) && IsStruct(Keep(fields, keep, |fields|), Keep(slots, keep, |fields|))
    requires
      var e := EncodeFrom(Keep(fields, keep, |fields|), Keep(slots, keep, |fields|), 0);
      e.Some? && |e.value| < TWO32
    ensures
      var known, there := Keep(fields, keep, |fields|), Keep(slots, keep, |fields|);
      DecodeMessage(fields, EncodeFrom(known, there, 0).value, Defaults(fields))
        == if StringsEnd(known, there) && RequiredKept(fields, keep) then Got(NormSlots(fields, slots), []) else Fail
  {
    var known, there := Keep(fields, keep, |fields|), Keep(slots, keep, |fields|);
    assert Keep(fields, keep, 0) == [];
    hide DecodeLoop, EncodeFrom, WellFormed, IsStruct, Keep, EndsFrom, StringsEnd, Complete, RequiredKept, NormSlots, SeenKept, Mixed;
    AtStart(known, there);
    AtStart(fields, slots);
    NothingSeenYet(fields, keep);
    var x := BackwardLoop(fields, slots, keep, known, there, 0, {});
  }

  lemma NothingSeenYet(fields: seq<Field>, keep: set<nat>)
    ensures SeenKept(fields, keep, {}, 0)
  {
  }

  // ---------------------------------------------------------------- arrays that are not packed

  lemma DecodesUnpacked(f: Field, wire: nat, input: Bytes, got: seq<Value>, v: Value, rest: Bytes)
    requires f.htype.Repeated? && wire != WT_STRING && |got| < f.htype.cap
    requires DecodeValue(f.ltype, input, DefaultValue(f.ltype, None)) == Got(v, rest)
    ensures DecodeField(f, wire, input, Many(got)) == Got(Many(got + [v]), rest)
  {
    hide DecodeValue, DefaultValue;
  }

  lemma NotAString(t: LType)
    requires Packable(t)
    ensures WireType(t) != WT_STRING && WireType(t) < 8
  {
  }

  /** Numbers that come one by one, each with its tag, are taken as those of a packed array are. */
  lemma {:induction false} UnpackedIsAccepted(fields: seq<Field>, i: nat, items: seq<Value>, got: seq<Value>, x: Filling, rest: Bytes)
    requires WellFormed(fields) && i < |fields| == |x.slots| && fields[i].htype.Repeated? && Packable(fields[i].ltype)
    requires x.slots[i] == Many(got) && |got| + |items| <= fields[i].htype.cap
    requires forall k :: 0 <= k < |items| ==> IsValue(fields[i].ltype, items[k])
    requires EncodeTagged(fields[i].tag, fields[i].ltype, items).Some?
    ensures DecodeLoop(fields, EncodeTagged(fields[i].tag, fields[i].ltype, items).value + rest, x)
         == DecodeLoop(fields, rest, Filling(x.slots[i := Many(got + items)], x.seen))
    decreases |items|
  {
    hide IsValue, EncodeValue, DecodeLoop, DecodeValue, DecodeField, WellFormed, Terminated, FieldOk, TypeOk, Store, See, DefaultValue,
      NormValue;
    var f, t := fields[i], fields[i].ltype;
    if items == [] {
      assert [] + rest == rest && got + items == got && x.slots[i := Many(got)] == x.slots;
    } else {
      var head, item, tail := Tag(f.tag, WireType(t)), EncodeValue(t, items[0]), EncodeTagged(f.tag, t, items[1..]);
      JoinSize(Join(Some(head), item), tail);
      JoinSize(Some(head), item);
      Regroup(head, item.value, tail.value, rest);
      FieldsOk(fields, i);
      TypeOfField(f);
      ItemsAreTerminated(t, items[0]);
      ScalarRoundTrip(t, items[0], tail.value + rest, DefaultValue(t, None));
      NotAString(t);
      DecodesUnpacked(f, WireType(t), item.value + (tail.value + rest), got, items[0], tail.value + rest);
      LoopTurn(fields, i, WireType(t), item.value + (tail.value + rest), x, Many(got + [items[0]]), tail.value + rest);
      StoresItems(fields, x.slots, i, x.slots, Many(got + [items[0]]));
      SeesNothing(fields, x.seen, i);
      UnpackedIsAccepted(fields, i, items[1..], got + [items[0]], Filling(x.slots[i := Many(got + [items[0]])], x.seen), rest);
      assert got + [items[0]] + items[1..] == got + items;
      assert x.slots[i := Many(got + [items[0]])][i := Many(got + items)] == x.slots[i := Many(got + items)];
    }
  }

  // ---------------------------------------------------------------- fields that are not written

  /** Whether a field puts nothing on the wire. */
  ghost predicate Silent(f: Field, s: Slot)
    requires IsSlot(f, s)
    decreases f
  {
    match f.htype
    case Required => false
    case Optional(hasFlag) => if hasFlag then !s.has else SilentValue(f.ltype, s.v)
    case Repeated(_) => s.items == []
    case Oneof(_) => !s.has
  }

  /** The zero of the type; bytes of a fixed length are written even then, and a submessage is if some field of it is. */
  ghost predicate SilentValue(t: LType, v: Value)
    requires IsValue(t, v)
    decreases t
  {
    match t
    case Inline(length) => length == 0
    case Submessage(fields) => StructParts(fields, v.slots); forall i :: 0 <= i < |fields| ==> Silent(fields[i], v.slots[i])
    case _ => v == Zero(t)
  }

  lemma {:induction false} SilentIsDefault(f: Field, s: Slot)
    requires IsSlot(f, s)
    ensures Silent(f, s) <==> IsDefault(f, s)
    decreases f
  {
    if f.htype == Optional(false) {
      SilentIsZero(f.ltype, s.v);
    }
  }

  lemma {:induction false} SilentIsZero(t: LType, v: Value)
    requires IsValue(t, v)
    ensures SilentValue(t, v) <==> IsZero(t, v)
    decreases t
  {
    if t.Submessage? {
      StructParts(t.fields, v.slots);
      forall i | 0 <= i < |t.fields|
        ensures Silent(t.fields[i], v.slots[i]) <==> IsDefault(t.fields[i], v.slots[i])
      {
        SilentIsDefault(t.fields[i], v.slots[i]);
      }
    }
  }

  /** Nothing is written for a field exactly if it is not set, has no items, or, without a flag, is zero. */
  lemma AbsentIsExact(f: Field, s: Slot)
    requires FieldOk(f) && IsSlot(f, s) && EncodeField(f, s).Some?
    ensures EncodeField(f, s).value == [] <==> Silent(f, s)
  {
    hide *;
    SilentIsDefault(f, s);
    DefaultIsEmpty(f, s);
  }

  lemma DefaultIsEmpty(f: Field, s: Slot)
    requires IsSlot(f, s) && EncodeField(f, s).Some?
    ensures EncodeField(f, s).value == [] <==> IsDefault(f, s)
  {
    hide Varint, EncodeValue, EncodePacked, IsZero, IsValue;
  }
}
