/** Decoding a struct: fields in any order, unknown ones skipped, packed or not, submessages within their length. */
module PbDecode {
  import opened Coding
  import opened Keys
  import opened PbCommon
  import opened PbEncode

  // ---------------------------------------------------------------- numbers

  function Read(input: Bytes, count: nat): Taken<Bytes> {
    if |input| < count then Fail else Got(input[..count], input[count..])
  }

  /** The bytes of a 32-bit varint behind its first one, `bitpos` bits on. */
  function TakeRest32(input: Bytes, bitpos: nat, result: nat): Taken<nat>
    requires result < TWO32
    decreases |input|
  {
    if input == [] then Fail
    else
      var byte := ToNat(input[0]);
      var digit := byte % 128;
      if bitpos >= 32 && digit != 0 && (result < 0x8000_0000 || byte != if bitpos < 63 then 0xFF else 0x01) then Fail
      else
        var sum := if bitpos >= 32 then result else (result + digit * Pow2(bitpos)) % TWO32;
        if byte >= 128 then TakeRest32(input[1..], bitpos + 7, sum)
        else if bitpos + 7 == 35 && byte % 128 >= 16 then Fail
        else Got(sum, input[1..])
  }

  /** `pb_decode_varint32`: one byte as it is, otherwise digits up to 32 bits and then only sign extension. */
  function TakeU32(input: Bytes): (r: Taken<nat>)
    ensures r.Got? ==> |r.rest| < |input|
  {
    if input == [] then Fail
    else if input[0] < 128 then Got(ToNat(input[0]), input[1..])
    else RestIsShorter(input[1..], 7, ToNat(input[0]) % 128); TakeRest32(input[1..], 7, ToNat(input[0]) % 128)
  }

  lemma {:induction false} RestIsShorter(input: Bytes, bitpos: nat, result: nat)
    requires result < TWO32
    ensures TakeRest32(input, bitpos, result).Got? ==>
      |TakeRest32(input, bitpos, result).rest| < |input| && TakeRest32(input, bitpos, result).value < TWO32
    decreases |input|
  {
    if input != [] {
      var digit := ToNat(input[0]) % 128;
      var sum := if bitpos >= 32 then result else (result + digit * Pow2(bitpos)) % TWO32;
      RestIsShorter(input[1..], bitpos + 7, sum);
    }
  }

  /** 64 bits as a signed number. */
  function AsSigned(u: nat): int {
    if u % TWO64 >= 0x8000_0000_0000_0000 then u % TWO64 - TWO64 else u % TWO64
  }

  /** The low 32 bits as a signed number. */
  function AsSigned32(u: nat): int {
    if u % TWO32 >= 0x8000_0000 then u % TWO32 - TWO32 else u % TWO32
  }

  function UnZigZag(u: nat): int { if u % 2 == 1 then -(u / 2) - 1 else u / 2 }

  /** A C string: the bytes before the first zero. */
  function UpToZero(b: Bytes): (s: Bytes)
    ensures |s| <= |b| && 0 !in s && (0 !in b ==> s == b)
  {
    if b == [] || b[0] == 0 then [] else [b[0]] + UpToZero(b[1..])
  }

  // ---------------------------------------------------------------- items

  /** The decoder of an item's type.  A submessage is decoded into what is there. */
  function DecodeValue(t: LType, input: Bytes, there: Value): (r: Taken<Value>)
    ensures r.Got? ==> |r.rest| <= |input| && (Packable(t) ==> |r.rest| < |input|)
    decreases t, 0
  {
    match t
    case Boolean =>
      (match TakeU32(input)
       case Fail => Fail
       case Got(u, rest) => Got(Num(if u != 0 then 1 else 0), rest))
    case Int(size) =>
      (match Take64(input)
       case Fail => Fail
       case Got(u, rest) =>
         var n := if size == 8 then AsSigned(u) else AsSigned32(u);
         if IsSize(size) && InSigned(size, n) then Got(Num(n), rest) else Fail)
    case UInt(size) =>
      (match Take64(input)
       case Fail => Fail
       case Got(u, rest) => if IsSize(size) && InUnsigned(size, u) then Got(Num(u), rest) else Fail)
    case SInt(size) =>
      (match Take64(input)
       case Fail => Fail
       case Got(u, rest) =>
         if IsSize(size) && InSigned(size, UnZigZag(u)) then Got(Num(UnZigZag(u)), rest) else Fail)
    case Bits32 => if |input| < 4 then Fail else Got(Num(DecodeFixed32(input[..4])), input[4..])
    case Bits64 => if |input| < 8 then Fail else Got(Num(DecodeFixed64(input[..8])), input[8..])
    case ByteArray(cap) =>
      (match TakeU32(input)
       case Fail => Fail
       case Got(size, r) =>
         if size > cap then Fail
         else match Read(r, size) case Fail => Fail case Got(b, rest) => Got(Blob(b), rest))
    case Text(dataSize) =>
      (match TakeU32(input)
       case Fail => Fail
       case Got(size, r) =>
         if size + 1 > dataSize then Fail
         else match Read(r, size) case Fail => Fail case Got(b, rest) => Got(Blob(UpToZero(b)), rest))
    case Inline(length) =>
      (match TakeU32(input)
       case Fail => Fail
       case Got(size, r) =>
         if size == 0 then Got(Blob(Zeros(length)), r)
         else if size != length then Fail
         else match Read(r, length) case Fail => Fail case Got(b, rest) => Got(Blob(b), rest))
    case Submessage(fields) =>
      (match TakeString(input)
       case Fail => Fail
       case Got(body, rest) =>
         if !there.Struct? || |there.slots| != |fields| then Fail
         else
           match DecodeMessage(fields, body, there.slots)
           case Fail => Fail
           case Got(slots, _) => Got(Struct(slots), rest))
  }

  /** A 64-bit varint. */
  function Take64(input: Bytes): (r: Taken<nat>)
    ensures r.Got? ==> |r.rest| < |input|
  {
    DigitsShrink(input, 10); TakeVarint64(input)
  }

  /** A length and that many bytes: the substream of a string, a submessage or a packed array. */
  function TakeString(input: Bytes): (r: Taken<Bytes>)
    ensures r.Got? ==> |r.rest| < |input|
  {
    match TakeU32(input)
    case Fail => Fail
    case Got(size, rest) => Read(rest, size)
  }

  /** Items until the substream is used up; too many are an overflow. */
  function DecodePacked(t: LType, cap: nat, input: Bytes, items: seq<Value>): Option<seq<Value>>
    requires Packable(t)
    decreases t, 1, |input|
  {
    if input == [] then Some(items)
    else if |items| >= cap then None
    else
      match DecodeValue(t, input, Zero(t))
      case Fail => None
      case Got(v, rest) => DecodePacked(t, cap, rest, items + [v])
  }

  /** One occurrence of a field on the wire. */
  function DecodeField(f: Field, wire: nat, input: Bytes, s: Slot): (r: Taken<Slot>)
    ensures r.Got? ==> |r.rest| <= |input|
    decreases f
  {
    match f.htype
    case Required => if !s.One? then Fail else Put(DecodeValue(f.ltype, input, s.v), false)
    case Optional(hasFlag) =>
      if hasFlag then if !s.Maybe? then Fail else Put(DecodeValue(f.ltype, input, s.v), true)
      else if !s.One? then Fail else Put(DecodeValue(f.ltype, input, s.v), false)
    case Oneof(_) =>
      if !s.Maybe? then Fail
      else Put(DecodeValue(f.ltype, input, if s.has then s.v else DefaultValue(f.ltype, None)), true)
    case Repeated(cap) =>
      if !s.Many? then Fail
      else if wire == WT_STRING && Packable(f.ltype) then
        match TakeString(input)
        case Fail => Fail
        case Got(body, rest) =>
          match DecodePacked(f.ltype, cap, body, s.items)
          case None => Fail
          case Some(items) => Got(Many(items), rest)
      else if |s.items| >= cap then Fail
      else
        match DecodeValue(f.ltype, input, DefaultValue(f.ltype, None))
        case Fail => Fail
        case Got(v, rest) => Got(Many(s.items + [v]), rest)
  }

  function Put(r: Taken<Value>, maybe: bool): Taken<Slot> {
    match r
    case Fail => Fail
    case Got(v, rest) => Got(if maybe then Maybe(true, v) else One(v), rest)
  }

  // ---------------------------------------------------------------- messages

  /** A tag on the wire, the end of a zero-terminated message, or neither. */
  datatype TagTaken = BadTag | EndOfMessage(rest: Bytes) | GoodTag(tag: nat, wire: nat, rest: Bytes)

  function TakeTag(input: Bytes): (r: TagTaken)
    ensures r.GoodTag? ==> |r.rest| < |input|
  {
    match TakeU32(input)
    case Fail => BadTag
    case Got(u, rest) => if u == 0 then EndOfMessage(rest) else GoodTag(u / 8, u % 8, rest)
  }

  function SkipVarint(input: Bytes): (r: Taken<()>)
    ensures r.Got? ==> |r.rest| < |input|
  {
    if input == [] then Fail else if input[0] < 128 then Got((), input[1..]) else SkipVarint(input[1..])
  }

  /** An unknown field's value. */
  function SkipField(wire: nat, input: Bytes): (r: Taken<()>)
    ensures r.Got? ==> |r.rest| <= |input|
  {
    if wire == WT_VARINT then SkipVarint(input)
    else if wire == WT_64BIT then if |input| < 8 then Fail else Got((), input[8..])
    else if wire == WT_32BIT then if |input| < 4 then Fail else Got((), input[4..])
    else if wire == WT_STRING then match TakeString(input) case Fail => Fail case Got(_, rest) => Got((), rest)
    else Fail
  }

  /** The first field with a tag, or the number of fields. */
  function IndexOf(fields: seq<Field>, tag: nat): (i: nat)
    ensures i <= |fields| && (i < |fields| ==> fields[i].tag == tag)
    ensures i == |fields| ==> forall j :: 0 <= j < |fields| ==> fields[j].tag != tag
  {
    if fields == [] || fields[0].tag == tag then 0 else 1 + IndexOf(fields[1..], tag)
  }

  lemma {:induction false} IndexIsUnique(fields: seq<Field>, i: nat)
    requires i < |fields| && forall j, k :: 0 <= j < k < |fields| ==> fields[j].tag != fields[k].tag
    ensures IndexOf(fields, fields[i].tag) == i
  {
    if i > 0 {
      assert fields[0].tag != fields[i].tag;
      IndexIsUnique(fields[1..], i - 1);
    }
  }

  lemma TagsDiffer(fields: seq<Field>)
    requires WellFormed(fields)
    ensures forall j, k :: 0 <= j < k < |fields| ==> fields[j].tag != fields[k].tag
  {
  }

  /** Store a field; a union then selects it and no other member. */
  function Store(fields: seq<Field>, slots: seq<Slot>, i: nat, s: Slot): (r: seq<Slot>)
    requires |slots| == |fields| && i < |fields|
    ensures |r| == |slots|
  {
    seq(|slots|, j requires 0 <= j < |slots| =>
      if j == i then s
      else if Rivals(fields, i, j) && slots[j].Maybe? then Maybe(false, slots[j].v)
      else slots[j])
  }

  /** A struct being filled, and which of the required fields have been seen. */
  datatype Filling = Filling(slots: seq<Slot>, seen: set<nat>)

  const MAX_REQUIRED: nat := 64

  function See(fields: seq<Field>, seen: set<nat>, i: nat): set<nat>
    requires i < |fields|
  {
    if fields[i].htype.Required? && RequiredBefore(fields, i) < MAX_REQUIRED then seen + {RequiredBefore(fields, i)} else seen
  }

  /** What one turn of the loop does: it fails, ends the message, or goes on behind a field. */
  datatype Turn = Failed | Ended(rest: Bytes) | Goes(rest: Bytes, x: Filling)

  /** A field that the message type does not have is skipped. */
  function UnknownTurn(wire: nat, rest: Bytes, x: Filling): (r: Turn)
    ensures r.Goes? ==> |r.rest| <= |rest| && r.x == x
  {
    match SkipField(wire, rest)
    case Fail => Failed
    case Got(_, behind) => Goes(behind, x)
  }

  /**
   With no fields the iterator stands at the descriptor's all-zero end, which looks like a required boolean of
   number 0: a varint is read, whatever the wire type says, and stored where no slot is.
   */
  function TerminatorTurn(rest: Bytes, x: Filling): (r: Turn)
    ensures r.Goes? ==> |r.rest| < |rest| && r.x.slots == x.slots
  {
    match TakeU32(rest)
    case Fail => Failed
    case Got(_, behind) => Goes(behind, Filling(x.slots, x.seen + {0}))
  }

  function TurnOf(fields: seq<Field>, input: Bytes, x: Filling): (r: Turn)
    requires |x.slots| == |fields|
    ensures r.Goes? ==> |r.rest| < |input| && |r.x.slots| == |fields|
    decreases fields, |input|, 0
  {
    match TakeTag(input)
    case BadTag => Failed
    case EndOfMessage(rest) => Ended(rest)
    case GoodTag(tag, wire, rest) =>
      var i := IndexOf(fields, tag);
      if fields == [] && tag == 0 then TerminatorTurn(rest, x)
      else if i == |fields| then UnknownTurn(wire, rest, x)
      else
        var taken := DecodeField(fields[i], wire, rest, x.slots[i]);
        if taken.Fail? then Failed
        else Goes(taken.rest, Filling(Store(fields, x.slots, i, taken.value), See(fields, x.seen, i)))
  }

  /** Field after field, until the input ends or a zero tag ends the message. */
  function DecodeLoop(fields: seq<Field>, input: Bytes, x: Filling): (r: Taken<Filling>)
    requires |x.slots| == |fields|
    ensures r.Got? ==> |r.value.slots| == |fields|
    decreases fields, |input|, 1
  {
    if input == [] then Got(x, [])
    else
      match TurnOf(fields, input, x)
      case Failed => Fail
      case Ended(rest) => Got(x, rest)
      case Goes(rest, y) => DecodeLoop(fields, rest, y)
  }

  /** Every required field, of the first 64, has been seen. */
  predicate Complete(fields: seq<Field>, seen: set<nat>) {
    forall k :: 0 <= k < RequiredBefore(fields, |fields|) && k < MAX_REQUIRED ==> k in seen
  }

  function DecodeMessage(fields: seq<Field>, input: Bytes, slots: seq<Slot>): (r: Taken<seq<Slot>>)
    requires |slots| == |fields|
    ensures r.Got? ==> |r.value| == |fields|
    decreases fields, |input| + 1
  {
    match DecodeLoop(fields, input, Filling(slots, {}))
    case Fail => Fail
    case Got(x, rest) => if Complete(fields, x.seen) then Got(x.slots, rest) else Fail
  }

  // ---------------------------------------------------------------- field number 0

  lemma TagsArePositive(fields: seq<Field>)
    requires WellFormed(fields)
    ensures IndexOf(fields, 0) == |fields|
  {
    forall i | 0 <= i < |fields|
      ensures fields[i].tag != 0
    {
      assert FieldOk(fields[i]);
    }
  }

  /** A field of number 0, which no message type has, is skipped like any unknown one. */
  ghost predicate SkipsZero(fields: seq<Field>) {
    forall input: Bytes, x: Filling :: |x.slots| == |fields| && TakeTag(input).GoodTag? && TakeTag(input).tag == 0 ==>
      TurnOf(fields, input, x) == UnknownTurn(TakeTag(input).wire, TakeTag(input).rest, x)
  }

  /** That is so exactly if the message type has some field. */
  lemma TagZeroIsExact(fields: seq<Field>)
    requires WellFormed(fields)
    ensures SkipsZero(fields) <==> fields != []
  {
    hide TakeTag, WellFormed, UnknownTurn, TerminatorTurn, SkipField, DecodeField, Store;
    TagsArePositive(fields);
    if fields == [] {
      ZeroTagWithData();
      var input: Bytes, x := [5, 0], Filling([], {});
      assert TurnOf(fields, input, x) == TerminatorTurn([0], x);
    }
  }

  /** Field number 0 with the wire type of four bytes, and one byte behind it. */
  lemma ZeroTagWithData()
    ensures TakeTag([5, 0]) == GoodTag(0, 5, [0])
    ensures forall x :: UnknownTurn(5, [0], x) == Failed && TerminatorTurn([0], x) == Goes([], Filling(x.slots, x.seen + {0}))
  {
    assert [5, 0][1..] == [0] && [0][1..] == [];
  }

  /** These two bytes decode exactly for the message types without fields. */
  lemma EmptyTypeTakesZeroTag(fields: seq<Field>, slots: seq<Slot>)
    requires WellFormed(fields) && |slots| == |fields|
    ensures DecodeMessage(fields, [5, 0], slots) == if fields == [] then Got([], []) else Fail
  {
    hide TakeTag, WellFormed, UnknownTurn, TerminatorTurn, SkipField, DecodeField, Store, IndexOf;
    TagsArePositive(fields);
    ZeroTagWithData();
    var input: Bytes, x := [5, 0], Filling(slots, {});
    if fields == [] {
      var y := Filling(slots, {} + {0});
      assert TurnOf(fields, input, x) == Goes([], y);
      assert DecodeLoop(fields, [], y) == Got(y, []);
      assert DecodeLoop(fields, input, x) == Got(y, []);
    } else {
      assert TurnOf(fields, input, x) == Failed;
      assert DecodeLoop(fields, input, x) == Fail;
    }
  }
}
