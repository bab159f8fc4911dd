/** The input stream and the decoding methods: what they consume and store is what the decoding functions say. */
module PbStream {
  import opened Coding
  import opened Keys
  import opened PbCommon
  import opened PbDecode
  import opened PbBits
  import opened PbEncode

  /** A buffer from the current byte on, of which only `bytesLeft` may be read. */
  class IStream {
    var state: Bytes
    var bytesLeft: nat

    predicate Valid() reads this { bytesLeft <= |state| }

    function Left(): Bytes
      requires Valid()
      reads this
    {
      state[..bytesLeft]
    }

    /** What lies behind the limit. */
    function Behind(): Bytes
      requires Valid()
      reads this
    {
      state[bytesLeft..]
    }

    constructor (state: Bytes, bytesLeft: nat)
      requires bytesLeft <= |state|
      ensures Valid() && this.state == state && this.bytesLeft == bytesLeft
    {
      this.state, this.bytesLeft := state, bytesLeft;
    }

    method Read(count: nat) returns (ok: bool, buf: Bytes)
      requires Valid()
      modifies this
      ensures Valid() && |Behind()| >= |old(Behind())| && ok == PbDecode.Read(old(Left()), count).Got?
      ensures ok ==> Got(buf, Left()) == PbDecode.Read(old(Left()), count) && Behind() == old(Behind())
    {
      ghost var input := Left();
      assert input[..0] == [] && input[0..] == input;
      if count == 0 { return true, []; }
      if bytesLeft < count { return false, []; }
      buf := state[..count];
      state := state[count..];
      bytesLeft := bytesLeft - count;
      ok := true;
      assert input[..count] == buf && input[count..] == Left();
    }

    method ReadByte() returns (ok: bool, byte: Byte)
      requires Valid()
      modifies this
      ensures Valid() && |Behind()| >= |old(Behind())| && ok == (old(Left()) != [])
      ensures ok ==> byte == old(Left())[0] && Left() == old(Left())[1..] && Behind() == old(Behind())
      ensures !ok ==> bytesLeft == 0
    {
      if bytesLeft == 0 { return false, 0; }
      byte := state[0];
      state := state[1..];
      bytesLeft := bytesLeft - 1;
      ok := true;
    }

    /** A varint of 32 bits; `eof` when there is not even a first byte. */
    method DecodeVarint32() returns (ok: bool, dest: nat, eof: bool)
      requires Valid()
      modifies this
      ensures Valid() && |Behind()| >= |old(Behind())| && ok == TakeU32(old(Left())).Got? && eof == (old(Left()) == [])
      ensures ok ==> Got(dest, Left()) == TakeU32(old(Left())) && Behind() == old(Behind())
    {
      hide TakeRest32, Pow2;
      ok, dest, eof := false, 0, false;
      ghost var input := Left();
      var good, byte := ReadByte();
      if !good {
        eof := true;
        return;
      }
      if byte < 0x80 {
        return true, ToNat(byte), false;
      }
      var bitpos: nat, result: nat := 7, ToNat(byte) % 128;
      while true
        invariant Valid() && Behind() == old(Behind()) && result < TWO32
        invariant TakeU32(input) == TakeRest32(Left(), bitpos, result)
        decreases bytesLeft
      {
        Rest32Step(Left(), bitpos, result);
        good, byte := ReadByte();
        if !good { return false, 0, false; }
        if bitpos >= 32 {
          var signExtension := if bitpos < 63 then 0xFF else 0x01;
          if ToNat(byte) % 128 != 0 && (result / 0x8000_0000 == 0 || ToNat(byte) != signExtension) {
            return false, 0, false;
          }
        } else {
          result := (result + ToNat(byte) % 128 * Pow2(bitpos)) % TWO32;
        }
        bitpos := bitpos + 7;
        if byte < 0x80 { break; }
      }
      if bitpos == 35 && ToNat(byte) % 128 >= 16 { return false, 0, false; }
      return true, result, false;
    }

    /** A varint of 64 bits, of at most ten bytes. */
    method DecodeVarint() returns (ok: bool, dest: nat)
      requires Valid()
      modifies this
      ensures Valid() && |Behind()| >= |old(Behind())| && ok == Take64(old(Left())).Got?
      ensures ok ==> Got(dest, Left()) == Take64(old(Left())) && Behind() == old(Behind())
    {
      hide SoFar, IsWidth, Take64;
      ok, dest := false, 0;
      ghost var input := Left();
      ghost var whole := Take64(input);
      var bitpos: nat, result: nat, scale: nat := 0, 0, 1;
      ghost var k: nat := 0;
      Starts64(input);
      while true
        invariant Valid() && Behind() == old(Behind()) && bitpos == 7 * k && k <= 10
        invariant IsWidth(TWO64) && SoFar(whole, Left(), 10 - k, result, scale, TWO64)
        decreases bytesLeft
      {
        if bitpos >= 64 {
          NoMoreDigits(whole, Left(), 10 - k, result, scale, TWO64);
          return;
        }
        ghost var now := Left();
        var good, byte := ReadByte();
        if !good {
          NoMoreDigits(whole, now, 10 - k, result, scale, TWO64);
          return;
        }
        if byte >= 0x80 {
          MoreDigits(whole, now, 10 - k, result, scale, TWO64);
        } else {
          LastDigit(whole, now, 10 - k, result, scale, TWO64);
        }
        result := (result + ToNat(byte) % 128 * scale) % TWO64;
        scale := scale * 128;
        bitpos := bitpos + 7;
        k := k + 1;
        if byte < 0x80 { break; }
      }
      return true, result;
    }

    method SkipVarint() returns (ok: bool)
      requires Valid()
      modifies this
      ensures Valid() && |Behind()| >= |old(Behind())| && ok == PbDecode.SkipVarint(old(Left())).Got?
      ensures ok ==> Got((), Left()) == PbDecode.SkipVarint(old(Left())) && Behind() == old(Behind())
    {
      ghost var input := Left();
      while true
        invariant Valid() && Behind() == old(Behind()) && PbDecode.SkipVarint(input) == PbDecode.SkipVarint(Left())
        decreases bytesLeft
      {
        var good, byte := ReadByte();
        if !good { return false; }
        if byte < 0x80 { break; }
      }
      ok := true;
    }

    method SkipString() returns (ok: bool)
      requires Valid()
      modifies this
      ensures Valid() && |Behind()| >= |old(Behind())| && ok == TakeString(old(Left())).Got?
      ensures ok ==> Left() == TakeString(old(Left())).rest && Behind() == old(Behind())
    {
      var good, length, _ := DecodeVarint32();
      if !good { return false; }
      var bytes;
      ok, bytes := Read(length);
    }

    /** A field number and a wire type; a zero ends the message. */
    method DecodeTag() returns (ok: bool, wire: nat, tag: nat, eof: bool)
      requires Valid()
      modifies this
      ensures Valid() && |Behind()| >= |old(Behind())| && ok == TakeTag(old(Left())).GoodTag?
      ensures ok ==> GoodTag(tag, wire, Left()) == TakeTag(old(Left())) && Behind() == old(Behind())
      ensures !ok && old(Left()) != [] ==> eof == TakeTag(old(Left())).EndOfMessage?
      ensures !ok && eof && old(Left()) != [] ==> EndOfMessage(Left()) == TakeTag(old(Left())) && Behind() == old(Behind())
    {
      hide TakeU32;
      wire, tag := 0, 0;
      var temp;
      ok, temp, eof := DecodeVarint32();
      if !ok { return; }
      if temp == 0 { return false, 0, 0, true; }
      tag, wire := temp / 8, temp % 8;
    }

    method SkipField(wire: nat) returns (ok: bool)
      requires Valid()
      modifies this
      ensures Valid() && |Behind()| >= |old(Behind())| && ok == PbDecode.SkipField(wire, old(Left())).Got?
      ensures ok ==> Got((), Left()) == PbDecode.SkipField(wire, old(Left())) && Behind() == old(Behind())
    {
      hide PbDecode.SkipVarint, TakeString;
      var b: Bytes;
      if wire == WT_VARINT { ok := SkipVarint(); }
      else if wire == WT_64BIT { ok, b := Read(8); }
      else if wire == WT_STRING { ok := SkipString(); }
      else if wire == WT_32BIT { ok, b := Read(4); }
      else { ok := false; }
    }

    /** Read a length; the substream may read that much, and this stream goes on behind it once it is closed. */
    method MakeStringSubstream() returns (ok: bool, substream: IStream)
      requires Valid()
      modifies this
      ensures Valid() && |Behind()| >= |old(Behind())| && fresh(substream) && substream.Valid() && ok == TakeString(old(Left())).Got?
      ensures ok ==> bytesLeft <= |substream.Behind()| && substream.Behind()[bytesLeft..] == old(Behind())
      ensures ok ==> TakeString(old(Left())) == Got(substream.Left(), substream.Behind()[..bytesLeft])
    {
      hide TakeU32;
      var good, size, _ := DecodeVarint32();
      substream := new IStream(state, bytesLeft);
      if !good || bytesLeft < size { return false, substream; }
      ghost var all := Left();
      substream.bytesLeft := size;
      bytesLeft := bytesLeft - size;
      ok := true;
      assert all[..size] == substream.Left() && all[size..] == substream.Behind()[..bytesLeft];
    }

    /** Skip what the substream left unread, and go on behind it. */
    method CloseStringSubstream(substream: IStream) returns (ok: bool)
      requires this != substream && substream.Valid() && bytesLeft <= |substream.Behind()|
      modifies this, substream
      ensures ok && Valid() && bytesLeft == old(bytesLeft)
      ensures Left() == old(substream.Behind())[..bytesLeft] && Behind() == old(substream.Behind())[bytesLeft..]
    {
      if substream.bytesLeft > 0 {
        var good, _ := substream.Read(substream.bytesLeft);
      }
      state := substream.state;
      ok := true;
    }

    // -------------------------------------------------------------- items and fields

    /** The decoder of an item's type; the item's memory is `there`. */
    method DecValue(f: Field, there: Value) returns (ok: bool, v: Value)
      requires Valid() && TypeOk(f.ltype)
      modifies this
      ensures Valid() && |Behind()| >= |old(Behind())| && ok == DecodeValue(f.ltype, old(Left()), Base(f, there)).Got?
      ensures ok ==> Got(v, Left()) == DecodeValue(f.ltype, old(Left()), Base(f, there)) && Behind() == old(Behind())
      decreases f.ltype, 1
    {
      hide TakeU32, Take64, TakeString, DecodeMessage, Zeros, UpToZero;
      var u: nat, b: Bytes, eof: bool;
      match f.ltype
      case Boolean =>
        ok, u, eof := DecodeVarint32();
        v := Num(if u != 0 then 1 else 0);
      case Int(size) =>
        ok, u := DecodeVarint();
        var svalue := if size == 8 then AsSigned(u) else AsSigned32(u);
        v := Num(svalue);
        ok := ok && InSigned(size, svalue);
      case UInt(size) =>
        ok, u := DecodeVarint();
        v := Num(u);
        ok := ok && InUnsigned(size, u);
      case SInt(size) =>
        ok, u := DecodeVarint();
        v := Num(UnZigZag(u));
        ok := ok && InSigned(size, UnZigZag(u));
      case Bits32 =>
        ok, b := Read(4);
        v := Num(if ok then DecodeFixed32(b) else 0);
      case Bits64 =>
        ok, b := Read(8);
        v := Num(if ok then DecodeFixed64(b) else 0);
      case ByteArray(cap) =>
        ok, u, eof := DecodeVarint32();
        if !ok || u > cap { return false, there; }
        ok, b := Read(u);
        v := Blob(b);
      case Text(dataSize) =>
        ok, u, eof := DecodeVarint32();
        if !ok || u + 1 > dataSize { return false, there; }
        ok, b := Read(u);
        v := Blob(UpToZero(b));
      case Inline(length) =>
        ok, u, eof := DecodeVarint32();
        if !ok { return false, there; }
        if u == 0 { return true, Blob(Zeros(length)); }
        if u != length { return false, there; }
        ok, b := Read(length);
        v := Blob(b);
      case Submessage(fields) =>
        ok, v := DecSubmessage(f, fields, there);
    }

    /** A submessage: an array entry starts from the defaults, others from what is there. */
    method DecSubmessage(f: Field, fields: seq<Field>, there: Value) returns (ok: bool, v: Value)
      requires Valid() && f.ltype == Submessage(fields) && WellFormed(fields)
      modifies this
      ensures Valid() && |Behind()| >= |old(Behind())| && ok == DecodeValue(f.ltype, old(Left()), Base(f, there)).Got?
      ensures ok ==> Got(v, Left()) == DecodeValue(f.ltype, old(Left()), Base(f, there)) && Behind() == old(Behind())
      decreases f.ltype, 0
    {
      hide TakeString, DecodeMessage, WellFormed, Defaults;
      v := there;
      var slots := [];
      if f.htype.Repeated? {
        slots := SetToDefaults(fields);
      } else {
        if !there.Struct? || |there.slots| != |fields| { return false, there; }
        slots := there.slots;
      }
      var sub;
      ok, sub := MakeStringSubstream();
      if !ok { return; }
      var status;
      status, slots := sub.DecodeNoinit(fields, slots);
      ok := CloseStringSubstream(sub);
      ok := ok && status;
      v := Struct(slots);
    }

    /** One occurrence of a field: its slot afterwards. */
    method DecodeStaticField(wire: nat, f: Field, s: Slot) returns (ok: bool, r: Slot)
      requires Valid() && FieldOk(f)
      modifies this
      ensures Valid() && |Behind()| >= |old(Behind())| && ok == DecodeField(f, wire, old(Left()), s).Got?
      ensures ok ==> Got(r, Left()) == DecodeField(f, wire, old(Left()), s) && Behind() == old(Behind())
      decreases f
    {
      hide TakeString, DecodeValue, DecodePacked, TypeOk, DefaultValue;
      FieldBounds(f);
      r := s;
      var v;
      match f.htype
      case Required =>
        if !s.One? { return false, s; }
        ok, v := DecValue(f, s.v);
        r := One(v);
      case Optional(hasFlag) =>
        if hasFlag {
          if !s.Maybe? { return false, s; }
          ok, v := DecValue(f, s.v);
          r := Maybe(true, v);
        } else {
          if !s.One? { return false, s; }
          ok, v := DecValue(f, s.v);
          r := One(v);
        }
      case Oneof(_) =>
        if !s.Maybe? { return false, s; }
        var there := s.v;
        if !s.has {
          there := DefaultValue(f.ltype, None);
        }
        ok, v := DecValue(f, there);
        r := Maybe(true, v);
      case Repeated(cap) =>
        if !s.Many? { return false, s; }
        if wire == WT_STRING && Packable(f.ltype) {
          var items;
          ok, items := DecodePackedArray(f, s.items);
          r := Many(items);
        } else {
          if |s.items| >= cap { return false, s; }
          ok, v := DecValue(f, DefaultValue(f.ltype, None));
          r := Many(s.items + [v]);
        }
    }

    /** Items of a packed array until its substream is used up or the array is full. */
    method DecodePackedArray(f: Field, items: seq<Value>) returns (ok: bool, r: seq<Value>)
      requires Valid() && FieldOk(f) && f.htype.Repeated? && Packable(f.ltype)
      modifies this
      ensures Valid() && |Behind()| >= |old(Behind())|
      ensures
        match TakeString(old(Left()))
        case Fail => !ok
        case Got(body, rest) =>
          match DecodePacked(f.ltype, f.htype.cap, body, items)
          case None => !ok
          case Some(all) => ok && r == all && Left() == rest && Behind() == old(Behind())
      decreases f.ltype, 2
    {
      hide TakeString, DecodeValue, DecodePacked, TypeOk, DefaultValue;
      FieldBounds(f);
      r := items;
      var sub;
      ok, sub := MakeStringSubstream();
      if !ok { return; }
      ghost var body, behind := sub.Left(), sub.Behind();
      var status := true;
      while sub.bytesLeft > 0 && |r| < f.htype.cap
        invariant sub.Valid() && fresh(sub) && status
        invariant sub.Behind() == behind && |Behind()| >= |old(Behind())| && bytesLeft <= |behind|
        invariant DecodePacked(f.ltype, f.htype.cap, body, items) == DecodePacked(f.ltype, f.htype.cap, sub.Left(), r)
        decreases sub.bytesLeft
        modifies sub
      {
        PackedTurnIs(f.ltype, f.htype.cap, sub.Left(), r);
        SameBase(f, Zero(f.ltype));
        var good, v := sub.DecValue(f, Zero(f.ltype));
        if !good { status := false; break; }
        r := r + [v];
      }
      if !status { return false, r; }
      PackedEndIs(f.ltype, f.htype.cap, sub.Left(), r);
      if sub.bytesLeft != 0 { return false, r; }
      ok := CloseStringSubstream(sub);
    }

    // -------------------------------------------------------------- messages

    /** `pb_decode_noinit`: field after field into the struct, then the check for required ones. */
    method DecodeNoinit(fields: seq<Field>, dest: seq<Slot>) returns (ok: bool, slots: seq<Slot>)
      requires Valid() && WellFormed(fields) && |dest| == |fields|
      modifies this
      ensures Valid() && |Behind()| >= |old(Behind())| && |slots| == |fields| && ok == DecodeMessage(fields, old(Left()), dest).Got?
      ensures ok ==> Got(slots, Left()) == DecodeMessage(fields, old(Left()), dest) && Behind() == old(Behind())
      decreases fields, |fields| + 1
    {
      hide DecodeLoop, DecodeField, TakeTag, WellFormed, FieldOk, Store, See, PbDecode.SkipField, IndexOf, RequiredBefore, IsStruct;
      hide WithBit, SeenBits, AreWords, NoStray;
      ghost var input, x0 := Left(), Filling(dest, {});
      var fieldsSeen: seq<nat> := [0, 0];
      NothingSeen(fields);
      var iter := new FieldIter(fields, dest);
      var _ := iter.Begin();
      ghost var ended := false;
      while bytesLeft > 0
        invariant Valid() && iter.Valid() && iter.fields == fields && !ended
        invariant AreWords(fieldsSeen) && NoStray(fields, SeenBits(fieldsSeen))
        invariant DecodeLoop(fields, input, x0) == DecodeLoop(fields, Left(), Filling(iter.dest, SeenBits(fieldsSeen)))
        invariant Behind() == old(Behind())
        decreases bytesLeft
      {
        ghost var now, x, before := Left(), Filling(iter.dest, SeenBits(fieldsSeen)), fieldsSeen;
        LoopIs(fields, now, x);
        var good, wire, tag, eof := DecodeTag();
        if !good {
          if eof {
            ended := true;
            break;
          }
          return false, iter.dest;
        }
        IndexExists(fields, tag);
        var found := iter.Find(tag);
        TwoWords(fieldsSeen);
        if !found {
          good := SkipField(wire);
          if !good { return false, iter.dest; }
        } else if |fields| == 0 {
          fieldsSeen := fieldsSeen[0 := WithBit(fieldsSeen[0], 0)];
          SeesNext(fields, before, 0);
          var value, none;
          good, value, none := DecodeVarint32();
          if !good { return false, iter.dest; }
        } else {
          var f := fields[iter.pos];
          FieldIsOk(fields, iter.pos);
          IndexIsUnique(fields, iter.pos);
          RequiredIsCounted(fields, iter.pos);
          if f.htype.Required? && iter.requiredFieldIndex < MAX_REQUIRED {
            var word := iter.requiredFieldIndex / WORD;
            fieldsSeen := fieldsSeen[word := WithBit(fieldsSeen[word], iter.requiredFieldIndex % WORD)];
            SeesNext(fields, before, iter.requiredFieldIndex);
          }
          SeeIs(fields, x.seen, iter.pos);
          var s;
          good, s := DecodeStaticField(wire, f, iter.dest[iter.pos]);
          if !good { return false, iter.dest; }
          iter.dest := Store(fields, iter.dest, iter.pos, s);
        }
      }
      if !ended { LoopIs(fields, Left(), Filling(iter.dest, SeenBits(fieldsSeen))); }
      slots := iter.dest;
      ok := AllRequired(iter, fieldsSeen);
    }

    /** `pb_decode`: the defaults first. */
    method Decode(fields: seq<Field>) returns (ok: bool, slots: seq<Slot>)
      requires Valid() && WellFormed(fields)
      modifies this
      ensures Valid() && |Behind()| >= |old(Behind())| && |slots| == |fields|
      ensures ok == DecodeMessage(fields, old(Left()), Defaults(fields)).Got?
      ensures ok ==> Got(slots, Left()) == DecodeMessage(fields, old(Left()), Defaults(fields)) && Behind() == old(Behind())
    {
      hide DecodeMessage, WellFormed, Defaults;
      slots := SetToDefaults(fields);
      ok, slots := DecodeNoinit(fields, slots);
    }
  }

  /** Two words for 64 required fields. */
  ghost predicate AreWords(words: seq<nat>) { |words| == 2 && IsWord(words[0]) && IsWord(words[1]) }

  lemma TwoWords(words: seq<nat>)
    requires AreWords(words)
    ensures |words| == 2 && MAX_REQUIRED == 2 * WORD
  {
  }

  ghost predicate Seen(words: seq<nat>, k: nat)
    requires AreWords(words)
  {
    k < MAX_REQUIRED && Bit(words[k / WORD], k % WORD)
  }

  /** The required fields whose bits are set. */
  ghost function SeenBits(words: seq<nat>): set<nat>
    requires AreWords(words)
  {
    set k: nat | k < MAX_REQUIRED && Seen(words, k)
  }

  /** No bit past the number of required fields is set, unless there is no field at all. */
  ghost predicate NoStray(fields: seq<Field>, seen: set<nat>) {
    fields != [] ==> forall k :: k in seen ==> k < RequiredBefore(fields, |fields|)
  }

  lemma NothingSeen(fields: seq<Field>)
    ensures AreWords([0, 0]) && SeenBits([0, 0]) == {} && NoStray(fields, SeenBits([0, 0]))
  {
    hide Bit, Pow2;
    Twice(WORD);
    forall k: nat | k < MAX_REQUIRED
      ensures !Bit([0, 0][k / WORD], k % WORD)
    {
      NoBits(k % WORD);
    }
  }

  /** Setting a bit. */
  lemma SeesNext(fields: seq<Field>, words: seq<nat>, k: nat)
    requires AreWords(words) && k < MAX_REQUIRED && NoStray(fields, SeenBits(words))
    requires fields != [] ==> k < RequiredBefore(fields, |fields|)
    ensures
      var r := words[k / WORD := WithBit(words[k / WORD], k % WORD)];
      AreWords(r) && SeenBits(r) == SeenBits(words) + {k} && NoStray(fields, SeenBits(r))
  {
    hide Bit, Pow2, WithBit, RequiredBefore;
    var r := words[k / WORD := WithBit(words[k / WORD], k % WORD)];
    WithBitFits(words[k / WORD], k % WORD, WORD);
    forall j: nat | j < MAX_REQUIRED
      ensures Seen(r, j) <==> Seen(words, j) || j == k
    {
      WithBitIs(words[k / WORD], k % WORD, j % WORD);
    }
  }

  lemma SeeIs(fields: seq<Field>, seen: set<nat>, i: nat)
    requires i < |fields|
    ensures
      var k := RequiredBefore(fields, i);
      See(fields, seen, i) == if fields[i].htype.Required? && k < MAX_REQUIRED then seen + {k} else seen
  {
  }

  lemma {:induction false} CountGrows(fields: seq<Field>, i: nat, j: nat)
    requires i <= j <= |fields|
    ensures RequiredBefore(fields, i) <= RequiredBefore(fields, j)
  {
    if i < j {
      CountGrows(fields, i, j - 1);
    }
  }

  lemma RequiredIsCounted(fields: seq<Field>, i: nat)
    requires i < |fields|
    ensures fields[i].htype.Required? ==> RequiredBefore(fields, i) < RequiredBefore(fields, |fields|)
  {
    CountGrows(fields, i + 1, |fields|);
  }

  lemma FieldIsOk(fields: seq<Field>, i: nat)
    requires WellFormed(fields) && i < |fields|
    ensures FieldOk(fields[i]) && forall j, k :: 0 <= j < k < |fields| ==> fields[j].tag != fields[k].tag
  {
  }

  lemma {:induction false} IndexExists(fields: seq<Field>, tag: nat)
    ensures IndexOf(fields, tag) == |fields| <==> !exists i :: 0 <= i < |fields| && fields[i].tag == tag
  {
  }

  /** One turn of the decoding loop. */
  lemma LoopIs(fields: seq<Field>, input: Bytes, x: Filling)
    requires |x.slots| == |fields|
    ensures
      var turn := TurnOf(fields, input, x);
      DecodeLoop(fields, input, x) ==
        if input == [] then Got(x, []) else if turn.Failed? then Fail else if turn.Ended? then Got(x, turn.rest)
        else DecodeLoop(fields, turn.rest, turn.x)
  {
    hide TurnOf;
  }

  /**
   Count the required fields by going to the end of the descriptor; then compare whole words of seen bits, and the
   rest of the last one with a mask.  The mask asks for more than it should: no bit behind it may be set.
   */
  method AllRequired(iter: FieldIter, fieldsSeen: seq<nat>) returns (ok: bool)
    requires iter.Valid() && AreWords(fieldsSeen)
    modifies iter`pos, iter`requiredFieldIndex
    ensures ok <==> MaskedComplete(iter.fields, SeenBits(fieldsSeen))
    ensures NoStray(iter.fields, SeenBits(fieldsSeen)) ==> ok == Complete(iter.fields, SeenBits(fieldsSeen))
  {
    hide RequiredBefore, SeenBits, Bit, LowBits, Pow2, NoStray, MaskedComplete, Complete;
    var reqFieldCount: nat, lastRequired := 0, false;
    var n := |iter.fields|;
    NoneBefore(iter.fields);
    while true
      invariant iter.Valid()
      decreases n - iter.pos
    {
      reqFieldCount := iter.requiredFieldIndex;
      lastRequired := n > 0 && iter.fields[iter.pos].htype.Required?;
      if n > 0 { OneMoreRequired(iter.fields, iter.pos); }
      var more := iter.Next();
      if !more { break; }
    }
    if lastRequired { reqFieldCount := reqFieldCount + 1; }
    if reqFieldCount > MAX_REQUIRED { reqFieldCount := MAX_REQUIRED; }
    MaskedMeans(iter.fields, fieldsSeen, reqFieldCount);
    if NoStray(iter.fields, SeenBits(fieldsSeen)) {
      MaskIsHarmless(iter.fields, SeenBits(fieldsSeen));
    }
    for i := 0 to reqFieldCount / WORD
      invariant forall k :: 0 <= k < i ==> fieldsSeen[k] == LowBits(WORD)
    {
      if fieldsSeen[i] != LowBits(WORD) { return false; }
    }
    if reqFieldCount % WORD != 0 {
      if fieldsSeen[reqFieldCount / WORD] != LowBits(reqFieldCount % WORD) { return false; }
    }
    ok := true;
  }

  function Counted(fields: seq<Field>): (n: nat)
    ensures n <= MAX_REQUIRED
  {
    if RequiredBefore(fields, |fields|) > MAX_REQUIRED then MAX_REQUIRED else RequiredBefore(fields, |fields|)
  }

  /** All counted fields are seen, and no bit of the last word in part behind them is set. */
  ghost predicate MaskedComplete(fields: seq<Field>, seen: set<nat>) {
    var n := Counted(fields);
    && (forall k: nat :: k < n ==> k in seen)
    && (n % WORD != 0 ==> forall k: nat :: n <= k < n / WORD * WORD + WORD ==> k !in seen)
  }

  /** If no bit is set that should not be, the mask changes nothing. */
  lemma MaskIsHarmless(fields: seq<Field>, seen: set<nat>)
    requires NoStray(fields, seen)
    ensures MaskedComplete(fields, seen) <==> Complete(fields, seen)
  {
    hide RequiredBefore;
    NoneBefore(fields);
  }

  /** The two comparisons, bit by bit. */
  lemma MaskedMeans(fields: seq<Field>, words: seq<nat>, n: nat)
    requires AreWords(words) && n == Counted(fields)
    ensures MaskedComplete(fields, SeenBits(words)) <==>
      && (forall i :: 0 <= i < n / WORD ==> words[i] == LowBits(WORD))
      && (n % WORD != 0 ==> words[n / WORD] == LowBits(n % WORD))
  {
    hide RequiredBefore, LowBits, Counted, SeenBits;
    forall i | 0 <= i < 2
      ensures words[i] == LowBits(WORD) <==> SeenOfWord(SeenBits(words), i, WORD)
      ensures words[i] == LowBits(n % WORD) <==> SeenOfWord(SeenBits(words), i, n % WORD)
    {
      WordMeans(words, i, WORD);
      WordMeans(words, i, n % WORD);
    }
    MaskedByWords(fields, SeenBits(words), n);
  }

  lemma MaskedByWords(fields: seq<Field>, seen: set<nat>, n: nat)
    requires n == Counted(fields)
    ensures MaskedComplete(fields, seen) <==>
      && (forall i: nat :: i < n / WORD ==> SeenOfWord(seen, i, WORD))
      && (n % WORD != 0 ==> SeenOfWord(seen, n / WORD, n % WORD))
  {
    hide Counted;
    forall k: nat | k < n
      ensures k / WORD * WORD <= k < k / WORD * WORD + WORD && k / WORD <= n / WORD
      ensures k / WORD == n / WORD ==> k < n / WORD * WORD + n % WORD
    {
    }
    if (forall i: nat :: i < n / WORD ==> SeenOfWord(seen, i, WORD)) && (n % WORD != 0 ==> SeenOfWord(seen, n / WORD, n % WORD)) {
      forall k: nat | k < n
        ensures k in seen
      {
        if k / WORD < n / WORD {
          assert SeenOfWord(seen, k / WORD, WORD);
        }
      }
    }
  }

  /** Exactly the first `n` fields of those that a word is for are seen. */
  ghost predicate SeenOfWord(seen: set<nat>, i: nat, n: nat) {
    forall k: nat :: i * WORD <= k < i * WORD + WORD ==> (k in seen <==> k < i * WORD + n)
  }

  lemma WordMeans(words: seq<nat>, i: nat, n: nat)
    requires AreWords(words) && i < 2 && n <= WORD
    ensures words[i] == LowBits(n) <==> SeenOfWord(SeenBits(words), i, n)
  {
    hide IsLow, SeenOfWord, LowBits, SeenBits;
    MaskIsExact(words[i], n);
    if IsLow(words[i], n) {
      LowIsSeen(words, i, n);
    }
    if SeenOfWord(SeenBits(words), i, n) {
      SeenIsLow(words, i, n);
    }
  }

  lemma LowIsSeen(words: seq<nat>, i: nat, n: nat)
    requires AreWords(words) && i < 2 && IsLow(words[i], n)
    ensures SeenOfWord(SeenBits(words), i, n)
  {
    hide Bit;
    forall k: nat | i * WORD <= k < i * WORD + WORD
      ensures k in SeenBits(words) <==> k < i * WORD + n
    {
      assert k / WORD == i && k % WORD == k - i * WORD;
    }
  }

  lemma SeenIsLow(words: seq<nat>, i: nat, n: nat)
    requires AreWords(words) && i < 2 && SeenOfWord(SeenBits(words), i, n)
    ensures IsLow(words[i], n)
  {
    hide Bit;
    forall j: nat | j < WORD
      ensures Bit(words[i], j) <==> j < n
    {
      var k := i * WORD + j;
      assert k / WORD == i && k % WORD == j;
      assert k in SeenBits(words) <==> Seen(words, k);
    }
  }

  lemma NoneBefore(fields: seq<Field>)
    ensures RequiredBefore(fields, 0) == 0
  {
  }

  lemma OneMoreRequired(fields: seq<Field>, i: nat)
    requires i < |fields|
    ensures RequiredBefore(fields, i + 1) == RequiredBefore(fields, i) + if fields[i].htype.Required? then 1 else 0
  {
  }

  /** The memory an item is decoded into: an array entry that is a submessage is set to its defaults first. */
  function Base(f: Field, there: Value): Value {
    if f.htype.Repeated? && f.ltype.Submessage? then DefaultValue(f.ltype, None) else there
  }

  lemma SameBase(f: Field, there: Value)
    requires Packable(f.ltype)
    ensures Base(f, there) == there
  {
  }

  lemma PackedTurnIs(t: LType, cap: nat, input: Bytes, items: seq<Value>)
    requires Packable(t) && input != [] && |items| < cap
    ensures DecodePacked(t, cap, input, items) ==
      match DecodeValue(t, input, Zero(t))
      case Fail => None
      case Got(v, rest) => DecodePacked(t, cap, rest, items + [v])
  {
    hide DecodeValue;
  }

  lemma PackedEndIs(t: LType, cap: nat, input: Bytes, items: seq<Value>)
    requires Packable(t) && (input == [] || |items| >= cap)
    ensures DecodePacked(t, cap, input, items) == if input == [] then Some(items) else None
  {
  }

  /** `pb_message_set_to_defaults`. */
  method SetToDefaults(fields: seq<Field>) returns (slots: seq<Slot>)
    ensures slots == Defaults(fields)
    decreases fields, 0
  {
    slots := [];
    for i := 0 to |fields|
      invariant |slots| == i && forall j :: 0 <= j < i ==> slots[j] == DefaultSlot(fields[j])
    {
      slots := slots + [DefaultSlot(fields[i])];
    }
  }

  lemma Starts64(input: Bytes)
    ensures IsWidth(TWO64) && SoFar(Take64(input), input, 10, 0, 1, TWO64)
  {
    hide TakeDigits, SoFar;
    FirstDigit(input, 10, TWO64);
  }

  lemma Rest32Step(input: Bytes, bitpos: nat, result: nat)
    requires result < TWO32
    ensures TakeRest32(input, bitpos, result) ==
      if input == [] then Fail
      else
        var byte := ToNat(input[0]);
        var digit := byte % 128;
        if bitpos >= 32 && digit != 0 && (result < 0x8000_0000 || byte != if bitpos < 63 then 0xFF else 0x01) then Fail
        else
          var sum := if bitpos >= 32 then result else (result + digit * Pow2(bitpos)) % TWO32;
          if byte >= 128 then TakeRest32(input[1..], bitpos + 7, sum)
          else if bitpos + 7 == 35 && byte % 128 >= 16 then Fail
          else Got(sum, input[1..])
  {
    hide Pow2;
  }
}
