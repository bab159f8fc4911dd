/** `WriteBatch`: a header with a sequence number and a count, then one tagged record per operation. */
module WriteBatch {
  import opened Coding
  import opened Keys

  const HEADER: nat := 12
  const MAX_COUNT: nat := 0x8000_0000  // the count is handed around as a signed int

  datatype BatchOp = Put(key: Bytes, value: Bytes) | Delete(key: Bytes)

  predicate Fits(op: BatchOp) { |op.key| < TWO32 && (op.Put? ==> |op.value| < TWO32) }

  ghost predicate AllFit(ops: seq<BatchOp>) {
    forall i :: 0 <= i < |ops| ==> Fits(ops[i])
  }

  function OpBytes(op: BatchOp): (b: Bytes)
    ensures b != []
  {
    match op
    case Put(key, value) => [KindByte(Value)] + LengthPrefixed(key) + LengthPrefixed(value)
    case Delete(key) => [KindByte(Deletion)] + LengthPrefixed(key)
  }

  function OpsBytes(ops: seq<BatchOp>): Bytes {
    if ops == [] then [] else OpBytes(ops[0]) + OpsBytes(ops[1..])
  }

  function BatchBytes(sequence: nat, ops: seq<BatchOp>): Bytes
    requires sequence < TWO64 && |ops| < MAX_COUNT
  {
    EncodeFixed64(sequence) + EncodeFixed32(|ops|) + OpsBytes(ops)
  }

  // ---------------------------------------------------------------- reading

  function TakeOp(input: Bytes): Taken<BatchOp>
    requires input != []
  {
    if input[0] == KindByte(Value) then
      match TakeLengthPrefixed(input[1..])
      case Fail => Fail
      case Got(key, r) =>
        match TakeLengthPrefixed(r)
        case Fail => Fail
        case Got(value, rest) => Got(Put(key, value), rest)
    else if input[0] == KindByte(Deletion) then
      match TakeLengthPrefixed(input[1..])
      case Fail => Fail
      case Got(key, rest) => Got(Delete(key), rest)
    else Fail
  }

  lemma TakeOpShrinks(input: Bytes)
    requires input != [] && TakeOp(input).Got?
    ensures |TakeOp(input).rest| < |input|
  {
    DigitsShrink(input[1..], 5);
    match TakeLengthPrefixed(input[1..])
    case Fail =>
    case Got(_, r) => DigitsShrink(r, 5);
  }

  /** The operations handed to the handler, and whether the whole input was well formed. */
  function TakeOps(input: Bytes): (seq<BatchOp>, bool)
    decreases |input|
  {
    if input == [] then ([], true)
    else
      match TakeOp(input)
      case Fail => ([], false)
      case Got(op, rest) =>
        TakeOpShrinks(input);
        var (ops, ok) := TakeOps(rest);
        ([op] + ops, ok)
  }

  function Count(rep: Bytes): nat requires |rep| >= HEADER { DecodeFixed32(rep[8..12]) }

  function Sequence(rep: Bytes): nat requires |rep| >= HEADER { DecodeFixed64(rep[..8]) }

  /** What iterating over a batch delivers, and whether it reports success. */
  function Contents(rep: Bytes): (seq<BatchOp>, bool) {
    if |rep| < HEADER then ([], false)
    else
      var (ops, ok) := TakeOps(rep[HEADER..]);
      (ops, ok && |ops| == Count(rep))
  }

  lemma OpRoundTrip(op: BatchOp, rest: Bytes)
    requires Fits(op)
    ensures TakeOp(OpBytes(op) + rest) == Got(op, rest)
  {
    hide TakeLengthPrefixed, LengthPrefixed;
    var input := OpBytes(op) + rest;
    match op
    case Put(key, value) =>
      assert input[1..] == LengthPrefixed(key) + (LengthPrefixed(value) + rest);
      LengthPrefixedRoundTrip(key, LengthPrefixed(value) + rest);
      LengthPrefixedRoundTrip(value, rest);
    case Delete(key) =>
      assert input[1..] == LengthPrefixed(key) + rest;
      LengthPrefixedRoundTrip(key, rest);
  }

  lemma {:induction false} OpsRoundTrip(ops: seq<BatchOp>)
    requires AllFit(ops)
    ensures TakeOps(OpsBytes(ops)) == (ops, true)
  {
    hide TakeOp, OpBytes, Fits;
    if ops != [] {
      OpRoundTrip(ops[0], OpsBytes(ops[1..]));
      OpsRoundTrip(ops[1..]);
      assert ops == [ops[0]] + ops[1..];
    }
  }

  lemma BatchParts(sequence: nat, ops: seq<BatchOp>)
    requires sequence < TWO64 && |ops| < MAX_COUNT
    ensures
      var rep := BatchBytes(sequence, ops);
      && |rep| >= HEADER && Sequence(rep) == sequence && Count(rep) == |ops| && rep[HEADER..] == OpsBytes(ops)
  {
    hide EncodeFixed64, DecodeFixed64, EncodeFixed32, DecodeFixed32;
    var rep := BatchBytes(sequence, ops);
    Fixed64RoundTrip(sequence);
    FixedRoundTrip(|ops|);
    assert rep[..8] == EncodeFixed64(sequence) && rep[8..12] == EncodeFixed32(|ops|);
  }

  /** Reading a batch gives back its operations in order, its number and success. */
  lemma BatchRoundTrip(sequence: nat, ops: seq<BatchOp>)
    requires sequence < TWO64 && |ops| < MAX_COUNT && AllFit(ops)
    ensures Contents(BatchBytes(sequence, ops)) == (ops, true)
    ensures Sequence(BatchBytes(sequence, ops)) == sequence
  {
    hide BatchBytes, TakeOps, AllFit, Sequence, Count, OpsBytes;
    BatchParts(sequence, ops);
    OpsRoundTrip(ops);
  }

  /** A batch whose count is not that of its operations is delivered whole and then refused. */
  lemma CountIsChecked(sequence: nat, count: nat, ops: seq<BatchOp>)
    requires sequence < TWO64 && count < TWO32 && AllFit(ops)
    ensures Contents(EncodeFixed64(sequence) + EncodeFixed32(count) + OpsBytes(ops)) == (ops, count == |ops|)
  {
    hide EncodeFixed64, EncodeFixed32, DecodeFixed32, TakeOps, AllFit, OpsBytes;
    var rep := EncodeFixed64(sequence) + EncodeFixed32(count) + OpsBytes(ops);
    FixedRoundTrip(count);
    OpsRoundTrip(ops);
    assert rep[8..12] == EncodeFixed32(count) && rep[HEADER..] == OpsBytes(ops);
  }

  lemma OpsCons(op: BatchOp, ops: seq<BatchOp>)
    ensures OpsBytes([]) == [] && OpsBytes([op] + ops) == OpBytes(op) + OpsBytes(ops)
  {
    hide OpBytes;
    assert ([op] + ops)[1..] == ops;
  }

  lemma {:induction false} OpsAppend(a: seq<BatchOp>, b: seq<BatchOp>)
    ensures OpsBytes(a + b) == OpsBytes(a) + OpsBytes(b)
  {
    hide *;
    if a == [] {
      OpsCons(Delete([]), []);
      assert a + b == b && [] + OpsBytes(b) == OpsBytes(b);
    } else {
      OpsAppend(a[1..], b);
      OpsCons(a[0], a[1..]);
      OpsCons(a[0], a[1..] + b);
      assert a == [a[0]] + a[1..] && a + b == [a[0]] + (a[1..] + b);
      Assoc(OpBytes(a[0]), OpsBytes(a[1..]), OpsBytes(b));
    }
  }

  // ---------------------------------------------------------------- the batch object

  class Batch {
    var rep: Bytes
    ghost var ops: seq<BatchOp>
    ghost var sequence: nat

    ghost predicate Valid() reads this {
      sequence < TWO64 && |ops| < MAX_COUNT && AllFit(ops) && rep == BatchBytes(sequence, ops)
    }

    constructor ()
      ensures Valid() && ops == []
    {
      rep := seq(HEADER, _ => 0);
      ops, sequence := [], 0;
      new;
      assert BatchBytes(0, []) == rep;
    }

    method Clear()
      modifies this
      ensures Valid() && ops == []
    {
      rep := seq(HEADER, _ => 0);
      ops, sequence := [], 0;
      assert BatchBytes(0, []) == rep;
    }

    /** Patch the four count bytes. */
    method SetCount(n: nat)
      requires |rep| >= HEADER && n < TWO32
      modifies this`rep
      ensures rep == old(rep)[..8] + EncodeFixed32(n) + old(rep)[HEADER..]
    {
      rep := rep[..8] + EncodeFixed32(n) + rep[HEADER..];
    }

    method SetSequence(n: nat)
      requires Valid() && n < TWO64
      modifies this
      ensures Valid() && ops == old(ops) && sequence == n
    {
      hide AllFit, EncodeFixed64, EncodeFixed32, OpsBytes;
      rep := EncodeFixed64(n) + rep[8..];
      sequence := n;
      assert rep == BatchBytes(n, ops);
    }

    /** Add a put at the end. */
    method AddPut(key: Bytes, value: Bytes)
      requires Valid() && |ops| + 1 < MAX_COUNT && |key| < TWO32 && |value| < TWO32
      modifies this
      ensures Valid() && ops == old(ops) + [Put(key, value)] && sequence == old(sequence)
    {
      hide BatchBytes, OpsBytes, Sequence, EncodeFixed32, LengthPrefixed;
      Appended(sequence, ops, [Put(key, value)]);
      BatchParts(sequence, ops);
      OneOp(Put(key, value));
      SetCount(Count(rep) + 1);
      ghost var before := rep;
      rep := rep + [KindByte(Value)];
      rep := rep + LengthPrefixed(key);
      rep := rep + LengthPrefixed(value);
      assert rep == before + OpBytes(Put(key, value));
      ops := ops + [Put(key, value)];
    }

    method AddDelete(key: Bytes)
      requires Valid() && |ops| + 1 < MAX_COUNT && |key| < TWO32
      modifies this
      ensures Valid() && ops == old(ops) + [Delete(key)] && sequence == old(sequence)
    {
      hide BatchBytes, OpsBytes, Sequence, EncodeFixed32, LengthPrefixed;
      Appended(sequence, ops, [Delete(key)]);
      BatchParts(sequence, ops);
      OneOp(Delete(key));
      SetCount(Count(rep) + 1);
      ghost var before := rep;
      rep := rep + [KindByte(Deletion)];
      rep := rep + LengthPrefixed(key);
      assert rep == before + OpBytes(Delete(key));
      ops := ops + [Delete(key)];
    }

    /** Append all operations of another batch. */
    method AppendBatch(source: Batch)
      requires Valid() && source.Valid() && |ops| + |source.ops| < MAX_COUNT
      modifies this
      ensures Valid() && ops == old(ops) + old(source.ops) && sequence == old(sequence)
    {
      hide BatchBytes, OpsBytes, Sequence, EncodeFixed32;
      Appended(sequence, ops, source.ops);
      BatchParts(sequence, ops);
      BatchParts(source.sequence, source.ops);
      ghost var more := source.ops;
      var bytes := source.rep[HEADER..];
      SetCount(Count(rep) + Count(source.rep));
      rep := rep + bytes;
      ops := ops + more;
    }

    /** Deliver the operations one by one, and report whether the batch was well formed. */
    method Iterate() returns (delivered: seq<BatchOp>, ok: bool)
      ensures (delivered, ok) == Contents(rep)
    {
      delivered := [];
      if |rep| < HEADER { return [], false; }
      hide TakeOps, TakeOp;
      var input := rep[HEADER..];
      ghost var all, good := TakeOps(input).0, TakeOps(input).1;
      assert [] + all == all;
      while input != []
        invariant all == delivered + TakeOps(input).0 && good == TakeOps(input).1
        decreases |input|
      {
        var taken := TakeOp(input);
        TakeOpsStep(input);
        if taken.Fail? {
          assert delivered + [] == delivered;
          return delivered, false;
        }
        assert delivered + ([taken.value] + TakeOps(taken.rest).0) == (delivered + [taken.value]) + TakeOps(taken.rest).0;
        delivered := delivered + [taken.value];
        input := taken.rest;
      }
      TakeOpsNothing();
      assert delivered + [] == delivered;
      ok := |delivered| == Count(rep);
    }
  }

  lemma TakeOpsNothing()
    ensures TakeOps([]) == ([], true)
  {
  }

  lemma TakeOpsStep(input: Bytes)
    requires input != []
    ensures
      match TakeOp(input)
      case Fail => TakeOps(input) == ([], false)
      case Got(op, rest) => |rest| < |input| && TakeOps(input) == ([op] + TakeOps(rest).0, TakeOps(rest).1)
  {
    if TakeOp(input).Got? {
      TakeOpShrinks(input);
    }
  }

  lemma OneOp(op: BatchOp)
    ensures OpsBytes([op]) == OpBytes(op)
  {
    assert [op][1..] == [];
    assert OpBytes(op) + [] == OpBytes(op);
  }

  /** A new count and the bytes of more operations at the end make the longer batch. */
  lemma Appended(sequence: nat, ops: seq<BatchOp>, more: seq<BatchOp>)
    requires sequence < TWO64 && |ops| + |more| < MAX_COUNT
    ensures |BatchBytes(sequence, ops)| >= HEADER
    ensures
      var rep := BatchBytes(sequence, ops);
      BatchBytes(sequence, ops + more) == rep[..8] + EncodeFixed32(|ops| + |more|) + rep[HEADER..] + OpsBytes(more)
  {
    hide EncodeFixed64, EncodeFixed32, OpsBytes;
    OpsAppend(ops, more);
    PiecesOf(EncodeFixed64(sequence), EncodeFixed32(|ops|), EncodeFixed32(|ops| + |more|), OpsBytes(ops), OpsBytes(more));
  }

  /** Replacing the middle of three pieces and adding a fourth. */
  lemma PiecesOf(a: Bytes, b: Bytes, b': Bytes, c: Bytes, d: Bytes)
    requires |a| == 8 && |b| == |b'| == 4
    ensures
      var rep := a + b + c;
      && |rep| >= HEADER && rep[..8] == a && rep[HEADER..] == c
      && a + b' + (c + d) == rep[..8] + b' + rep[HEADER..] + d
  {
  }
}
